/**
 Types, values and JSON trees of json_helper, the relation Marshal establishes
 between them and the function Unmarshal computes.
 */
module Json {
  import opened Common
  import opened Decimal

  datatype Fields = NoFields | Field(name: string, ty: Ty, rest: Fields)

  /** TOther stands for every type neither side has an overload for. */
  datatype Ty =
    | TInt(kind: IntKind) | TBool | TString | TEnum | TOther
    | TPtr(elem: Ty) | TVec(elem: Ty) | TSet(elem: Ty)
    | TStrMap(elem: Ty) | TIntMap(kind: IntKind, elem: Ty)
    | TStruct(fields: Fields)

  datatype Val =
    | VInt(i: int) | VBool(b: bool) | VStr(s: string) | VOther
    | VNull | VPtr(to: Val)
    | VVec(elems: seq<Val>) | VSet(members: set<Val>)
    | VStrMap(strs: map<string, Val>) | VIntMap(ints: map<int, Val>)
    | VStruct(vals: seq<Val>)

  datatype Json =
    | JNull | JInt(i: int) | JBool(b: bool) | JStr(s: string)
    | JArr(items: seq<Json>) | JObj(members: seq<Member>)

  /** Members in the order in which getMemberNames lists them. */
  datatype Member = Member(name: string, value: Json)

  const NullptrText := "nullptr"

  // ---- Typing ----

  predicate PointerFree(ty: Ty)
    decreases ty
  {
    match ty
    case TPtr(_) => false
    case TVec(e) => PointerFree(e)
    case TSet(e) => PointerFree(e)
    case TStrMap(e) => PointerFree(e)
    case TIntMap(_, e) => PointerFree(e)
    case TStruct(fs) => FieldsPointerFree(fs)
    case _ => true
  }

  predicate FieldsPointerFree(fs: Fields)
    decreases fs
  {
    fs.Field? ==> PointerFree(fs.ty) && FieldsPointerFree(fs.rest)
  }

  predicate HasField(fs: Fields, name: string) {
    fs.Field? && (fs.name == name || HasField(fs.rest, name))
  }

  /** v is a value of type ty. Set elements hold no pointers: those have no value order. */
  ghost predicate WellTyped(ty: Ty, v: Val)
    decreases ty
  {
    match ty
    case TInt(k) => v.VInt? && k.Fits(v.i)
    case TEnum => v.VInt? && I32.Fits(v.i)
    case TBool => v.VBool?
    case TString => v.VStr?
    case TOther => v.VOther?
    case TPtr(e) => v.VNull? || (v.VPtr? && WellTyped(e, v.to))
    case TVec(e) => v.VVec? && forall x | x in v.elems :: WellTyped(e, x)
    case TSet(e) => v.VSet? && PointerFree(e) && forall x | x in v.members :: WellTyped(e, x)
    case TStrMap(e) => v.VStrMap? && forall k | k in v.strs :: WellTyped(e, v.strs[k])
    case TIntMap(kind, e) => v.VIntMap? && forall k | k in v.ints :: kind.Fits(k) && WellTyped(e, v.ints[k])
    case TStruct(fs) => v.VStruct? && FieldsTyped(fs, v.vals)
  }

  ghost predicate FieldsTyped(fs: Fields, vals: seq<Val>)
    decreases fs
  {
    match fs
    case NoFields => vals == []
    case Field(name, ty, rest) =>
      vals != [] && !HasField(rest, name) && WellTyped(ty, vals[0]) && FieldsTyped(rest, vals[1..])
  }

  /** The value a freshly declared object of the type holds before Unmarshal writes to it. */
  function Default(ty: Ty): Val
    decreases ty
  {
    match ty
    case TInt(_) => VInt(0)
    case TEnum => VInt(0)
    case TBool => VBool(false)
    case TString => VStr("")
    case TOther => VOther
    case TPtr(_) => VNull
    case TVec(_) => VVec([])
    case TSet(_) => VSet({})
    case TStrMap(_) => VStrMap(map[])
    case TIntMap(_, _) => VIntMap(map[])
    case TStruct(fs) => VStruct(FieldDefaults(fs))
  }

  function FieldDefaults(fs: Fields): seq<Val>
    decreases fs
  {
    if fs.NoFields? then [] else [Default(fs.ty)] + FieldDefaults(fs.rest)
  }

  // ---- Marshal ----

  /** The value Marshal returns: false as soon as it meets a type without an overload. */
  ghost predicate Marshals(ty: Ty, v: Val)
    requires WellTyped(ty, v)
    decreases ty
  {
    match ty
    case TOther => false
    case TPtr(e) => v.VPtr? ==> Marshals(e, v.to)
    case TVec(e) => forall x | x in v.elems :: Marshals(e, x)
    case TSet(e) => forall x | x in v.members :: Marshals(e, x)
    case TStrMap(e) => forall k | k in v.strs :: Marshals(e, v.strs[k])
    case TIntMap(_, e) => forall k | k in v.ints :: Marshals(e, v.ints[k])
    case TStruct(fs) => FieldsMarshal(fs, v.vals)
    case _ => true
  }

  ghost predicate FieldsMarshal(fs: Fields, vals: seq<Val>)
    requires FieldsTyped(fs, vals)
    decreases fs
  {
    fs.Field? ==> Marshals(fs.ty, vals[0]) && FieldsMarshal(fs.rest, vals[1..])
  }

  ghost predicate DistinctNames(ms: seq<Member>) {
    forall i, j | 0 <= i < j < |ms| :: ms[i].name != ms[j].name
  }

  /** j is a tree Marshal may leave behind for v; an empty container leaves null. */
  ghost predicate Encodes(ty: Ty, v: Val, j: Json)
    requires WellTyped(ty, v)
    decreases ty, 0
  {
    match ty
    case TInt(_) => j == JInt(v.i)
    case TEnum => j == JInt(v.i)
    case TBool => j == JBool(v.b)
    case TString => j == JStr(v.s)
    case TOther => false
    case TPtr(e) => if v.VNull? then j == JStr(NullptrText) else Encodes(e, v.to, j)
    case TVec(e) => if v.elems == [] then j == JNull else j.JArr? && ItemsEncode(e, v.elems, j.items)
    case TSet(e) =>
      if v.members == {} then j == JNull
      else j.JArr? && exists order: seq<Val> :: Lists(order, v.members) && ItemsEncode(e, order, j.items)
    case TStrMap(e) =>
      if v.strs == map[] then j == JNull
      else
        && j.JObj? && DistinctNames(j.members)
        && (forall m | m in j.members :: m.name in v.strs && Encodes(e, v.strs[m.name], m.value))
        && (forall k | k in v.strs :: Named(j.members, k))
    case TIntMap(_, e) =>
      if v.ints == map[] then j == JNull
      else
        && j.JObj? && DistinctNames(j.members)
        && (forall m | m in j.members :: exists k :: k in v.ints && m.name == ToString(k) && Encodes(e, v.ints[k], m.value))
        && (forall k | k in v.ints :: Named(j.members, ToString(k)))
    case TStruct(fs) =>
      if fs.NoFields? then j == JNull
      else j.JObj? && FieldsEncode(fs, v.vals, j.members)
  }

  ghost predicate Named(ms: seq<Member>, name: string) {
    exists m | m in ms :: m.name == name
  }

  ghost predicate Lists(order: seq<Val>, members: set<Val>) {
    forall x :: x in order <==> x in members
  }

  ghost predicate ItemsEncode(e: Ty, elems: seq<Val>, items: seq<Json>)
    requires forall x | x in elems :: WellTyped(e, x)
    decreases e, 1
  {
    |items| == |elems| && forall i | 0 <= i < |elems| :: Encodes(e, elems[i], items[i])
  }

  /** Every field has its member, in any order and among any others. */
  ghost predicate FieldsEncode(fs: Fields, vals: seq<Val>, ms: seq<Member>)
    requires FieldsTyped(fs, vals)
    decreases fs
  {
    fs.Field? ==>
      && Named(ms, fs.name)
      && Encodes(fs.ty, vals[0], Lookup(ms, fs.name))
      && FieldsEncode(fs.rest, vals[1..], ms)
  }

  /** The first member with the name, or null. */
  function Lookup(ms: seq<Member>, name: string): Json {
    if ms == [] then JNull else if ms[0].name == name then ms[0].value else Lookup(ms[1..], name)
  }

  // ---- Unmarshal ----

  /** ret is the returned flag, v what the object holds afterwards. */
  datatype Outcome = Parsed(ret: bool, v: Val) | Throws

  datatype Outcomes = ParsedAll(ret: bool, vs: seq<Val>) | ThrowsAny

  /** Whether the JSON library takes null for an empty array or object is a parameter. */
  predicate IsArray(nullOk: bool, j: Json) {
    j.JArr? || (nullOk && j.JNull?)
  }

  predicate IsObject(nullOk: bool, j: Json) {
    j.JObj? || (nullOk && j.JNull?)
  }

  function ReadInt(kind: IntKind, j: Json, prior: Val): Outcome {
    if !j.JInt? then Parsed(false, prior)
    else if kind.Fits(j.i) then Parsed(true, VInt(j.i))
    else Throws
  }

  function Decode(nullOk: bool, ty: Ty, j: Json, prior: Val): Outcome
    decreases ty, 0
  {
    match ty
    case TInt(kind) => ReadInt(kind, j, prior)
    case TEnum => ReadInt(I32, j, prior)
    case TBool => if j.JBool? then Parsed(true, VBool(j.b)) else Parsed(false, prior)
    case TString => if j.JStr? then Parsed(true, VStr(j.s)) else Parsed(false, prior)
    case TOther => Parsed(false, prior)
    case TPtr(e) =>
      if j == JStr(NullptrText) then Parsed(true, VNull)
      else if !prior.VPtr? then Parsed(true, prior)
      else (match Decode(nullOk, e, j, prior.to)
        case Throws => Throws
        case Parsed(ret, v) => Parsed(ret, VPtr(v)))
    case TVec(e) =>
      if !IsArray(nullOk, j) then Parsed(false, prior)
      else (match DecodeItems(nullOk, e, if j.JArr? then j.items else [])
        case ThrowsAny => Throws
        case ParsedAll(ret, vs) => Parsed(ret, VVec(vs)))
    case TSet(e) =>
      if !IsArray(nullOk, j) then Parsed(false, prior)
      else (match DecodeItems(nullOk, e, if j.JArr? then j.items else [])
        case ThrowsAny => Throws
        case ParsedAll(ret, vs) => Parsed(ret, VSet(set x | x in vs)))
    case TStrMap(e) =>
      if !IsObject(nullOk, j) then Parsed(false, prior)
      else DecodeStrMembers(nullOk, e, if j.JObj? then j.members else [], true, map[])
    case TIntMap(kind, e) =>
      if !IsObject(nullOk, j) then Parsed(false, prior)
      else DecodeIntMembers(nullOk, kind, e, if j.JObj? then j.members else [], true, map[])
    case TStruct(fs) =>
      (match DecodeFields(nullOk, fs, j, if prior.VStruct? then prior.vals else [])
        case ThrowsAny => Throws
        case ParsedAll(ret, vs) => Parsed(ret, VStruct(vs)))
  }

  /** Each item is read into a fresh object and appended even when reading it failed. */
  function DecodeItems(nullOk: bool, e: Ty, items: seq<Json>): Outcomes
    decreases e, 1, |items|
  {
    if items == [] then ParsedAll(true, [])
    else match (Decode(nullOk, e, items[0], Default(e)), DecodeItems(nullOk, e, items[1..]))
      case (Parsed(ret, v), ParsedAll(rets, vs)) => ParsedAll(ret && rets, [v] + vs)
      case (_, _) => ThrowsAny
  }

  /** Each member is read into the entry its name selects, which is created on first use. */
  function DecodeStrMembers(nullOk: bool, e: Ty, ms: seq<Member>, ret: bool, m: map<string, Val>): Outcome
    decreases e, 1, |ms|
  {
    if ms == [] then Parsed(ret, VStrMap(m))
    else
      var k := ms[0].name;
      match Decode(nullOk, e, ms[0].value, if k in m then m[k] else Default(e))
      case Throws => Throws
      case Parsed(ok, v) => DecodeStrMembers(nullOk, e, ms[1..], ret && ok, m[k := v])
  }

  function DecodeIntMembers(nullOk: bool, kind: IntKind, e: Ty, ms: seq<Member>, ret: bool, m: map<int, Val>): Outcome
    decreases e, 1, |ms|
  {
    if ms == [] then Parsed(ret, VIntMap(m))
    else
      match ParseKey(kind, ms[0].name)
      case None => Throws
      case Some(k) =>
        match Decode(nullOk, e, ms[0].value, if k in m then m[k] else Default(e))
        case Throws => Throws
        case Parsed(ok, v) => DecodeIntMembers(nullOk, kind, e, ms[1..], ret && ok, m[k := v])
  }

  /** Each field is read from the member of its name; a missing member reads as null. */
  function DecodeFields(nullOk: bool, fs: Fields, j: Json, priors: seq<Val>): Outcomes
    decreases fs
  {
    if fs.NoFields? then ParsedAll(true, [])
    else if !j.JObj? && !j.JNull? then ThrowsAny
    else
      var field := if j.JObj? then Lookup(j.members, fs.name) else JNull;
      var prior := if priors == [] then Default(fs.ty) else priors[0];
      match (Decode(nullOk, fs.ty, field, prior),
             DecodeFields(nullOk, fs.rest, j, if priors == [] then [] else priors[1..]))
      case (Parsed(ret, v), ParsedAll(rets, vs)) => ParsedAll(ret && rets, [v] + vs)
      case (_, _) => ThrowsAny
  }
}
