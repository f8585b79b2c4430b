/**
 Whatever tree Unmarshal is given, the object it writes to stays a value of its type.
 */
module JsonTyping {
  import opened Common
  import opened Decimal
  import opened Json

  /** A type C++ can declare here: field names differ, and sets hold no pointers. */
  predicate Declarable(ty: Ty)
    decreases ty
  {
    match ty
    case TPtr(e) => Declarable(e)
    case TVec(e) => Declarable(e)
    case TSet(e) => PointerFree(e) && Declarable(e)
    case TStrMap(e) => Declarable(e)
    case TIntMap(_, e) => Declarable(e)
    case TStruct(fs) => FieldsDeclarable(fs)
    case _ => true
  }

  predicate FieldsDeclarable(fs: Fields)
    decreases fs
  {
    fs.Field? ==> !HasField(fs.rest, fs.name) && Declarable(fs.ty) && FieldsDeclarable(fs.rest)
  }

  lemma {:induction false} FreshTyped(ty: Ty)
    requires Declarable(ty)
    ensures WellTyped(ty, Default(ty))
    decreases ty
  {
    match ty
    case TStruct(fs) => FreshFieldsTyped(fs);
    case _ =>
  }

  lemma {:induction false} FreshFieldsTyped(fs: Fields)
    requires FieldsDeclarable(fs)
    ensures FieldsTyped(fs, FieldDefaults(fs))
    decreases fs
  {
    if fs.Field? {
      FreshTyped(fs.ty);
      FreshFieldsTyped(fs.rest);
      assert FieldDefaults(fs)[1..] == FieldDefaults(fs.rest);
    }
  }

  ghost predicate OutcomeTyped(ty: Ty, r: Outcome) {
    r.Parsed? ==> WellTyped(ty, r.v)
  }

  ghost predicate AllTyped(e: Ty, vs: seq<Val>) {
    forall x | x in vs :: WellTyped(e, x)
  }

  /** For every tree, malformed or not, an object that is not left by an exception stays well typed. */
  lemma {:induction false} DecodeKeepsType(nullOk: bool, ty: Ty, j: Json, prior: Val)
    requires Declarable(ty) && WellTyped(ty, prior)
    ensures OutcomeTyped(ty, Decode(nullOk, ty, j, prior))
    decreases ty, 0
  {
    match ty
    case TPtr(e) =>
      if prior.VPtr? {
        DecodeKeepsType(nullOk, e, j, prior.to);
      }
    case TVec(e) => ItemsTyped(nullOk, e, if j.JArr? then j.items else []);
    case TSet(e) => ItemsTyped(nullOk, e, if j.JArr? then j.items else []);
    case TStrMap(e) => StrMembersTyped(nullOk, e, if j.JObj? then j.members else [], true, map[]);
    case TIntMap(kind, e) => IntMembersTyped(nullOk, kind, e, if j.JObj? then j.members else [], true, map[]);
    case TStruct(fs) => FieldsKeepType(nullOk, fs, j, prior.vals);
    case _ =>
  }

  lemma {:induction false} ItemsTyped(nullOk: bool, e: Ty, items: seq<Json>)
    requires Declarable(e)
    ensures var r := DecodeItems(nullOk, e, items); r.ParsedAll? ==> AllTyped(e, r.vs)
    decreases e, 1, |items|
  {
    if items != [] {
      FreshTyped(e);
      DecodeKeepsType(nullOk, e, items[0], Default(e));
      ItemsTyped(nullOk, e, items[1..]);
    }
  }

  lemma {:induction false} StrMembersTyped(nullOk: bool, e: Ty, ms: seq<Member>, ret: bool, m: map<string, Val>)
    requires Declarable(e) && WellTyped(TStrMap(e), VStrMap(m))
    ensures OutcomeTyped(TStrMap(e), DecodeStrMembers(nullOk, e, ms, ret, m))
    decreases e, 1, |ms|
  {
    hide Decode, Default, Declarable;
    if ms != [] {
      var k := ms[0].name;
      FreshTyped(e);
      var into := if k in m then m[k] else Default(e);
      DecodeKeepsType(nullOk, e, ms[0].value, into);
      var one := Decode(nullOk, e, ms[0].value, into);
      if one.Parsed? {
        StrMembersTyped(nullOk, e, ms[1..], ret && one.ret, m[k := one.v]);
      }
    }
  }

  lemma {:induction false} IntMembersTyped(
    nullOk: bool, kind: IntKind, e: Ty, ms: seq<Member>, ret: bool, m: map<int, Val>)
    requires Declarable(e) && WellTyped(TIntMap(kind, e), VIntMap(m))
    ensures OutcomeTyped(TIntMap(kind, e), DecodeIntMembers(nullOk, kind, e, ms, ret, m))
    decreases e, 1, |ms|
  {
    hide ParseKey, Decode, Default, Declarable;
    if ms != [] && ParseKey(kind, ms[0].name).Some? {
      var k := ParseKey(kind, ms[0].name).value;
      ParsedKeyFits(kind, ms[0].name);
      FreshTyped(e);
      var into := if k in m then m[k] else Default(e);
      DecodeKeepsType(nullOk, e, ms[0].value, into);
      var one := Decode(nullOk, e, ms[0].value, into);
      if one.Parsed? {
        IntMembersTyped(nullOk, kind, e, ms[1..], ret && one.ret, m[k := one.v]);
      }
    }
  }

  lemma ParsedKeyFits(kind: IntKind, s: string)
    requires ParseKey(kind, s).Some?
    ensures kind.Fits(ParseKey(kind, s).value)
  {
  }

  lemma {:induction false} FieldsKeepType(nullOk: bool, fs: Fields, j: Json, priors: seq<Val>)
    requires FieldsDeclarable(fs) && FieldsTyped(fs, priors)
    ensures var r := DecodeFields(nullOk, fs, j, priors); r.ParsedAll? ==> FieldsTyped(fs, r.vs)
    decreases fs
  {
    if fs.Field? {
      DecodeKeepsType(nullOk, fs.ty, if j.JObj? then Lookup(j.members, fs.name) else JNull, priors[0]);
      FieldsKeepType(nullOk, fs.rest, j, priors[1..]);
      var r, t := DecodeFields(nullOk, fs, j, priors), DecodeFields(nullOk, fs.rest, j, priors[1..]);
      if r.ParsedAll? {
        assert r.vs[1..] == t.vs;
      }
    }
  }
}
