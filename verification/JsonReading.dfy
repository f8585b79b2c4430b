/**
 What Unmarshal makes of any tree, Marshal's or not: when it throws, when it
 returns true, and what the object holds afterwards.
 */
module JsonReading {
  import opened Common
  import opened Decimal
  import opened Json
  import opened JsonTyping

  function Items(j: Json): seq<Json> {
    if j.JArr? then j.items else []
  }

  function Members(j: Json): seq<Member> {
    if j.JObj? then j.members else []
  }

  /** A field that is missing, or asked of null, is null. */
  function FieldOf(j: Json, name: string): Json {
    Lookup(Members(j), name)
  }

  // ---- Shape ----

  /** The tree has the form of the type: right kind, numbers in range, every part of it shaped. */
  ghost predicate Shaped(nullOk: bool, ty: Ty, j: Json, prior: Val)
    requires WellTyped(ty, prior)
    decreases ty, 0
  {
    match ty
    case TInt(k) => j.JInt? && k.Fits(j.i)
    case TEnum => j.JInt? && I32.Fits(j.i)
    case TBool => j.JBool?
    case TString => j.JStr?
    case TOther => false
    case TPtr(e) => j == JStr(NullptrText) || prior.VNull? || Shaped(nullOk, e, j, prior.to)
    case TVec(e) => (j.JArr? || (nullOk && j.JNull?)) && EachShaped(nullOk, e, Items(j))
    case TSet(e) => (j.JArr? || (nullOk && j.JNull?)) && EachShaped(nullOk, e, Items(j))
    case TStrMap(e) =>
      (j.JObj? || (nullOk && j.JNull?)) && MembersShaped(nullOk, e, Members(j))
    case TIntMap(kind, e) =>
      && (j.JObj? || (nullOk && j.JNull?))
      && AllShaped(nullOk, kind, e, Members(j))
    case TStruct(fs) => FieldsShaped(nullOk, fs, j, prior.vals)
  }

  /** Shaped, for an object that has just been created. */
  ghost predicate FreshShaped(nullOk: bool, ty: Ty, j: Json)
    decreases ty, 1
  {
    WellTyped(ty, Default(ty)) && Shaped(nullOk, ty, j, Default(ty))
  }

  ghost predicate KeyedShaped(nullOk: bool, kind: IntKind, e: Ty, m: Member)
    decreases e, 2
  {
    ParseKey(kind, m.name).Some? && FreshShaped(nullOk, e, m.value)
  }

  ghost predicate EachShaped(nullOk: bool, e: Ty, items: seq<Json>)
    decreases e, 2
  {
    forall x | x in items :: FreshShaped(nullOk, e, x)
  }

  ghost predicate MembersShaped(nullOk: bool, e: Ty, ms: seq<Member>)
    decreases e, 2
  {
    forall x | x in ms :: FreshShaped(nullOk, e, x.value)
  }

  ghost predicate AllShaped(nullOk: bool, kind: IntKind, e: Ty, ms: seq<Member>)
    decreases e, 3, |ms|
  {
    ms == [] || (KeyedShaped(nullOk, kind, e, ms[0]) && AllShaped(nullOk, kind, e, ms[1..]))
  }

  ghost predicate FieldsShaped(nullOk: bool, fs: Fields, j: Json, priors: seq<Val>)
    requires FieldsTyped(fs, priors)
    decreases fs
  {
    fs.Field? ==>
      && (j.JObj? || j.JNull?)
      && Shaped(nullOk, fs.ty, FieldOf(j, fs.name), priors[0])
      && FieldsShaped(nullOk, fs.rest, j, priors[1..])
  }

  // ---- Exceptions ----

  /** Some number or key is out of range, some key has no digits, or a field is asked of a scalar or array. */
  ghost predicate ThrowsOn(nullOk: bool, ty: Ty, j: Json, prior: Val)
    requires WellTyped(ty, prior)
    decreases ty, 0
  {
    match ty
    case TInt(k) => j.JInt? && !k.Fits(j.i)
    case TEnum => j.JInt? && !I32.Fits(j.i)
    case TPtr(e) => j != JStr(NullptrText) && prior.VPtr? && ThrowsOn(nullOk, e, j, prior.to)
    case TVec(e) => AnyThrows(nullOk, e, Items(j))
    case TSet(e) => AnyThrows(nullOk, e, Items(j))
    case TStrMap(e) => MembersThrow(nullOk, e, Members(j))
    case TIntMap(kind, e) => SomeThrows(nullOk, kind, e, Members(j))
    case TStruct(fs) => FieldsThrow(nullOk, fs, j, prior.vals)
    case _ => false
  }

  ghost predicate FreshThrows(nullOk: bool, ty: Ty, j: Json)
    decreases ty, 1
  {
    WellTyped(ty, Default(ty)) && ThrowsOn(nullOk, ty, j, Default(ty))
  }

  ghost predicate KeyedThrows(nullOk: bool, kind: IntKind, e: Ty, m: Member)
    decreases e, 2
  {
    ParseKey(kind, m.name).None? || FreshThrows(nullOk, e, m.value)
  }

  ghost predicate AnyThrows(nullOk: bool, e: Ty, items: seq<Json>)
    decreases e, 2
  {
    exists x | x in items :: FreshThrows(nullOk, e, x)
  }

  ghost predicate MembersThrow(nullOk: bool, e: Ty, ms: seq<Member>)
    decreases e, 2
  {
    exists x | x in ms :: FreshThrows(nullOk, e, x.value)
  }

  ghost predicate SomeThrows(nullOk: bool, kind: IntKind, e: Ty, ms: seq<Member>)
    decreases e, 3, |ms|
  {
    ms != [] && (KeyedThrows(nullOk, kind, e, ms[0]) || SomeThrows(nullOk, kind, e, ms[1..]))
  }

  ghost predicate FieldsThrow(nullOk: bool, fs: Fields, j: Json, priors: seq<Val>)
    requires FieldsTyped(fs, priors)
    decreases fs
  {
    fs.Field? &&
    (|| !(j.JObj? || j.JNull?)
     || ThrowsOn(nullOk, fs.ty, FieldOf(j, fs.name), priors[0])
     || FieldsThrow(nullOk, fs.rest, j, priors[1..]))
  }

  // ---- The value ----

  /** What the object holds afterwards; what cannot be read keeps what was there. */
  function Spelled(nullOk: bool, ty: Ty, j: Json, prior: Val): Val
    decreases ty, 0
  {
    match ty
    case TInt(_) => if j.JInt? then VInt(j.i) else prior
    case TEnum => if j.JInt? then VInt(j.i) else prior
    case TBool => if j.JBool? then VBool(j.b) else prior
    case TString => if j.JStr? then VStr(j.s) else prior
    case TOther => prior
    case TPtr(e) =>
      if j == JStr(NullptrText) then VNull
      else if prior.VPtr? then VPtr(Spelled(nullOk, e, j, prior.to)) else prior
    case TVec(e) =>
      if j.JArr? || (nullOk && j.JNull?) then VVec(SpelledItems(nullOk, e, Items(j))) else prior
    case TSet(e) =>
      if j.JArr? || (nullOk && j.JNull?) then VSet(set x | x in Items(j) :: FreshSpelled(nullOk, e, x)) else prior
    case TStrMap(e) =>
      if j.JObj? || (nullOk && j.JNull?) then VStrMap(StrEntries(nullOk, e, Members(j), map[])) else prior
    case TIntMap(kind, e) =>
      if j.JObj? || (nullOk && j.JNull?) then VIntMap(IntEntries(nullOk, kind, e, Members(j), map[])) else prior
    case TStruct(fs) => VStruct(SpelledFields(nullOk, fs, j, if prior.VStruct? then prior.vals else []))
  }

  function FreshSpelled(nullOk: bool, ty: Ty, j: Json): Val
    decreases ty, 1
  {
    Spelled(nullOk, ty, j, Default(ty))
  }

  function SpelledItems(nullOk: bool, e: Ty, items: seq<Json>): (vs: seq<Val>)
    ensures |vs| == |items| && forall i | 0 <= i < |items| :: vs[i] == FreshSpelled(nullOk, e, items[i])
    decreases e, 2, |items|
  {
    if items == [] then [] else [FreshSpelled(nullOk, e, items[0])] + SpelledItems(nullOk, e, items[1..])
  }

  /** Members with one name, or keys that parse alike, are read into one entry in turn. */
  function StrEntries(nullOk: bool, e: Ty, ms: seq<Member>, m: map<string, Val>): map<string, Val>
    decreases e, 2, |ms|
  {
    if ms == [] then m
    else
      var k := ms[0].name;
      var v := Spelled(nullOk, e, ms[0].value, if k in m then m[k] else Default(e));
      StrEntries(nullOk, e, ms[1..], m[k := v])
  }

  function IntEntries(nullOk: bool, kind: IntKind, e: Ty, ms: seq<Member>, m: map<int, Val>): map<int, Val>
    decreases e, 2, |ms|
  {
    if ms == [] || ParseKey(kind, ms[0].name).None? then m
    else
      var k := ParseKey(kind, ms[0].name).value;
      var v := Spelled(nullOk, e, ms[0].value, if k in m then m[k] else Default(e));
      IntEntries(nullOk, kind, e, ms[1..], m[k := v])
  }

  function SpelledFields(nullOk: bool, fs: Fields, j: Json, priors: seq<Val>): seq<Val>
    decreases fs
  {
    if fs.NoFields? then []
    else
      var prior := if priors == [] then Default(fs.ty) else priors[0];
      [Spelled(nullOk, fs.ty, FieldOf(j, fs.name), prior)]
      + SpelledFields(nullOk, fs.rest, j, if priors == [] then [] else priors[1..])
  }

  // ---- Objects without pointers to follow ----

  /** Every pointer an in-place read would follow is null, as in a fresh object. */
  ghost predicate Bare(ty: Ty, v: Val)
    decreases ty
  {
    match ty
    case TPtr(_) => v.VNull?
    case TStruct(fs) => v.VStruct? && FieldsBare(fs, v.vals)
    case _ => true
  }

  ghost predicate FieldsBare(fs: Fields, vals: seq<Val>)
    decreases fs
  {
    fs.Field? ==> vals != [] && Bare(fs.ty, vals[0]) && FieldsBare(fs.rest, vals[1..])
  }

  lemma {:induction false} FreshIsBare(ty: Ty)
    ensures Bare(ty, Default(ty))
    decreases ty
  {
    if ty.TStruct? {
      FreshFieldsBare(ty.fields);
    }
  }

  lemma {:induction false} FreshFieldsBare(fs: Fields)
    ensures FieldsBare(fs, FieldDefaults(fs))
    decreases fs
  {
    if fs.Field? {
      FreshIsBare(fs.ty);
      FreshFieldsBare(fs.rest);
      assert FieldDefaults(fs)[1..] == FieldDefaults(fs.rest);
    }
  }

  lemma {:induction false} SpelledIsBare(nullOk: bool, ty: Ty, j: Json, prior: Val)
    requires Bare(ty, prior)
    ensures Bare(ty, Spelled(nullOk, ty, j, prior))
    decreases ty
  {
    hide SpelledItems, StrEntries, IntEntries;
    if ty.TStruct? {
      SpelledFieldsBare(nullOk, ty.fields, j, prior.vals);
    }
  }

  lemma {:induction false} SpelledFieldsBare(nullOk: bool, fs: Fields, j: Json, priors: seq<Val>)
    requires FieldsBare(fs, priors)
    ensures FieldsBare(fs, SpelledFields(nullOk, fs, j, priors))
    decreases fs
  {
    if fs.Field? {
      SpelledIsBare(nullOk, fs.ty, FieldOf(j, fs.name), priors[0]);
      SpelledFieldsBare(nullOk, fs.rest, j, priors[1..]);
      assert SpelledFields(nullOk, fs, j, priors)[1..] == SpelledFields(nullOk, fs.rest, j, priors[1..]);
    }
  }

  /** Shape and exceptions do not depend on what a bare object held. */
  lemma {:induction false} BareAlike(nullOk: bool, ty: Ty, j: Json, p: Val, q: Val)
    requires WellTyped(ty, p) && WellTyped(ty, q) && Bare(ty, p) && Bare(ty, q)
    ensures Shaped(nullOk, ty, j, p) == Shaped(nullOk, ty, j, q)
    ensures ThrowsOn(nullOk, ty, j, p) == ThrowsOn(nullOk, ty, j, q)
    decreases ty
  {
    hide Shaped, ThrowsOn;
    if ty.TStruct? {
      StructShape(nullOk, ty.fields, j, p);
      StructShape(nullOk, ty.fields, j, q);
      BareFieldsAlike(nullOk, ty.fields, j, p.vals, q.vals);
    } else if !ty.TPtr? {
      PriorUnused(nullOk, ty, j, p, q);
    }
  }

  lemma StructShape(nullOk: bool, fs: Fields, j: Json, v: Val)
    requires WellTyped(TStruct(fs), v)
    ensures Shaped(nullOk, TStruct(fs), j, v) == FieldsShaped(nullOk, fs, j, v.vals)
    ensures ThrowsOn(nullOk, TStruct(fs), j, v) == FieldsThrow(nullOk, fs, j, v.vals)
  {
  }

  lemma PriorUnused(nullOk: bool, ty: Ty, j: Json, p: Val, q: Val)
    requires WellTyped(ty, p) && WellTyped(ty, q) && !ty.TStruct? && !ty.TPtr?
    ensures Shaped(nullOk, ty, j, p) == Shaped(nullOk, ty, j, q)
    ensures ThrowsOn(nullOk, ty, j, p) == ThrowsOn(nullOk, ty, j, q)
  {
    hide EachShaped, AnyThrows, MembersShaped, MembersThrow, AllShaped, SomeThrows, Items, Members;
  }

  lemma {:induction false} BareFieldsAlike(nullOk: bool, fs: Fields, j: Json, ps: seq<Val>, qs: seq<Val>)
    requires FieldsTyped(fs, ps) && FieldsTyped(fs, qs) && FieldsBare(fs, ps) && FieldsBare(fs, qs)
    ensures FieldsShaped(nullOk, fs, j, ps) == FieldsShaped(nullOk, fs, j, qs)
    ensures FieldsThrow(nullOk, fs, j, ps) == FieldsThrow(nullOk, fs, j, qs)
    decreases fs
  {
    if fs.Field? {
      BareAlike(nullOk, fs.ty, FieldOf(j, fs.name), ps[0], qs[0]);
      BareFieldsAlike(nullOk, fs.rest, j, ps[1..], qs[1..]);
    }
  }

  // ---- Unmarshal ----

  /** Throws exactly on throws; otherwise returns shaped and leaves v. */
  ghost predicate ReadAs(r: Outcome, throws: bool, shaped: bool, v: Val) {
    (r.Throws? <==> throws) && (r.Parsed? ==> (r.ret <==> shaped) && r.v == v)
  }

  /** For every type, tree and object: when Unmarshal throws, what it returns and what it leaves. */
  lemma {:induction false} ReadsAnyTree(nullOk: bool, ty: Ty, j: Json, prior: Val)
    requires Declarable(ty) && WellTyped(ty, prior)
    ensures ReadAs(Decode(nullOk, ty, j, prior), ThrowsOn(nullOk, ty, j, prior), Shaped(nullOk, ty, j, prior),
                   Spelled(nullOk, ty, j, prior))
    decreases ty, 0
  {
    hide Decode, ThrowsOn, Shaped, Spelled, WellTyped, Declarable;
    match ty
    case TPtr(e) => ReadsPointer(nullOk, e, j, prior);
    case TVec(e) => ReadsVector(nullOk, e, j, prior);
    case TSet(e) => ReadsSet(nullOk, e, j, prior);
    case TStrMap(e) => ReadsStrMap(nullOk, e, j, prior);
    case TIntMap(kind, e) => ReadsIntMap(nullOk, kind, e, j, prior);
    case TStruct(fs) => ReadsStruct(nullOk, fs, j, prior);
    case _ => ReadsScalar(nullOk, ty, j, prior);
  }

  lemma ReadsScalar(nullOk: bool, ty: Ty, j: Json, prior: Val)
    requires WellTyped(ty, prior) && (ty.TInt? || ty.TEnum? || ty.TBool? || ty.TString? || ty.TOther?)
    ensures ReadAs(Decode(nullOk, ty, j, prior), ThrowsOn(nullOk, ty, j, prior), Shaped(nullOk, ty, j, prior),
                   Spelled(nullOk, ty, j, prior))
    ensures Decode(nullOk, ty, j, prior).Parsed? && !Decode(nullOk, ty, j, prior).ret ==>
      Decode(nullOk, ty, j, prior).v == prior
  {
  }

  lemma {:induction false} ReadsPointer(nullOk: bool, e: Ty, j: Json, prior: Val)
    requires Declarable(TPtr(e)) && WellTyped(TPtr(e), prior)
    ensures ReadAs(Decode(nullOk, TPtr(e), j, prior), ThrowsOn(nullOk, TPtr(e), j, prior),
                   Shaped(nullOk, TPtr(e), j, prior), Spelled(nullOk, TPtr(e), j, prior))
    decreases e, 1
  {
    hide DecodeItems, DecodeStrMembers, DecodeIntMembers, DecodeFields;
    if prior.VPtr? {
      ReadsAnyTree(nullOk, e, j, prior.to);
    }
  }

  lemma {:induction false} ReadsFresh(nullOk: bool, e: Ty, j: Json)
    requires Declarable(e)
    ensures ReadAs(Decode(nullOk, e, j, Default(e)), FreshThrows(nullOk, e, j), FreshShaped(nullOk, e, j),
                   FreshSpelled(nullOk, e, j))
    decreases e, 1
  {
    hide Decode, ThrowsOn, Shaped, Spelled, WellTyped, Declarable, Default, ReadAs;
    FreshTyped(e);
    ReadsAnyTree(nullOk, e, j, Default(e));
  }

  lemma FirstItemAndRest(nullOk: bool, e: Ty, items: seq<Json>)
    ensures items == [] ==> !AnyThrows(nullOk, e, items) && EachShaped(nullOk, e, items)
    ensures items != [] ==>
      && (AnyThrows(nullOk, e, items) <==> FreshThrows(nullOk, e, items[0]) || AnyThrows(nullOk, e, items[1..]))
      && (EachShaped(nullOk, e, items) <==> FreshShaped(nullOk, e, items[0]) && EachShaped(nullOk, e, items[1..]))
  {
    hide FreshThrows, FreshShaped;
    if items != [] {
      assert forall x :: x in items <==> x == items[0] || x in items[1..];
    }
  }

  lemma {:induction false} ReadsItems(nullOk: bool, e: Ty, items: seq<Json>)
    requires Declarable(e)
    ensures var r := DecodeItems(nullOk, e, items);
      && (r.ThrowsAny? <==> AnyThrows(nullOk, e, items))
      && (r.ParsedAll? ==> (r.ret <==> EachShaped(nullOk, e, items)) && r.vs == SpelledItems(nullOk, e, items))
    decreases e, 2, |items|
  {
    hide Decode, FreshThrows, FreshShaped, FreshSpelled, Declarable, Default, AnyThrows, EachShaped;
    FirstItemAndRest(nullOk, e, items);
    if items != [] {
      ReadsFresh(nullOk, e, items[0]);
      ReadsItems(nullOk, e, items[1..]);
    }
  }

  lemma {:induction false} ReadsVector(nullOk: bool, e: Ty, j: Json, prior: Val)
    requires Declarable(TVec(e)) && WellTyped(TVec(e), prior)
    ensures ReadAs(Decode(nullOk, TVec(e), j, prior), ThrowsOn(nullOk, TVec(e), j, prior),
                   Shaped(nullOk, TVec(e), j, prior), Spelled(nullOk, TVec(e), j, prior))
    decreases e, 3
  {
    hide DecodeItems, SpelledItems, AnyThrows, EachShaped;
    FirstItemAndRest(nullOk, e, Items(j));
    ReadsItems(nullOk, e, Items(j));
  }

  lemma {:induction false} ReadsSet(nullOk: bool, e: Ty, j: Json, prior: Val)
    requires Declarable(TSet(e)) && WellTyped(TSet(e), prior)
    ensures ReadAs(Decode(nullOk, TSet(e), j, prior), ThrowsOn(nullOk, TSet(e), j, prior),
                   Shaped(nullOk, TSet(e), j, prior), Spelled(nullOk, TSet(e), j, prior))
    decreases e, 3
  {
    hide DecodeItems, SpelledItems, AnyThrows, EachShaped, FreshSpelled;
    FirstItemAndRest(nullOk, e, Items(j));
    ReadsItems(nullOk, e, Items(j));
    SpelledAsSet(nullOk, e, Items(j));
  }

  lemma SpelledAsSet(nullOk: bool, e: Ty, items: seq<Json>)
    ensures (set x | x in SpelledItems(nullOk, e, items)) == set x | x in items :: FreshSpelled(nullOk, e, x)
  {
    hide SpelledItems, FreshSpelled;
    var a, b := set x | x in SpelledItems(nullOk, e, items), set x | x in items :: FreshSpelled(nullOk, e, x);
    forall v ensures v in a <==> v in b {
      if v in a {
        var i :| 0 <= i < |items| && SpelledItems(nullOk, e, items)[i] == v;
        assert items[i] in items;
      }
      if v in b {
        var x :| x in items && FreshSpelled(nullOk, e, x) == v;
        var i :| 0 <= i < |items| && items[i] == x;
        assert SpelledItems(nullOk, e, items)[i] == v;
      }
    }
  }

  // ---- Maps ----

  ghost predicate EntryBare(e: Ty, v: Val) {
    WellTyped(e, v) && Bare(e, v)
  }

  /** Reading one more member into its entry. */
  lemma {:induction false} ReadsEntry(nullOk: bool, e: Ty, j: Json, into: Val)
    requires Declarable(e) && EntryBare(e, into)
    ensures var r := Decode(nullOk, e, j, into);
      && ReadAs(r, FreshThrows(nullOk, e, j), FreshShaped(nullOk, e, j), Spelled(nullOk, e, j, into))
      && (r.Parsed? ==> EntryBare(e, r.v))
    decreases e, 1
  {
    hide Decode, ThrowsOn, Shaped, Spelled, WellTyped, Declarable, Default, Bare;
    FreshTyped(e);
    FreshIsBare(e);
    ReadsAnyTree(nullOk, e, j, into);
    BareAlike(nullOk, e, j, into, Default(e));
    DecodeKeepsType(nullOk, e, j, into);
    SpelledIsBare(nullOk, e, j, into);
  }

  lemma EntryFresh(e: Ty)
    requires Declarable(e)
    ensures EntryBare(e, Default(e))
  {
    FreshTyped(e);
    FreshIsBare(e);
  }

  lemma FirstMemberAndRest(nullOk: bool, e: Ty, ms: seq<Member>)
    ensures ms == [] ==> !MembersThrow(nullOk, e, ms) && MembersShaped(nullOk, e, ms)
    ensures ms != [] ==>
      && (MembersThrow(nullOk, e, ms) <==> FreshThrows(nullOk, e, ms[0].value) || MembersThrow(nullOk, e, ms[1..]))
      && (MembersShaped(nullOk, e, ms) <==> FreshShaped(nullOk, e, ms[0].value) && MembersShaped(nullOk, e, ms[1..]))
  {
    hide FreshThrows, FreshShaped;
    if ms != [] {
      assert forall x :: x in ms <==> x == ms[0] || x in ms[1..];
    }
  }

  lemma {:induction false} ReadsStrMembers(nullOk: bool, e: Ty, ms: seq<Member>, ret: bool, m: map<string, Val>)
    requires Declarable(e) && forall k | k in m :: EntryBare(e, m[k])
    ensures ReadAs(DecodeStrMembers(nullOk, e, ms, ret, m), MembersThrow(nullOk, e, ms),
                   ret && MembersShaped(nullOk, e, ms), VStrMap(StrEntries(nullOk, e, ms, m)))
    decreases e, 2, |ms|
  {
    hide Decode, FreshThrows, FreshShaped, Spelled, Declarable, Default, EntryBare, MembersThrow, MembersShaped;
    FirstMemberAndRest(nullOk, e, ms);
    if ms != [] {
      var k := ms[0].name;
      EntryFresh(e);
      var into := if k in m then m[k] else Default(e);
      ReadsEntry(nullOk, e, ms[0].value, into);
      var one := Decode(nullOk, e, ms[0].value, into);
      if one.Parsed? {
        ReadsStrMembers(nullOk, e, ms[1..], ret && one.ret, m[k := one.v]);
      }
    }
  }

  ghost predicate EntriesBare(e: Ty, m: map<int, Val>) {
    forall k | k in m :: EntryBare(e, m[k])
  }

  /** The entry a member with key k is read into. */
  function Entry(e: Ty, m: map<int, Val>, k: int): Val {
    if k in m then m[k] else Default(e)
  }

  lemma {:induction false} ReadsIntEntry(nullOk: bool, e: Ty, j: Json, m: map<int, Val>, k: int)
    requires Declarable(e) && EntriesBare(e, m)
    ensures var r := Decode(nullOk, e, j, Entry(e, m, k));
      && ReadAs(r, FreshThrows(nullOk, e, j), FreshShaped(nullOk, e, j), Spelled(nullOk, e, j, Entry(e, m, k)))
      && (r.Parsed? ==> EntriesBare(e, m[k := r.v]))
    decreases e, 2
  {
    hide Decode, FreshThrows, FreshShaped, Spelled, Declarable, Default, EntryBare, ReadAs;
    EntryFresh(e);
    ReadsEntry(nullOk, e, j, Entry(e, m, k));
  }

  lemma OneIntMember(nullOk: bool, kind: IntKind, e: Ty, ms: seq<Member>, ret: bool, m: map<int, Val>, k: int)
    requires ms != [] && ParseKey(kind, ms[0].name) == Some(k)
    requires Decode(nullOk, e, ms[0].value, Entry(e, m, k)).Parsed?
    ensures var one := Decode(nullOk, e, ms[0].value, Entry(e, m, k));
      DecodeIntMembers(nullOk, kind, e, ms, ret, m)
      == DecodeIntMembers(nullOk, kind, e, ms[1..], ret && one.ret, m[k := one.v])
  {
    hide Decode, Default, ParseKey;
  }

  lemma IntMemberThrows(nullOk: bool, kind: IntKind, e: Ty, ms: seq<Member>, ret: bool, m: map<int, Val>)
    requires ms != []
    requires ParseKey(kind, ms[0].name).None? ||
      Decode(nullOk, e, ms[0].value, Entry(e, m, ParseKey(kind, ms[0].name).value)).Throws?
    ensures DecodeIntMembers(nullOk, kind, e, ms, ret, m) == Throws
  {
    hide Decode, Default, ParseKey;
  }

  lemma OneIntEntry(nullOk: bool, kind: IntKind, e: Ty, ms: seq<Member>, m: map<int, Val>, k: int)
    requires ms != [] && ParseKey(kind, ms[0].name) == Some(k)
    ensures IntEntries(nullOk, kind, e, ms, m)
         == IntEntries(nullOk, kind, e, ms[1..], m[k := Spelled(nullOk, e, ms[0].value, Entry(e, m, k))])
  {
    hide Default, Spelled, ParseKey;
  }

  lemma NoIntMembers(nullOk: bool, kind: IntKind, e: Ty, ret: bool, m: map<int, Val>)
    ensures DecodeIntMembers(nullOk, kind, e, [], ret, m) == Parsed(ret, VIntMap(m))
    ensures IntEntries(nullOk, kind, e, [], m) == m
  {
  }

  lemma {:induction false} ReadsIntMembers(
    nullOk: bool, kind: IntKind, e: Ty, ms: seq<Member>, ret: bool, m: map<int, Val>)
    requires Declarable(e) && EntriesBare(e, m)
    ensures ReadAs(DecodeIntMembers(nullOk, kind, e, ms, ret, m), SomeThrows(nullOk, kind, e, ms),
                   ret && AllShaped(nullOk, kind, e, ms), VIntMap(IntEntries(nullOk, kind, e, ms, m)))
    decreases e, 3, |ms|, 1
  {
    hide Declarable, ParseKey, DecodeIntMembers, IntEntries, EntriesBare, Entry, KeyedShaped;
    if ms == [] {
      NoIntMembers(nullOk, kind, e, ret, m);
    } else if ParseKey(kind, ms[0].name).None? {
      IntMemberThrows(nullOk, kind, e, ms, ret, m);
    } else {
      ReadsMoreInts(nullOk, kind, e, ms, ret, m, ParseKey(kind, ms[0].name).value);
    }
  }

  lemma {:induction false} ReadsMoreInts(
    nullOk: bool, kind: IntKind, e: Ty, ms: seq<Member>, ret: bool, m: map<int, Val>, k: int)
    requires Declarable(e) && EntriesBare(e, m) && ms != [] && ParseKey(kind, ms[0].name) == Some(k)
    ensures ReadAs(DecodeIntMembers(nullOk, kind, e, ms, ret, m), SomeThrows(nullOk, kind, e, ms),
                   ret && AllShaped(nullOk, kind, e, ms), VIntMap(IntEntries(nullOk, kind, e, ms, m)))
    decreases e, 3, |ms|, 0
  {
    hide *;
    var j, into := ms[0].value, Entry(e, m, k);
    ReadsIntEntry(nullOk, e, j, m, k);
    KeyedFirst(nullOk, kind, e, ms, k);
    var one := Decode(nullOk, e, j, into);
    if one.Throws? {
      IntMemberThrows(nullOk, kind, e, ms, ret, m);
      BothThrow(one, FreshThrows(nullOk, e, j), FreshShaped(nullOk, e, j), Spelled(nullOk, e, j, into),
                SomeThrows(nullOk, kind, e, ms[1..]), ret && AllShaped(nullOk, kind, e, ms),
                VIntMap(IntEntries(nullOk, kind, e, ms, m)));
    } else {
      OneIntMember(nullOk, kind, e, ms, ret, m, k);
      OneIntEntry(nullOk, kind, e, ms, m, k);
      ReadsIntMembers(nullOk, kind, e, ms[1..], ret && one.ret, m[k := one.v]);
      ReadAsNext(one, FreshThrows(nullOk, e, j), FreshShaped(nullOk, e, j), Spelled(nullOk, e, j, into),
                 DecodeIntMembers(nullOk, kind, e, ms, ret, m), SomeThrows(nullOk, kind, e, ms[1..]), ret,
                 AllShaped(nullOk, kind, e, ms[1..]), VIntMap(IntEntries(nullOk, kind, e, ms[1..], m[k := one.v])));
    }
  }

  lemma KeyedFirst(nullOk: bool, kind: IntKind, e: Ty, ms: seq<Member>, k: int)
    requires ms != [] && ParseKey(kind, ms[0].name) == Some(k)
    ensures SomeThrows(nullOk, kind, e, ms) <==>
      FreshThrows(nullOk, e, ms[0].value) || SomeThrows(nullOk, kind, e, ms[1..])
    ensures AllShaped(nullOk, kind, e, ms) <==>
      FreshShaped(nullOk, e, ms[0].value) && AllShaped(nullOk, kind, e, ms[1..])
  {
    hide FreshThrows, FreshShaped, ParseKey;
  }

  lemma BothThrow(one: Outcome, throws: bool, shaped: bool, v: Val, more: bool, all: bool, w: Val)
    requires ReadAs(one, throws, shaped, v) && one.Throws?
    ensures ReadAs(Throws, throws || more, all, w)
  {
  }

  /** One member read, and then the rest of them. */
  lemma ReadAsNext(
    one: Outcome, throws: bool, shaped: bool, v: Val, r: Outcome, more: bool, ret: bool, rest: bool, w: Val)
    requires ReadAs(one, throws, shaped, v) && one.Parsed? && ReadAs(r, more, (ret && one.ret) && rest, w)
    ensures one.v == v && ReadAs(r, throws || more, ret && (shaped && rest), w)
  {
  }

  lemma {:induction false} ReadsStrMap(nullOk: bool, e: Ty, j: Json, prior: Val)
    requires Declarable(TStrMap(e)) && WellTyped(TStrMap(e), prior)
    ensures ReadAs(Decode(nullOk, TStrMap(e), j, prior), ThrowsOn(nullOk, TStrMap(e), j, prior),
                   Shaped(nullOk, TStrMap(e), j, prior), Spelled(nullOk, TStrMap(e), j, prior))
    decreases e, 3
  {
    hide DecodeStrMembers, StrEntries, MembersThrow, MembersShaped;
    FirstMemberAndRest(nullOk, e, Members(j));
    ReadsStrMembers(nullOk, e, Members(j), true, map[]);
  }

  lemma NoEntries(e: Ty)
    ensures EntriesBare(e, map[])
  {
  }

  lemma {:induction false} ReadsIntMap(nullOk: bool, kind: IntKind, e: Ty, j: Json, prior: Val)
    requires Declarable(TIntMap(kind, e)) && WellTyped(TIntMap(kind, e), prior)
    ensures ReadAs(Decode(nullOk, TIntMap(kind, e), j, prior), ThrowsOn(nullOk, TIntMap(kind, e), j, prior),
                   Shaped(nullOk, TIntMap(kind, e), j, prior), Spelled(nullOk, TIntMap(kind, e), j, prior))
    decreases e, 4
  {
    hide DecodeIntMembers, IntEntries, KeyedThrows, KeyedShaped;
    NoEntries(e);
    ReadsIntMembers(nullOk, kind, e, Members(j), true, map[]);
  }

  /** Where names differ, every member has its own entry, read into a fresh object. */
  lemma {:induction false} DistinctNamesOwnEntries(nullOk: bool, e: Ty, ms: seq<Member>, m: map<string, Val>)
    requires DistinctNames(ms) && forall x | x in ms :: x.name !in m
    ensures var r := StrEntries(nullOk, e, ms, m);
      && (forall k :: k in r <==> k in m || Named(ms, k))
      && (forall k | k in m :: k in r && r[k] == m[k])
      && (forall x | x in ms :: x.name in r && r[x.name] == FreshSpelled(nullOk, e, x.value))
    decreases |ms|
  {
    hide Spelled, Default;
    if ms != [] {
      var k, v := ms[0].name, FreshSpelled(nullOk, e, ms[0].value);
      assert ms[0] in ms;
      forall i, j | 0 <= i < j < |ms[1..]| ensures ms[1..][i].name != ms[1..][j].name {
        assert ms[i + 1].name != ms[j + 1].name;
      }
      forall x | x in ms[1..] ensures x in ms && x.name != k {
        var i :| 0 <= i < |ms[1..]| && ms[1..][i] == x;
        assert ms[0].name != ms[i + 1].name;
      }
      DistinctNamesOwnEntries(nullOk, e, ms[1..], m[k := v]);
      assert forall x :: x in ms <==> x == ms[0] || x in ms[1..];
    }
  }

  // ---- Structs ----

  lemma {:induction false} ReadsFields(nullOk: bool, fs: Fields, j: Json, priors: seq<Val>)
    requires FieldsDeclarable(fs) && FieldsTyped(fs, priors)
    ensures var r := DecodeFields(nullOk, fs, j, priors);
      && (r.ThrowsAny? <==> FieldsThrow(nullOk, fs, j, priors))
      && (r.ParsedAll? ==>
            (r.ret <==> FieldsShaped(nullOk, fs, j, priors)) && r.vs == SpelledFields(nullOk, fs, j, priors))
    decreases fs, 0
  {
    hide Decode, ThrowsOn, Shaped, Spelled, Declarable, WellTyped;
    if fs.Field? {
      ReadsAnyTree(nullOk, fs.ty, FieldOf(j, fs.name), priors[0]);
      ReadsFields(nullOk, fs.rest, j, priors[1..]);
    }
  }

  lemma {:induction false} ReadsStruct(nullOk: bool, fs: Fields, j: Json, prior: Val)
    requires Declarable(TStruct(fs)) && WellTyped(TStruct(fs), prior)
    ensures ReadAs(Decode(nullOk, TStruct(fs), j, prior), ThrowsOn(nullOk, TStruct(fs), j, prior),
                   Shaped(nullOk, TStruct(fs), j, prior), Spelled(nullOk, TStruct(fs), j, prior))
    decreases fs, 1
  {
    hide DecodeFields, FieldsThrow, FieldsShaped, SpelledFields;
    ReadsFields(nullOk, fs, j, prior.vals);
  }

  // ---- When it returns true ----

  lemma {:induction false} ShapedNeverThrows(nullOk: bool, ty: Ty, j: Json, prior: Val)
    requires WellTyped(ty, prior) && Shaped(nullOk, ty, j, prior)
    ensures !ThrowsOn(nullOk, ty, j, prior)
    decreases ty, 0
  {
    hide ParseKey, Default, FreshThrows, FreshShaped;
    match ty
    case TPtr(e) =>
      if prior.VPtr? && j != JStr(NullptrText) {
        ShapedNeverThrows(nullOk, e, j, prior.to);
      }
    case TVec(e) => ItemsNeverThrow(nullOk, e, Items(j));
    case TSet(e) => ItemsNeverThrow(nullOk, e, Items(j));
    case TStrMap(e) =>
      forall m | m in Members(j) ensures !FreshThrows(nullOk, e, m.value) {
        FreshNeverThrows(nullOk, e, m.value);
      }
    case TIntMap(kind, e) => KeyedNeverThrow(nullOk, kind, e, Members(j));
    case TStruct(fs) => FieldsNeverThrow(nullOk, fs, j, prior.vals);
    case _ =>
  }

  lemma {:induction false} ItemsNeverThrow(nullOk: bool, e: Ty, items: seq<Json>)
    requires EachShaped(nullOk, e, items)
    ensures !AnyThrows(nullOk, e, items)
    decreases e, 2
  {
    hide FreshThrows, FreshShaped;
    forall x | x in items ensures !FreshThrows(nullOk, e, x) {
      FreshNeverThrows(nullOk, e, x);
    }
  }

  lemma {:induction false} KeyedNeverThrow(nullOk: bool, kind: IntKind, e: Ty, ms: seq<Member>)
    requires AllShaped(nullOk, kind, e, ms)
    ensures !SomeThrows(nullOk, kind, e, ms)
    decreases e, 2, |ms|
  {
    hide FreshThrows, FreshShaped, ParseKey;
    if ms != [] {
      FreshNeverThrows(nullOk, e, ms[0].value);
      KeyedNeverThrow(nullOk, kind, e, ms[1..]);
    }
  }

  lemma {:induction false} FreshNeverThrows(nullOk: bool, e: Ty, j: Json)
    requires FreshShaped(nullOk, e, j)
    ensures !FreshThrows(nullOk, e, j)
    decreases e, 1
  {
    ShapedNeverThrows(nullOk, e, j, Default(e));
  }

  lemma {:induction false} FieldsNeverThrow(nullOk: bool, fs: Fields, j: Json, priors: seq<Val>)
    requires FieldsTyped(fs, priors) && FieldsShaped(nullOk, fs, j, priors)
    ensures !FieldsThrow(nullOk, fs, j, priors)
    decreases fs
  {
    if fs.Field? {
      ShapedNeverThrows(nullOk, fs.ty, FieldOf(j, fs.name), priors[0]);
      FieldsNeverThrow(nullOk, fs.rest, j, priors[1..]);
    }
  }

  /** Unmarshal returns true exactly on trees of the type's shape, with the value they spell. */
  lemma TrueIffShaped(nullOk: bool, ty: Ty, j: Json, prior: Val, v: Val)
    requires Declarable(ty) && WellTyped(ty, prior)
    ensures Decode(nullOk, ty, j, prior) == Parsed(true, v) <==>
      Shaped(nullOk, ty, j, prior) && v == Spelled(nullOk, ty, j, prior)
  {
    hide Decode, ThrowsOn, Shaped, Spelled, WellTyped, Declarable;
    ReadsAnyTree(nullOk, ty, j, prior);
    if Shaped(nullOk, ty, j, prior) {
      ShapedNeverThrows(nullOk, ty, j, prior);
    }
  }

  /** Items of a wrong kind fail, and leave zeros of their own. */
  lemma WrongItemsAreZero(nullOk: bool, kind: IntKind, items: seq<Json>, prior: Val)
    requires WellTyped(TVec(TInt(kind)), prior) && items != [] && forall x | x in items :: !x.JInt?
    ensures Decode(nullOk, TVec(TInt(kind)), JArr(items), prior) == Parsed(false, VVec(seq(|items|, _ => VInt(0))))
  {
    hide DecodeItems, FreshThrows, FreshShaped, FreshSpelled;
    var e, zeros := TInt(kind), seq(|items|, _ => VInt(0));
    ReadsItems(nullOk, e, items);
    forall x | x in items
      ensures !FreshThrows(nullOk, e, x) && !FreshShaped(nullOk, e, x) && FreshSpelled(nullOk, e, x) == VInt(0)
    {
      WrongNumber(nullOk, kind, x);
    }
    assert items[0] in items;
    assert SpelledItems(nullOk, e, items) == zeros;
  }

  lemma WrongNumber(nullOk: bool, kind: IntKind, j: Json)
    requires !j.JInt?
    ensures var e := TInt(kind);
      !FreshThrows(nullOk, e, j) && !FreshShaped(nullOk, e, j) && FreshSpelled(nullOk, e, j) == VInt(0)
  {
  }

  /** A struct with a number that the tree does not name is left as it was, and the read fails. */
  lemma MissingFieldFails(nullOk: bool, name: string, kind: IntKind, i: int)
    requires kind.Fits(i)
    ensures Decode(nullOk, TStruct(Field(name, TInt(kind), NoFields)), JObj([]), VStruct([VInt(i)]))
         == Parsed(false, VStruct([VInt(i)]))
  {
    var fs, priors, j := Field(name, TInt(kind), NoFields), [VInt(i)], JObj([]);
    assert Lookup([], name) == JNull && priors[1..] == [];
    assert Decode(nullOk, fs.ty, JNull, VInt(i)) == Parsed(false, VInt(i));
    assert DecodeFields(nullOk, fs.rest, j, priors[1..]) == ParsedAll(true, []);
    assert [VInt(i)] + [] == [VInt(i)];
    assert DecodeFields(nullOk, fs, j, priors) == ParsedAll(false, priors);
  }
}
