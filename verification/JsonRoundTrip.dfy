/**
 Unmarshal after Marshal: exactly when the original value comes back.
 */
module JsonRoundTrip {
  import opened Common
  import opened Decimal
  import opened Json

  /** The value marshals to the very text that stands for a null pointer. */
  predicate SaysNullptr(ty: Ty, v: Val)
    decreases ty
  {
    (ty.TString? && v == VStr(NullptrText)) ||
    (ty.TPtr? && (v.VNull? || (v.VPtr? && SaysNullptr(ty.elem, v.to))))
  }

  /**
   The condition for a round trip into an object holding prior: no empty container
   unless the library reads null as one, and a non-null pointer needs a non-null
   pointer to read into and a target that does not say "nullptr".
   */
  ghost predicate Restores(nullOk: bool, ty: Ty, v: Val, prior: Val)
    requires WellTyped(ty, v) && WellTyped(ty, prior)
    decreases ty, 0
  {
    match ty
    case TPtr(e) =>
      v.VNull? || (prior.VPtr? && !SaysNullptr(e, v.to) && Restores(nullOk, e, v.to, prior.to))
    case TVec(e) => (v.elems != [] || nullOk) && forall x | x in v.elems :: RestoresFresh(nullOk, e, x)
    case TSet(e) => (v.members != {} || nullOk) && forall x | x in v.members :: RestoresFresh(nullOk, e, x)
    case TStrMap(e) => (v.strs != map[] || nullOk) && forall k | k in v.strs :: RestoresFresh(nullOk, e, v.strs[k])
    case TIntMap(_, e) => (v.ints != map[] || nullOk) && forall k | k in v.ints :: RestoresFresh(nullOk, e, v.ints[k])
    case TStruct(fs) => FieldsRestore(nullOk, fs, v.vals, prior.vals)
    case _ => true
  }

  /** Elements of containers are read into fresh objects. */
  ghost predicate RestoresFresh(nullOk: bool, ty: Ty, v: Val)
    requires WellTyped(ty, v)
    decreases ty, 1
  {
    DefaultTyped(ty, v);
    Restores(nullOk, ty, v, Default(ty))
  }

  ghost predicate FieldsRestore(nullOk: bool, fs: Fields, vals: seq<Val>, priors: seq<Val>)
    requires FieldsTyped(fs, vals) && FieldsTyped(fs, priors)
    decreases fs
  {
    fs.Field? ==> Restores(nullOk, fs.ty, vals[0], priors[0]) && FieldsRestore(nullOk, fs.rest, vals[1..], priors[1..])
  }

  lemma {:induction false} DefaultTyped(ty: Ty, v: Val)
    requires WellTyped(ty, v)
    ensures WellTyped(ty, Default(ty))
    decreases ty
  {
    match ty
    case TStruct(fs) => FieldDefaultsTyped(fs, v.vals);
    case _ =>
  }

  lemma {:induction false} FieldDefaultsTyped(fs: Fields, vals: seq<Val>)
    requires FieldsTyped(fs, vals)
    ensures FieldsTyped(fs, FieldDefaults(fs))
    decreases fs
  {
    if fs.Field? {
      DefaultTyped(fs.ty, vals[0]);
      FieldDefaultsTyped(fs.rest, vals[1..]);
      assert FieldDefaults(fs)[1..] == FieldDefaults(fs.rest);
    }
  }

  lemma {:induction false} NullptrOnlyWhenSaid(ty: Ty, v: Val, j: Json)
    requires WellTyped(ty, v) && Encodes(ty, v, j)
    ensures j == JStr(NullptrText) <==> SaysNullptr(ty, v)
    decreases ty
  {
    if ty.TPtr? && v.VPtr? {
      NullptrOnlyWhenSaid(ty.elem, v.to, j);
    }
  }

  // ---- What the loops of Unmarshal compute when nothing throws ----

  /** The outcome of reading into a fresh object. */
  function Fresh(nullOk: bool, e: Ty, j: Json): Outcome {
    Decode(nullOk, e, j, Default(e))
  }

  lemma {:induction false} ItemsSpec(nullOk: bool, e: Ty, items: seq<Json>)
    requires forall i | 0 <= i < |items| :: Fresh(nullOk, e, items[i]).Parsed?
    ensures var r := DecodeItems(nullOk, e, items);
      && r.ParsedAll? && |r.vs| == |items|
      && (forall i | 0 <= i < |items| :: r.vs[i] == Fresh(nullOk, e, items[i]).v)
      && (r.ret <==> forall i | 0 <= i < |items| :: Fresh(nullOk, e, items[i]).ret)
    decreases |items|
  {
    if items != [] {
      assert Fresh(nullOk, e, items[0]).Parsed?;
      forall i | 0 <= i < |items[1..]| ensures Fresh(nullOk, e, items[1..][i]).Parsed? {
        assert items[1..][i] == items[i + 1];
      }
      ItemsSpec(nullOk, e, items[1..]);
      var r, t := DecodeItems(nullOk, e, items), DecodeItems(nullOk, e, items[1..]);
      assert r.vs == [Fresh(nullOk, e, items[0]).v] + t.vs;
      forall i | 0 <= i < |items| ensures r.vs[i] == Fresh(nullOk, e, items[i]).v {
        assert i > 0 ==> items[i] == items[1..][i - 1];
      }
      assert t.ret ==> forall i | 1 <= i < |items| :: Fresh(nullOk, e, items[i]).ret by {
        if t.ret {
          forall i | 1 <= i < |items| ensures Fresh(nullOk, e, items[i]).ret {
            assert items[i] == items[1..][i - 1];
          }
        }
      }
    }
  }

  lemma RestDistinctNames(ms: seq<Member>)
    requires ms != [] && DistinctNames(ms)
    ensures DistinctNames(ms[1..])
    ensures forall m | m in ms[1..] :: m in ms && m.name != ms[0].name
  {
    forall i, j | 0 <= i < j < |ms[1..]| ensures ms[1..][i].name != ms[1..][j].name {
      assert ms[i + 1].name != ms[j + 1].name;
    }
    forall m | m in ms[1..] ensures m.name != ms[0].name {
      var i :| 0 <= i < |ms[1..]| && ms[1..][i] == m;
      assert ms[0].name != ms[i + 1].name;
    }
  }

  lemma {:induction false} StrMembersSpec(nullOk: bool, e: Ty, ms: seq<Member>, ret: bool, m0: map<string, Val>)
    requires DistinctNames(ms)
    requires forall m | m in ms :: m.name !in m0 && Fresh(nullOk, e, m.value).Parsed?
    ensures var r := DecodeStrMembers(nullOk, e, ms, ret, m0);
      && r.Parsed? && r.v.VStrMap?
      && (forall k :: k in r.v.strs <==> k in m0 || Named(ms, k))
      && (forall k | k in m0 :: k in r.v.strs && r.v.strs[k] == m0[k])
      && (forall m | m in ms :: m.name in r.v.strs && r.v.strs[m.name] == Fresh(nullOk, e, m.value).v)
      && (r.ret <==> ret && forall m | m in ms :: Fresh(nullOk, e, m.value).ret)
    decreases |ms|
  {
    hide Decode, Default, DistinctNames;
    if ms != [] {
      var first := Fresh(nullOk, e, ms[0].value);
      assert ms[0] in ms;
      RestDistinctNames(ms);
      StrMembersSpec(nullOk, e, ms[1..], ret && first.ret, m0[ms[0].name := first.v]);
      assert forall m :: m in ms <==> m == ms[0] || m in ms[1..];
    }
  }

  ghost predicate KeyIs(kind: IntKind, m: Member, k: int) {
    ParseKey(kind, m.name) == Some(k)
  }

  ghost predicate DistinctKeys(kind: IntKind, ms: seq<Member>) {
    forall i, j | 0 <= i < j < |ms| :: ParseKey(kind, ms[i].name) != ParseKey(kind, ms[j].name)
  }

  ghost predicate Keyed(kind: IntKind, ms: seq<Member>, k: int) {
    exists m | m in ms :: KeyIs(kind, m, k)
  }

  lemma RestDistinct(kind: IntKind, ms: seq<Member>)
    requires ms != [] && DistinctKeys(kind, ms)
    ensures DistinctKeys(kind, ms[1..])
    ensures forall m | m in ms[1..] :: m in ms && ParseKey(kind, m.name) != ParseKey(kind, ms[0].name)
  {
    hide ParseKey;
    forall i, j | 0 <= i < j < |ms[1..]|
      ensures ParseKey(kind, ms[1..][i].name) != ParseKey(kind, ms[1..][j].name)
    {
      assert ParseKey(kind, ms[i + 1].name) != ParseKey(kind, ms[j + 1].name);
    }
    forall m | m in ms[1..] ensures ParseKey(kind, m.name) != ParseKey(kind, ms[0].name) {
      var i :| 0 <= i < |ms[1..]| && ms[1..][i] == m;
      assert ParseKey(kind, ms[0].name) != ParseKey(kind, ms[i + 1].name);
    }
  }

  lemma KeyedFirst(kind: IntKind, ms: seq<Member>, k: int)
    requires ms != []
    ensures Keyed(kind, ms, k) <==> KeyIs(kind, ms[0], k) || Keyed(kind, ms[1..], k)
  {
    hide ParseKey;
    if KeyIs(kind, ms[0], k) {
      assert ms[0] in ms;
    }
    assert forall m :: m in ms <==> m == ms[0] || m in ms[1..];
  }

  lemma {:induction false} IntMembersSpec(
    nullOk: bool, kind: IntKind, e: Ty, ms: seq<Member>, ret: bool, m0: map<int, Val>)
    requires DistinctKeys(kind, ms)
    requires forall m | m in ms :: ParseKey(kind, m.name).Some? && Fresh(nullOk, e, m.value).Parsed?
    requires forall m | m in ms :: ParseKey(kind, m.name).value !in m0
    ensures var r := DecodeIntMembers(nullOk, kind, e, ms, ret, m0);
      && r.Parsed? && r.v.VIntMap?
      && (forall k :: k in r.v.ints <==> k in m0 || Keyed(kind, ms, k))
      && (forall k | k in m0 :: k in r.v.ints && r.v.ints[k] == m0[k])
      && (forall m, k | m in ms && KeyIs(kind, m, k) :: k in r.v.ints && r.v.ints[k] == Fresh(nullOk, e, m.value).v)
      && (r.ret <==> ret && forall m | m in ms :: Fresh(nullOk, e, m.value).ret)
    decreases |ms|
  {
    hide ParseKey, Decode, DistinctKeys, Default, Keyed;
    if ms == [] {
      NoneKeyed(kind);
    } else {
      assert ms[0] in ms;
      var first := Fresh(nullOk, e, ms[0].value);
      var k0 := ParseKey(kind, ms[0].name).value;
      RestDistinct(kind, ms);
      IntMembersSpec(nullOk, kind, e, ms[1..], ret && first.ret, m0[k0 := first.v]);
      assert forall m :: m in ms <==> m == ms[0] || m in ms[1..];
      assert KeyIs(kind, ms[0], k0);
      forall k ensures Keyed(kind, ms, k) <==> k == k0 || Keyed(kind, ms[1..], k) {
        KeyedFirst(kind, ms, k);
      }
    }
  }

  lemma NoneKeyed(kind: IntKind)
    ensures forall k :: !Keyed(kind, [], k)
  {
  }

  // ---- The round trip ----

  /** What reading back an encoding of v gives: v and true exactly under the condition. */
  ghost predicate BackIff(r: Outcome, v: Val, restores: bool, pointerFree: bool) {
    && r.Parsed?
    && (r == Parsed(true, v) <==> restores)
    && (pointerFree && !restores ==> !r.ret)
  }

  lemma {:induction false} FreshRoundTrip(nullOk: bool, e: Ty, v: Val, j: Json)
    requires WellTyped(e, v) && Encodes(e, v, j)
    ensures BackIff(Fresh(nullOk, e, j), v, RestoresFresh(nullOk, e, v), PointerFree(e))
    decreases e, 1
  {
    DefaultTyped(e, v);
    RoundTrip(nullOk, e, v, Default(e), j);
  }

  lemma {:induction false} VecRoundTrip(nullOk: bool, e: Ty, elems: seq<Val>, items: seq<Json>)
    requires forall x | x in elems :: WellTyped(e, x)
    requires ItemsEncode(e, elems, items)
    ensures var r := DecodeItems(nullOk, e, items);
      && r.ParsedAll?
      && (r == ParsedAll(true, elems) <==> forall x | x in elems :: RestoresFresh(nullOk, e, x))
      && (PointerFree(e) && r.ret ==> forall x | x in elems :: RestoresFresh(nullOk, e, x))
    decreases e, 2
  {
    hide Decode, Default, WellTyped, Encodes, PointerFree, RestoresFresh, DecodeItems;
    forall i | 0 <= i < |items|
      ensures BackIff(Fresh(nullOk, e, items[i]), elems[i], RestoresFresh(nullOk, e, elems[i]), PointerFree(e))
    {
      FreshRoundTrip(nullOk, e, elems[i], items[i]);
    }
    ItemsSpec(nullOk, e, items);
    var r := DecodeItems(nullOk, e, items);
    if r == ParsedAll(true, elems) {
      forall x | x in elems ensures RestoresFresh(nullOk, e, x) {
        var i :| 0 <= i < |elems| && elems[i] == x;
        assert Fresh(nullOk, e, items[i]) == Parsed(true, elems[i]);
      }
    }
    if PointerFree(e) && r.ret {
      forall x | x in elems ensures RestoresFresh(nullOk, e, x) {
        var i :| 0 <= i < |elems| && elems[i] == x;
        assert Fresh(nullOk, e, items[i]).ret;
      }
    }
    if forall x | x in elems :: RestoresFresh(nullOk, e, x) {
      assert r.vs == elems;
    }
  }

  lemma {:induction false} VectorRoundTrip(nullOk: bool, e: Ty, v: Val, prior: Val, j: Json)
    requires WellTyped(TVec(e), v) && WellTyped(TVec(e), prior) && Encodes(TVec(e), v, j)
    ensures BackIff(Decode(nullOk, TVec(e), j, prior), v, Restores(nullOk, TVec(e), v, prior), PointerFree(e))
    decreases e, 3
  {
    hide RestoresFresh;
    if v.elems != [] {
      VecRoundTrip(nullOk, e, v.elems, j.items);
    }
  }

  lemma {:induction false} PtrRoundTrip(nullOk: bool, e: Ty, v: Val, prior: Val, j: Json)
    requires WellTyped(TPtr(e), v) && WellTyped(TPtr(e), prior) && Encodes(TPtr(e), v, j)
    ensures BackIff(Decode(nullOk, TPtr(e), j, prior), v, Restores(nullOk, TPtr(e), v, prior), false)
    decreases e, 1
  {
    hide SaysNullptr;
    if v.VPtr? {
      NullptrOnlyWhenSaid(e, v.to, j);
      if prior.VPtr? {
        RoundTrip(nullOk, e, v.to, prior.to, j);
      }
    }
  }

  lemma {:induction false} StructRoundTrip(nullOk: bool, fs: Fields, v: Val, prior: Val, j: Json)
    requires WellTyped(TStruct(fs), v) && WellTyped(TStruct(fs), prior) && Encodes(TStruct(fs), v, j)
    ensures BackIff(Decode(nullOk, TStruct(fs), j, prior), v,
                    Restores(nullOk, TStruct(fs), v, prior), FieldsPointerFree(fs))
    decreases fs, 1
  {
    hide DecodeFields, FieldsRestore;
    FieldsRoundTrip(nullOk, fs, v.vals, prior.vals, j);
  }

  predicate Scalar(ty: Ty) {
    ty.TInt? || ty.TBool? || ty.TString? || ty.TEnum? || ty.TOther?
  }

  lemma ScalarRoundTrip(nullOk: bool, ty: Ty, v: Val, prior: Val, j: Json)
    requires WellTyped(ty, v) && WellTyped(ty, prior) && Encodes(ty, v, j) && Scalar(ty)
    ensures BackIff(Decode(nullOk, ty, j, prior), v, Restores(nullOk, ty, v, prior), PointerFree(ty))
  {
  }

  lemma {:induction false} RoundTrip(nullOk: bool, ty: Ty, v: Val, prior: Val, j: Json)
    requires WellTyped(ty, v) && WellTyped(ty, prior) && Encodes(ty, v, j)
    ensures BackIff(Decode(nullOk, ty, j, prior), v, Restores(nullOk, ty, v, prior), PointerFree(ty))
    decreases ty, 0
  {
    hide WellTyped, Encodes, Decode, Restores;
    match ty
    case TPtr(e) => PtrRoundTrip(nullOk, e, v, prior, j);
    case TVec(e) => VectorRoundTrip(nullOk, e, v, prior, j);
    case TSet(e) => SetRoundTrip(nullOk, e, v, prior, j);
    case TStrMap(e) => StrMapRoundTrip(nullOk, e, v, prior, j);
    case TIntMap(kind, e) => IntMapRoundTrip(nullOk, kind, e, v, prior, j);
    case TStruct(fs) => StructRoundTrip(nullOk, fs, v, prior, j);
    case _ => ScalarRoundTrip(nullOk, ty, v, prior, j);
  }

  lemma {:induction false} SetItemsBack(nullOk: bool, e: Ty, members: set<Val>, items: seq<Json>, order: seq<Val>)
    requires (forall x | x in members :: WellTyped(e, x)) && PointerFree(e)
    requires Lists(order, members) && ItemsEncode(e, order, items)
    ensures var r := DecodeItems(nullOk, e, items);
      && r.ParsedAll?
      && (r.ret && (set x | x in r.vs) == members <==> forall x | x in members :: RestoresFresh(nullOk, e, x))
      && (r.ret ==> forall x | x in members :: RestoresFresh(nullOk, e, x))
    decreases e, 3
  {
    hide Decode, WellTyped, Encodes, RestoresFresh, PointerFree, ItemsEncode, DecodeItems;
    VecRoundTrip(nullOk, e, order, items);
    var r := DecodeItems(nullOk, e, items);
    if r == ParsedAll(true, order) {
      assert (set x | x in r.vs) == members;
    }
  }

  lemma {:induction false} SetRoundTrip(nullOk: bool, e: Ty, v: Val, prior: Val, j: Json)
    requires WellTyped(TSet(e), v) && WellTyped(TSet(e), prior) && Encodes(TSet(e), v, j)
    ensures BackIff(Decode(nullOk, TSet(e), j, prior), v, Restores(nullOk, TSet(e), v, prior), true)
    decreases e, 4
  {
    if v.members != {} {
      var order: seq<Val> :| Lists(order, v.members) && ItemsEncode(e, order, j.items);
      SetItemsBack(nullOk, e, v.members, j.items, order);
    } else {
      assert (set x: Val | x in []) == {};
    }
  }

  /** The object read from the members compares with strs as the members do one by one. */
  lemma StrMapCompare(nullOk: bool, e: Ty, strs: map<string, Val>, ms: seq<Member>)
    requires forall k | k in strs :: WellTyped(e, strs[k]) && Named(ms, k)
    requires forall m | m in ms :: m.name in strs
    requires forall m | m in ms ::
      BackIff(Fresh(nullOk, e, m.value), strs[m.name], RestoresFresh(nullOk, e, strs[m.name]), PointerFree(e))
    requires DistinctNames(ms)
    ensures BackIff(DecodeStrMembers(nullOk, e, ms, true, map[]), VStrMap(strs),
                    forall k | k in strs :: RestoresFresh(nullOk, e, strs[k]), PointerFree(e))
  {
    hide Decode, RestoresFresh, WellTyped, PointerFree, DecodeStrMembers;
    StrMembersSpec(nullOk, e, ms, true, map[]);
    var r := DecodeStrMembers(nullOk, e, ms, true, map[]);
    assert r.v.strs.Keys == strs.Keys;
    if forall k | k in strs :: RestoresFresh(nullOk, e, strs[k]) {
      forall k | k in strs ensures r.v.strs[k] == strs[k] {
        var m :| m in ms && m.name == k;
      }
      assert r.v.strs == strs;
    } else {
      var k :| k in strs && !RestoresFresh(nullOk, e, strs[k]);
      var m :| m in ms && m.name == k;
      assert r.v.strs[k] == Fresh(nullOk, e, m.value).v;
    }
  }

  lemma {:induction false} StrMapRoundTrip(nullOk: bool, e: Ty, v: Val, prior: Val, j: Json)
    requires WellTyped(TStrMap(e), v) && WellTyped(TStrMap(e), prior) && Encodes(TStrMap(e), v, j)
    ensures BackIff(Decode(nullOk, TStrMap(e), j, prior), v, Restores(nullOk, TStrMap(e), v, prior), PointerFree(e))
    decreases e, 3
  {
    if v.strs != map[] {
      forall m | m in j.members
        ensures BackIff(Fresh(nullOk, e, m.value), v.strs[m.name], RestoresFresh(nullOk, e, v.strs[m.name]), PointerFree(e))
      {
        FreshRoundTrip(nullOk, e, v.strs[m.name], m.value);
      }
      StrMapCompare(nullOk, e, v.strs, j.members);
    }
  }

  /** The key a member of an encoded integer map stands for. */
  lemma EncodedKey(kind: IntKind, e: Ty, ints: map<int, Val>, m: Member) returns (k: int)
    requires forall x | x in ints :: kind.Fits(x) && WellTyped(e, ints[x])
    requires exists x :: x in ints && m.name == ToString(x) && Encodes(e, ints[x], m.value)
    ensures k in ints && m.name == ToString(k) && Encodes(e, ints[k], m.value) && KeyIs(kind, m, k)
  {
    k :| k in ints && m.name == ToString(k) && Encodes(e, ints[k], m.value);
    ParsePrinted(kind, k);
  }

  ghost predicate MemberBack(nullOk: bool, kind: IntKind, e: Ty, ints: map<int, Val>, m: Member)
    requires forall k | k in ints :: WellTyped(e, ints[k])
  {
    exists k :: k in ints && KeyIs(kind, m, k) && m.name == ToString(k) &&
      BackIff(Fresh(nullOk, e, m.value), ints[k], RestoresFresh(nullOk, e, ints[k]), PointerFree(e))
  }

  lemma {:induction false} IntMembersBack(
    nullOk: bool, kind: IntKind, e: Ty, ints: map<int, Val>, ms: seq<Member>)
    requires forall k | k in ints :: kind.Fits(k) && WellTyped(e, ints[k]) && Named(ms, ToString(k))
    requires forall m | m in ms :: exists k :: k in ints && m.name == ToString(k) && Encodes(e, ints[k], m.value)
    requires DistinctNames(ms)
    ensures BackIff(DecodeIntMembers(nullOk, kind, e, ms, true, map[]), VIntMap(ints),
                    forall k | k in ints :: RestoresFresh(nullOk, e, ints[k]), PointerFree(e))
    decreases e, 2
  {
    hide ParseKey, ToString, Decode, DecodeIntMembers, RestoresFresh, WellTyped, Encodes, PointerFree, BackIff;
    forall m | m in ms ensures MemberBack(nullOk, kind, e, ints, m) {
      var k := EncodedKey(kind, e, ints, m);
      FreshRoundTrip(nullOk, e, ints[k], m.value);
    }
    forall k | k in ints ensures Keyed(kind, ms, k) {
      PrintedKeyed(kind, ms, k);
    }
    IntMapCompare(nullOk, kind, e, ints, ms);
  }

  lemma {:induction false} IntMapRoundTrip(nullOk: bool, kind: IntKind, e: Ty, v: Val, prior: Val, j: Json)
    requires WellTyped(TIntMap(kind, e), v) && WellTyped(TIntMap(kind, e), prior) && Encodes(TIntMap(kind, e), v, j)
    ensures BackIff(Decode(nullOk, TIntMap(kind, e), j, prior), v,
                    Restores(nullOk, TIntMap(kind, e), v, prior), PointerFree(e))
    decreases e, 3
  {
    hide DecodeItems, DecodeStrMembers, DecodeFields, RestoresFresh, ToString, DistinctNames, Named;
    if v.ints != map[] {
      IntMembersBack(nullOk, kind, e, v.ints, j.members);
    }
  }

  lemma PrintedKeyed(kind: IntKind, ms: seq<Member>, k: int)
    requires kind.Fits(k) && Named(ms, ToString(k))
    ensures Keyed(kind, ms, k)
  {
    var m :| m in ms && m.name == ToString(k);
    ParsePrinted(kind, k);
    assert KeyIs(kind, m, k);
  }

  lemma KeysStayApart(nullOk: bool, kind: IntKind, e: Ty, ints: map<int, Val>, ms: seq<Member>)
    requires forall k | k in ints :: WellTyped(e, ints[k])
    requires forall m | m in ms :: MemberBack(nullOk, kind, e, ints, m)
    requires DistinctNames(ms)
    ensures DistinctKeys(kind, ms)
    ensures forall m | m in ms :: ParseKey(kind, m.name).Some? && Fresh(nullOk, e, m.value).Parsed?
  {
    hide Decode, RestoresFresh, WellTyped, PointerFree, ParseKey, ToString;
    forall a, b | 0 <= a < b < |ms| ensures ParseKey(kind, ms[a].name) != ParseKey(kind, ms[b].name) {
      assert MemberBack(nullOk, kind, e, ints, ms[a]) && MemberBack(nullOk, kind, e, ints, ms[b]);
      assert ms[a].name != ms[b].name;
    }
  }

  /** The member an entry was written to, and how it reads back. */
  lemma EntryBack(nullOk: bool, kind: IntKind, e: Ty, ints: map<int, Val>, ms: seq<Member>, k: int) returns (m: Member)
    requires forall x | x in ints :: WellTyped(e, ints[x])
    requires forall m | m in ms :: MemberBack(nullOk, kind, e, ints, m)
    requires Keyed(kind, ms, k)
    ensures k in ints && m in ms && KeyIs(kind, m, k)
    ensures BackIff(Fresh(nullOk, e, m.value), ints[k], RestoresFresh(nullOk, e, ints[k]), PointerFree(e))
  {
    hide Decode, RestoresFresh, WellTyped, PointerFree, ParseKey, ToString;
    m :| m in ms && KeyIs(kind, m, k);
    assert MemberBack(nullOk, kind, e, ints, m);
  }

  lemma IntMapCompare(nullOk: bool, kind: IntKind, e: Ty, ints: map<int, Val>, ms: seq<Member>)
    requires forall k | k in ints :: WellTyped(e, ints[k]) && Keyed(kind, ms, k)
    requires forall m | m in ms :: MemberBack(nullOk, kind, e, ints, m)
    requires DistinctNames(ms)
    ensures BackIff(DecodeIntMembers(nullOk, kind, e, ms, true, map[]), VIntMap(ints),
                    forall k | k in ints :: RestoresFresh(nullOk, e, ints[k]), PointerFree(e))
  {
    hide Decode, RestoresFresh, WellTyped, PointerFree, DecodeIntMembers, ParseKey, ToString, MemberBack, DistinctKeys;
    KeysStayApart(nullOk, kind, e, ints, ms);
    IntMembersSpec(nullOk, kind, e, ms, true, map[]);
    var r := DecodeIntMembers(nullOk, kind, e, ms, true, map[]);
    forall k ensures k in r.v.ints <==> k in ints {
      if Keyed(kind, ms, k) {
        var m := EntryBack(nullOk, kind, e, ints, ms, k);
      }
    }
    if forall k | k in ints :: RestoresFresh(nullOk, e, ints[k]) {
      forall k | k in ints ensures r.v.ints[k] == ints[k] {
        var m := EntryBack(nullOk, kind, e, ints, ms, k);
      }
      assert r.v.ints == ints;
      forall m | m in ms ensures Fresh(nullOk, e, m.value).ret {
        MemberKey(nullOk, kind, e, ints, m);
      }
    } else {
      var k :| k in ints && !RestoresFresh(nullOk, e, ints[k]);
      var m := EntryBack(nullOk, kind, e, ints, ms, k);
      assert r.v.ints[k] == Fresh(nullOk, e, m.value).v;
    }
  }

  lemma MemberKey(nullOk: bool, kind: IntKind, e: Ty, ints: map<int, Val>, m: Member)
    requires forall x | x in ints :: WellTyped(e, ints[x]) && RestoresFresh(nullOk, e, ints[x])
    requires MemberBack(nullOk, kind, e, ints, m)
    ensures Fresh(nullOk, e, m.value).Parsed? && Fresh(nullOk, e, m.value).ret
  {
    hide Decode, RestoresFresh, WellTyped, PointerFree, ParseKey, ToString;
  }

  lemma {:induction false} FieldsRoundTrip(nullOk: bool, fs: Fields, vals: seq<Val>, priors: seq<Val>, j: Json)
    requires FieldsTyped(fs, vals) && FieldsTyped(fs, priors)
    requires fs.Field? ==> j.JObj? && FieldsEncode(fs, vals, j.members)
    ensures var r := DecodeFields(nullOk, fs, j, priors);
      && r.ParsedAll?
      && (r == ParsedAll(true, vals) <==> FieldsRestore(nullOk, fs, vals, priors))
      && (FieldsPointerFree(fs) && r.ret ==> FieldsRestore(nullOk, fs, vals, priors))
    decreases fs, 0
  {
    if fs.Field? {
      RoundTrip(nullOk, fs.ty, vals[0], priors[0], Lookup(j.members, fs.name));
      FieldsRoundTrip(nullOk, fs.rest, vals[1..], priors[1..], j);
      assert vals == [vals[0]] + vals[1..];
      var r := DecodeFields(nullOk, fs, j, priors);
      var t := DecodeFields(nullOk, fs.rest, j, priors[1..]);
      assert r.vs[1..] == t.vs;
    }
  }

  /** Values that do not come back: a pointer to the text "nullptr", one read into null, an empty vector. */
  lemma LostInTransit()
    ensures var ty, v, j := TPtr(TString), VPtr(VStr(NullptrText)), JStr(NullptrText);
      WellTyped(ty, v) && Encodes(ty, v, j) && Decode(true, ty, j, VPtr(VStr(""))) == Parsed(true, VNull)
    ensures var ty, v, j := TPtr(TBool), VPtr(VBool(true)), JBool(true);
      WellTyped(ty, v) && Encodes(ty, v, j) && Decode(true, ty, j, VNull) == Parsed(true, VNull)
    ensures var ty, v, j := TVec(TBool), VVec([]), JNull;
      WellTyped(ty, v) && Encodes(ty, v, j) && Decode(false, ty, j, v) == Parsed(false, v)
  {
    assert WellTyped(TString, VStr(NullptrText)) && Encodes(TString, VStr(NullptrText), JStr(NullptrText));
    assert WellTyped(TBool, VBool(true)) && Encodes(TBool, VBool(true), JBool(true));
  }
}
