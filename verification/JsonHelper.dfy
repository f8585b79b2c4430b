/**
 Marshal and Unmarshal (json_helper/marshal.h, json_helper/unmarshal.h) as the
 type-directed recursions they are, with the loops over containers.
 */
module JsonHelper {
  import opened Common
  import opened Decimal
  import opened Json
  import opened JsonRoundTrip

  /** Writing through (*root)[name]: the member is created on first use. */
  function Put(ms: seq<Member>, name: string, value: Json): seq<Member> {
    if ms == [] then [Member(name, value)]
    else if ms[0].name == name then [Member(name, value)] + ms[1..]
    else [ms[0]] + Put(ms[1..], name, value)
  }

  lemma NamedFirst(ms: seq<Member>, n: string)
    requires ms != []
    ensures Named(ms, n) <==> ms[0].name == n || Named(ms[1..], n)
  {
    if ms[0].name == n {
      assert ms[0] in ms;
    }
    assert forall m :: m in ms <==> m == ms[0] || m in ms[1..];
  }

  /** Put sets the member of its name and no other. */
  lemma {:induction false} PutSets(ms: seq<Member>, name: string, value: Json, n: string)
    ensures Lookup(Put(ms, name, value), n) == if n == name then value else Lookup(ms, n)
    ensures Named(Put(ms, name, value), n) <==> n == name || Named(ms, n)
  {
    var r := Put(ms, name, value);
    NamedFirst(r, n);
    if ms != [] {
      NamedFirst(ms, n);
      if ms[0].name == name {
        assert r[1..] == ms[1..];
      } else {
        assert r[1..] == Put(ms[1..], name, value);
        PutSets(ms[1..], name, value, n);
      }
    } else {
      assert r[1..] == [];
    }
  }

  lemma {:induction false} PutNew(ms: seq<Member>, name: string, value: Json)
    requires !Named(ms, name)
    ensures Put(ms, name, value) == ms + [Member(name, value)]
  {
    hide Named;
    if ms != [] {
      NamedFirst(ms, name);
      PutNew(ms[1..], name, value);
      assert ms == [ms[0]] + ms[1..];
    }
  }

  method Marshal(ty: Ty, v: Val) returns (ret: bool, root: Json)
    requires WellTyped(ty, v)
    ensures ret <==> Marshals(ty, v)
    ensures ret ==> Encodes(ty, v, root)
    decreases ty, 0
  {
    ret, root := true, JNull;
    match ty
    case TInt(_) => root := JInt(v.i);
    case TEnum => root := JInt(v.i);
    case TBool => root := JBool(v.b);
    case TString => root := JStr(v.s);
    case TOther => ret := false;
    case TPtr(e) =>
      if v.VNull? {
        root := JStr(NullptrText);
      } else {
        ret, root := Marshal(e, v.to);
      }
    case TVec(e) => ret, root := MarshalVector(e, v);
    case TSet(e) => ret, root := MarshalSet(e, v);
    case TStrMap(e) => ret, root := MarshalStrMap(e, v);
    case TIntMap(kind, e) => ret, root := MarshalIntMap(kind, e, v);
    case TStruct(fs) =>
      if fs.Field? {
        var ms;
        ret, ms := MarshalFields(fs, v.vals, []);
        root := JObj(ms);
      }
  }

  method MarshalVector(e: Ty, v: Val) returns (ret: bool, root: Json)
    requires WellTyped(TVec(e), v)
    ensures ret <==> Marshals(TVec(e), v)
    ensures ret ==> Encodes(TVec(e), v, root)
    decreases e, 1
  {
    ret, root := true, JNull;
    var items: seq<Json> := [];
    for i := 0 to |v.elems|
      invariant |items| == i && (root == if i == 0 then JNull else JArr(items))
      invariant ret <==> forall k | 0 <= k < i :: Marshals(e, v.elems[k])
      invariant ret ==> forall k | 0 <= k < i :: Encodes(e, v.elems[k], items[k])
    {
      var ok, item := Marshal(e, v.elems[i]);
      if !ok {
        ret := false;
      }
      items := items + [item];
      root := JArr(items);
    }
    if ret {
      assert forall x | x in v.elems :: Marshals(e, x);
    }
  }

  method MarshalSet(e: Ty, v: Val) returns (ret: bool, root: Json)
    requires WellTyped(TSet(e), v)
    ensures ret <==> Marshals(TSet(e), v)
    ensures ret ==> Encodes(TSet(e), v, root)
    ensures ret ==> (root == JNull <==> v.members == {}) && (root.JNull? || (root.JArr? && |root.items| == |v.members|))
    decreases e, 2
  {
    var items;
    ret, items := MarshalElements(e, v.members);
    root := if items == [] then JNull else JArr(items);
  }

  /** Some order of the members is encoded by the items. */
  ghost predicate SetEncoded(e: Ty, members: set<Val>, items: seq<Json>)
    requires forall x | x in members :: WellTyped(e, x)
  {
    exists order: seq<Val> :: Lists(order, members) && ItemsEncode(e, order, items)
  }

  lemma SetEncodedOneMore(e: Ty, members: set<Val>, items: seq<Json>, x: Val, item: Json)
    requires (forall y | y in members :: WellTyped(e, y)) && WellTyped(e, x)
    requires SetEncoded(e, members, items) && Encodes(e, x, item)
    ensures SetEncoded(e, members + {x}, items + [item])
  {
    hide WellTyped, Encodes, ItemsEncode;
    var order: seq<Val> :| Lists(order, members) && ItemsEncode(e, order, items);
    ListsOneMore(order, members, x);
    ItemsEncodeOneMore(e, order, items, x, item);
  }

  lemma ListsOneMore(order: seq<Val>, members: set<Val>, x: Val)
    requires Lists(order, members)
    ensures Lists(order + [x], members + {x})
    ensures forall y :: y in order <==> y in members
    ensures forall y :: y in order + [x] <==> y in order || y == x
  {
  }

  lemma ItemsEncodeOneMore(e: Ty, order: seq<Val>, items: seq<Json>, x: Val, item: Json)
    requires (forall y | y in order :: WellTyped(e, y)) && WellTyped(e, x)
    requires ItemsEncode(e, order, items) && Encodes(e, x, item)
    ensures ItemsEncode(e, order + [x], items + [item])
  {
    hide WellTyped, Encodes;
  }

  lemma SetEncodedNothing(e: Ty)
    ensures SetEncoded(e, {}, [])
  {
    assert Lists([], {}) && ItemsEncode(e, [], []);
  }

  method MarshalElements(e: Ty, members: set<Val>) returns (ret: bool, items: seq<Json>)
    requires forall x | x in members :: WellTyped(e, x)
    ensures ret <==> forall x | x in members :: Marshals(e, x)
    ensures ret ==> SetEncoded(e, members, items)
    ensures ret ==> |items| == |members|
    decreases e, 1
  {
    hide WellTyped, Encodes, Marshals, SetEncoded;
    ret, items := true, [];
    var rest := members;
    ghost var done: set<Val> := {};
    SetEncodedNothing(e);
    while rest != {}
      invariant done !! rest && done + rest == members
      invariant ret <==> forall x | x in done :: Marshals(e, x)
      invariant ret ==> SetEncoded(e, done, items) && |items| == |done|
    {
      var x :| x in rest;
      var ok, item := Marshal(e, x);
      if !ok {
        ret := false;
      } else {
        if ret {
          SetEncodedOneMore(e, done, items, x, item);
        }
        items := items + [item];
      }
      done, rest := done + {x}, rest - {x};
    }
    assert done == members;
  }

  /** The members written so far bear exactly the given names, each once. */
  ghost predicate Spelled(ms: seq<Member>, names: set<string>) {
    DistinctNames(ms) && (forall n :: Named(ms, n) <==> n in names) && |ms| == |names|
  }

  lemma SpelledOneMore(ms: seq<Member>, names: set<string>, name: string, value: Json)
    requires Spelled(ms, names) && name !in names
    ensures Put(ms, name, value) == ms + [Member(name, value)]
    ensures Spelled(Put(ms, name, value), names + {name})
  {
    PutNew(ms, name, value);
    forall m | m in ms ensures m.name != name {
      assert !Named(ms, name);
    }
    forall n ensures Named(Put(ms, name, value), n) <==> n in names + {name} {
      PutSets(ms, name, value, n);
    }
  }

  /** Every member encodes the entry of its name. */
  ghost predicate StrMembers(e: Ty, strs: map<string, Val>, ms: seq<Member>)
    requires forall k | k in strs :: WellTyped(e, strs[k])
  {
    forall m | m in ms :: m.name in strs && Encodes(e, strs[m.name], m.value)
  }

  lemma StrMembersOneMore(e: Ty, strs: map<string, Val>, ms: seq<Member>, k: string, j: Json)
    requires forall x | x in strs :: WellTyped(e, strs[x])
    requires StrMembers(e, strs, ms) && k in strs && Encodes(e, strs[k], j)
    ensures StrMembers(e, strs, ms + [Member(k, j)])
  {
    hide Encodes, WellTyped;
  }

  lemma NoStrMembers(e: Ty, strs: map<string, Val>)
    requires forall k | k in strs :: WellTyped(e, strs[k])
    ensures StrMembers(e, strs, [])
  {
  }

  lemma StrMapEncoded(e: Ty, v: Val, ms: seq<Member>)
    requires WellTyped(TStrMap(e), v) && Spelled(ms, v.strs.Keys)
    ensures |ms| == |v.strs| && (ms == [] <==> v.strs == map[])
    ensures StrMembers(e, v.strs, ms) ==> Encodes(TStrMap(e), v, if ms == [] then JNull else JObj(ms))
  {
    assert |v.strs.Keys| == |v.strs|;
  }

  method MarshalStrMap(e: Ty, v: Val) returns (ret: bool, root: Json)
    requires WellTyped(TStrMap(e), v)
    ensures ret <==> Marshals(TStrMap(e), v)
    ensures ret ==> Encodes(TStrMap(e), v, root)
    ensures root == JNull <==> v.strs == map[]
    ensures root.JNull? || (root.JObj? && |root.members| == |v.strs|)
    decreases e, 2
  {
    var ms;
    ret, ms := MarshalStrEntries(e, v.strs);
    root := if ms == [] then JNull else JObj(ms);
    StrMapEncoded(e, v, ms);
  }

  method MarshalStrEntries(e: Ty, strs: map<string, Val>) returns (ret: bool, ms: seq<Member>)
    requires forall k | k in strs :: WellTyped(e, strs[k])
    ensures ret <==> forall k | k in strs :: Marshals(e, strs[k])
    ensures Spelled(ms, strs.Keys) && (ret ==> StrMembers(e, strs, ms))
    decreases e, 1
  {
    hide Encodes, Spelled, WellTyped, Marshals, StrMembers;
    ret, ms := true, [];
    var rest := strs.Keys;
    ghost var done: set<string> := {};
    SpelledNothing();
    NoStrMembers(e, strs);
    while rest != {}
      invariant done !! rest && done + rest == strs.Keys
      invariant ret <==> forall k | k in done :: Marshals(e, strs[k])
      invariant Spelled(ms, done)
      invariant ret ==> StrMembers(e, strs, ms)
    {
      var k :| k in rest;
      var ok, item := Marshal(e, strs[k]);
      if !ok {
        ret := false;
      }
      if ret {
        StrMembersOneMore(e, strs, ms, k, item);
      }
      SpelledOneMore(ms, done, k, item);
      ms := Put(ms, k, item);
      done, rest := done + {k}, rest - {k};
    }
    assert done == strs.Keys;
  }

  lemma SpelledNothing()
    ensures Spelled([], {})
  {
  }

  ghost function Printed(ks: set<int>): set<string> {
    set k | k in ks :: ToString(k)
  }

  lemma PrintedOneMore(ks: set<int>, k: int)
    requires k !in ks
    ensures ToString(k) !in Printed(ks) && Printed(ks + {k}) == Printed(ks) + {ToString(k)}
  {
    if ToString(k) in Printed(ks) {
      var x :| x in ks && ToString(x) == ToString(k);
      ToStringInjective(x, k);
    }
  }

  /** Every member encodes the entry whose key its name prints. */
  ghost predicate IntMembers(e: Ty, ints: map<int, Val>, ms: seq<Member>)
    requires forall k | k in ints :: WellTyped(e, ints[k])
  {
    forall m | m in ms :: exists k :: k in ints && m.name == ToString(k) && Encodes(e, ints[k], m.value)
  }

  lemma IntMembersOneMore(e: Ty, ints: map<int, Val>, ms: seq<Member>, k: int, j: Json)
    requires forall x | x in ints :: WellTyped(e, ints[x])
    requires IntMembers(e, ints, ms) && k in ints && Encodes(e, ints[k], j)
    ensures IntMembers(e, ints, ms + [Member(ToString(k), j)])
  {
    hide Encodes, ToString;
    forall m | m in ms + [Member(ToString(k), j)]
      ensures exists x :: x in ints && m.name == ToString(x) && Encodes(e, ints[x], m.value)
    {
      if m in ms {
        var x :| x in ints && m.name == ToString(x) && Encodes(e, ints[x], m.value);
      }
    }
  }

  lemma IntMapEncoded(kind: IntKind, e: Ty, v: Val, ms: seq<Member>)
    requires WellTyped(TIntMap(kind, e), v) && Spelled(ms, Printed(v.ints.Keys)) && |Printed(v.ints.Keys)| == |v.ints.Keys|
    ensures |ms| == |v.ints| && (ms == [] <==> v.ints == map[])
    ensures IntMembers(e, v.ints, ms) ==> Encodes(TIntMap(kind, e), v, if ms == [] then JNull else JObj(ms))
  {
    assert |v.ints.Keys| == |v.ints|;
    assert forall k | k in v.ints :: ToString(k) in Printed(v.ints.Keys);
  }

  /** Every entry gets a member of its own: printing keys never merges two of them. */
  method MarshalIntMap(kind: IntKind, e: Ty, v: Val) returns (ret: bool, root: Json)
    requires WellTyped(TIntMap(kind, e), v)
    ensures ret <==> Marshals(TIntMap(kind, e), v)
    ensures ret ==> Encodes(TIntMap(kind, e), v, root)
    ensures root == JNull <==> v.ints == map[]
    ensures root.JNull? || (root.JObj? && |root.members| == |v.ints|)
    decreases e, 2
  {
    var ms;
    ret, ms := MarshalIntEntries(e, v.ints);
    root := if ms == [] then JNull else JObj(ms);
    IntMapEncoded(kind, e, v, ms);
  }

  method MarshalIntEntries(e: Ty, ints: map<int, Val>) returns (ret: bool, ms: seq<Member>)
    requires forall k | k in ints :: WellTyped(e, ints[k])
    ensures ret <==> forall k | k in ints :: Marshals(e, ints[k])
    ensures Spelled(ms, Printed(ints.Keys)) && |Printed(ints.Keys)| == |ints.Keys|
    ensures ret ==> IntMembers(e, ints, ms)
    decreases e, 1
  {
    hide Encodes, Spelled, Printed, IntMembers, ToString, WellTyped, Marshals;
    ret, ms := true, [];
    var rest := ints.Keys;
    ghost var done: set<int> := {};
    PrintedNothing();
    SpelledNothing();
    NoIntMembers(e, ints);
    while rest != {}
      invariant done !! rest && done + rest == ints.Keys
      invariant ret <==> forall k | k in done :: Marshals(e, ints[k])
      invariant Spelled(ms, Printed(done)) && |Printed(done)| == |done|
      invariant ret ==> IntMembers(e, ints, ms)
    {
      NonEmpty(rest);
      var k :| k in rest;
      var ok, item := Marshal(e, ints[k]);
      if !ok {
        ret := false;
      }
      PrintedOneMore(done, k);
      SpelledOneMore(ms, Printed(done), ToString(k), item);
      if ret {
        IntMembersOneMore(e, ints, ms, k, item);
      }
      ms := Put(ms, ToString(k), item);
      done, rest := done + {k}, rest - {k};
    }
    assert done == ints.Keys;
  }

  lemma NonEmpty(ks: set<int>)
    requires ks != {}
    ensures exists k :: k in ks
  {
    if forall k :: k !in ks {
      assert false;
    }
  }

  lemma PrintedNothing()
    ensures Printed({}) == {}
  {
  }

  lemma NoIntMembers(e: Ty, ints: map<int, Val>)
    requires forall k | k in ints :: WellTyped(e, ints[k])
    ensures IntMembers(e, ints, [])
  {
  }

  /** One statement per field, each writing the member of its name. */
  method MarshalFields(fs: Fields, vals: seq<Val>, ms0: seq<Member>) returns (ret: bool, ms: seq<Member>)
    requires FieldsTyped(fs, vals)
    ensures ret <==> FieldsMarshal(fs, vals)
    ensures ret ==> FieldsEncode(fs, vals, ms)
    ensures forall n | !HasField(fs, n) :: Lookup(ms, n) == Lookup(ms0, n) && (Named(ms, n) <==> Named(ms0, n))
    decreases fs
  {
    if fs.NoFields? {
      return true, ms0;
    }
    ret := true;
    var ok, item := Marshal(fs.ty, vals[0]);
    if !ok {
      ret := false;
    }
    var ms1 := Put(ms0, fs.name, item);
    forall n
      ensures Lookup(ms1, n) == if n == fs.name then item else Lookup(ms0, n)
      ensures Named(ms1, n) <==> n == fs.name || Named(ms0, n)
    {
      PutSets(ms0, fs.name, item, n);
    }
    ok, ms := MarshalFields(fs.rest, vals[1..], ms1);
    if !ok {
      ret := false;
    }
  }

  // ---- Unmarshal ----

  /** Reads root into an object that holds prior. */
  method Unmarshal(nullOk: bool, ty: Ty, root: Json, prior: Val) returns (r: Outcome)
    ensures r == Decode(nullOk, ty, root, prior)
    decreases ty, 0
  {
    hide DecodeItems, DecodeStrMembers, DecodeIntMembers, DecodeFields;
    match ty
    case TInt(kind) => r := ReadInt(kind, root, prior);
    case TEnum => r := ReadInt(I32, root, prior);
    case TBool => r := if root.JBool? then Parsed(true, VBool(root.b)) else Parsed(false, prior);
    case TString => r := if root.JStr? then Parsed(true, VStr(root.s)) else Parsed(false, prior);
    case TOther => r := Parsed(false, prior);
    case TPtr(e) =>
      if root == JStr(NullptrText) {
        return Parsed(true, VNull);
      }
      if !prior.VPtr? {
        return Parsed(true, prior);
      }
      r := Unmarshal(nullOk, e, root, prior.to);
      if r.Parsed? {
        r := Parsed(r.ret, VPtr(r.v));
      }
    case TVec(e) => r := UnmarshalVector(nullOk, e, root, prior);
    case TSet(e) => r := UnmarshalSet(nullOk, e, root, prior);
    case TStrMap(e) => r := UnmarshalStrMap(nullOk, e, root, prior);
    case TIntMap(kind, e) => r := UnmarshalIntMap(nullOk, kind, e, root, prior);
    case TStruct(fs) =>
      var all := UnmarshalFields(nullOk, fs, root, if prior.VStruct? then prior.vals else []);
      r := if all.ThrowsAny? then Throws else Parsed(all.ret, VStruct(all.vs));
  }

  method UnmarshalVector(nullOk: bool, e: Ty, root: Json, prior: Val) returns (r: Outcome)
    ensures r == Decode(nullOk, TVec(e), root, prior)
    decreases e, 2
  {
    hide DecodeItems;
    if !IsArray(nullOk, root) {
      return Parsed(false, prior);
    }
    var all := UnmarshalItems(nullOk, e, if root.JArr? then root.items else []);
    r := if all.ThrowsAny? then Throws else Parsed(all.ret, VVec(all.vs));
  }

  method UnmarshalSet(nullOk: bool, e: Ty, root: Json, prior: Val) returns (r: Outcome)
    ensures r == Decode(nullOk, TSet(e), root, prior)
    decreases e, 2
  {
    hide DecodeItems;
    if !IsArray(nullOk, root) {
      return Parsed(false, prior);
    }
    var all := UnmarshalItems(nullOk, e, if root.JArr? then root.items else []);
    r := if all.ThrowsAny? then Throws else Parsed(all.ret, VSet(set x | x in all.vs));
  }

  method UnmarshalStrMap(nullOk: bool, e: Ty, root: Json, prior: Val) returns (r: Outcome)
    ensures r == Decode(nullOk, TStrMap(e), root, prior)
    decreases e, 2
  {
    hide DecodeStrMembers;
    if !IsObject(nullOk, root) {
      return Parsed(false, prior);
    }
    r := UnmarshalStrMembers(nullOk, e, if root.JObj? then root.members else []);
  }

  method UnmarshalIntMap(nullOk: bool, kind: IntKind, e: Ty, root: Json, prior: Val) returns (r: Outcome)
    ensures r == Decode(nullOk, TIntMap(kind, e), root, prior)
    decreases e, 2
  {
    hide DecodeIntMembers;
    if !IsObject(nullOk, root) {
      return Parsed(false, prior);
    }
    r := UnmarshalIntMembers(nullOk, kind, e, if root.JObj? then root.members else []);
  }

  /** What was read so far, followed by the outcome of the rest. */
  function Then(ret: bool, vs: seq<Val>, rest: Outcomes): Outcomes {
    if rest.ThrowsAny? then ThrowsAny else ParsedAll(ret && rest.ret, vs + rest.vs)
  }

  method UnmarshalItems(nullOk: bool, e: Ty, items: seq<Json>) returns (r: Outcomes)
    ensures r == DecodeItems(nullOk, e, items)
    decreases e, 1
  {
    hide Decode, Default, DecodeItems;
    var ret, vs: seq<Val> := true, [];
    NothingReadYet(nullOk, e, items);
    for i := 0 to |items|
      invariant DecodeItems(nullOk, e, items) == Then(ret, vs, DecodeItems(nullOk, e, items[i..]))
    {
      ReadOneMore(nullOk, e, items, i, ret, vs);
      var one := Unmarshal(nullOk, e, items[i], Default(e));
      if one.Throws? {
        return ThrowsAny;
      }
      if !one.ret {
        ret := false;
      }
      vs := vs + [one.v];
    }
    AllRead(nullOk, e, items, ret, vs);
    r := ParsedAll(ret, vs);
  }

  lemma NothingReadYet(nullOk: bool, e: Ty, items: seq<Json>)
    ensures DecodeItems(nullOk, e, items) == Then(true, [], DecodeItems(nullOk, e, items[0..]))
  {
    assert items[0..] == items;
  }

  lemma AllRead(nullOk: bool, e: Ty, items: seq<Json>, ret: bool, vs: seq<Val>)
    ensures Then(ret, vs, DecodeItems(nullOk, e, items[|items|..])) == ParsedAll(ret, vs)
  {
    assert items[|items|..] == [];
  }

  lemma ReadOneMore(nullOk: bool, e: Ty, items: seq<Json>, i: nat, ret: bool, vs: seq<Val>)
    requires i < |items|
    ensures var one := Decode(nullOk, e, items[i], Default(e));
      Then(ret, vs, DecodeItems(nullOk, e, items[i..])) ==
        if one.Throws? then ThrowsAny
        else Then(ret && one.ret, vs + [one.v], DecodeItems(nullOk, e, items[i + 1..]))
  {
    hide Decode, Default;
    assert items[i..][0] == items[i] && items[i..][1..] == items[i + 1..];
    var rest := DecodeItems(nullOk, e, items[i + 1..]);
    var one := Decode(nullOk, e, items[i], Default(e));
    if rest.ParsedAll? && one.Parsed? {
      assert vs + ([one.v] + rest.vs) == vs + [one.v] + rest.vs;
    }
  }

  method UnmarshalStrMembers(nullOk: bool, e: Ty, ms: seq<Member>) returns (r: Outcome)
    ensures r == DecodeStrMembers(nullOk, e, ms, true, map[])
    decreases e, 1
  {
    hide Decode, Default;
    var ret, m: map<string, Val> := true, map[];
    assert ms[0..] == ms;
    for i := 0 to |ms|
      invariant DecodeStrMembers(nullOk, e, ms, true, map[]) == DecodeStrMembers(nullOk, e, ms[i..], ret, m)
    {
      var k := ms[i].name;
      assert ms[i..][0] == ms[i] && ms[i..][1..] == ms[i + 1..];
      ghost var m0 := m;
      if k !in m {
        m := m[k := Default(e)];
      }
      var one := Unmarshal(nullOk, e, ms[i].value, m[k]);
      if one.Throws? {
        return Throws;
      }
      if !one.ret {
        ret := false;
      }
      m := m[k := one.v];
      assert m == m0[k := one.v];
    }
    r := Parsed(ret, VStrMap(m));
  }

  method UnmarshalIntMembers(nullOk: bool, kind: IntKind, e: Ty, ms: seq<Member>) returns (r: Outcome)
    ensures r == DecodeIntMembers(nullOk, kind, e, ms, true, map[])
    decreases e, 1
  {
    hide Decode, Default, ParseKey;
    var ret, m: map<int, Val> := true, map[];
    assert ms[0..] == ms;
    for i := 0 to |ms|
      invariant DecodeIntMembers(nullOk, kind, e, ms, true, map[]) == DecodeIntMembers(nullOk, kind, e, ms[i..], ret, m)
    {
      assert ms[i..][0] == ms[i] && ms[i..][1..] == ms[i + 1..];
      var key := ParseKey(kind, ms[i].name);
      if key.None? {
        return Throws;
      }
      var k := key.value;
      ghost var m0 := m;
      if k !in m {
        m := m[k := Default(e)];
      }
      var one := Unmarshal(nullOk, e, ms[i].value, m[k]);
      if one.Throws? {
        return Throws;
      }
      if !one.ret {
        ret := false;
      }
      m := m[k := one.v];
      assert m == m0[k := one.v];
    }
    r := Parsed(ret, VIntMap(m));
  }

  method UnmarshalFields(nullOk: bool, fs: Fields, root: Json, priors: seq<Val>) returns (r: Outcomes)
    ensures r == DecodeFields(nullOk, fs, root, priors)
    decreases fs
  {
    if fs.NoFields? {
      return ParsedAll(true, []);
    }
    if !root.JObj? && !root.JNull? {
      return ThrowsAny;
    }
    var field := if root.JObj? then Lookup(root.members, fs.name) else JNull;
    var one := Unmarshal(nullOk, fs.ty, field, if priors == [] then Default(fs.ty) else priors[0]);
    if one.Throws? {
      return ThrowsAny;
    }
    var rest := UnmarshalFields(nullOk, fs.rest, root, if priors == [] then [] else priors[1..]);
    r := if rest.ThrowsAny? then ThrowsAny else ParsedAll(one.ret && rest.ret, [one.v] + rest.vs);
  }

  /** Marshal into a tree and back into an object holding prior. */
  method MarshalThenUnmarshal(nullOk: bool, ty: Ty, v: Val, prior: Val) returns (ret: bool, back: Outcome)
    requires WellTyped(ty, v) && WellTyped(ty, prior)
    ensures ret <==> Marshals(ty, v)
    ensures ret ==> (back == Parsed(true, v) <==> Restores(nullOk, ty, v, prior))
  {
    hide WellTyped, Encodes, Marshals, Decode, Restores, PointerFree;
    var root;
    ret, root := Marshal(ty, v);
    back := Unmarshal(nullOk, ty, root, prior);
    if ret {
      RoundTrip(nullOk, ty, v, prior, root);
    }
  }
}
