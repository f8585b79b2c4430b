/**
 Expansion, reversal and topological sorting of build targets
 (blade/dependency_analyzer.py).
 */
module DependencyAnalyzer {
  import opened DependencyGraph

  datatype Expansion = Expanded(deps: seq<Key>) | LoopFound(at: Key)

  datatype Sorting = Sorted(keys: seq<Key>) | LengthMismatch(keys: seq<Key>)

  datatype Analysis = Order(keys: seq<Key>) | Loop(at: Key) | SortFailed

  /** Removes duplicates by walking backwards, keeping the later ones. */
  method UniqueDeps(newDeps: seq<Key>) returns (r: seq<Key>)
    ensures r == KeepLast(newDeps)
  {
    var result: seq<Key>, seen: set<Key> := [], {};
    var i := |newDeps|;
    while i > 0
      invariant 0 <= i <= |newDeps|
      invariant Reversed(result) == KeepLast(newDeps[i..])
      invariant forall y :: y in seen <==> y in newDeps[i..]
    {
      i := i - 1;
      var dep := newDeps[i];
      assert newDeps[i..] == [dep] + newDeps[i + 1..];
      KeepLastOfRest(dep, newDeps[i + 1..]);
      if dep !in seen {
        ReversedAppend(result, dep);
        result := result + [dep];
        seen := seen + {dep};
      }
    }
    assert newDeps[0..] == newDeps;
    r := Reversed(result);
  }

  function Reversed(s: seq<Key>): seq<Key> {
    if s == [] then [] else Reversed(s[1..]) + [s[0]]
  }

  lemma {:induction false} ReversedAppend(s: seq<Key>, x: Key)
    ensures Reversed(s + [x]) == [x] + Reversed(s)
  {
    if s != [] {
      assert (s + [x])[1..] == s[1..] + [x];
      ReversedAppend(s[1..], x);
    }
  }

  class Targets {
    const deps: Graph
    var expandedDeps: map<Key, seq<Key>>
    var rootTargets: set<Key>
    var dependents: map<Key, set<Key>>
    var expandedDependents: map<Key, set<Key>>

    constructor (graph: Graph)
      ensures deps == graph && expandedDeps == map[] && rootTargets == {}
      ensures dependents == map k | k in graph :: {}
      ensures expandedDependents == map k | k in graph :: {}
    {
      deps := graph;
      expandedDeps, rootTargets := map[], {};
      dependents := map k | k in graph :: {};
      expandedDependents := map k | k in graph :: {};
    }

    /** Every memoised list is the expansion of its target, in the order of the lists it is made from. */
    ghost predicate MemoRight()
      reads this
    {
      && (forall k | k in expandedDeps :: k in deps && ExpansionOf(deps, k, expandedDeps[k]))
      && MadeFromMemo(deps, expandedDeps)
      && rootTargets !! expandedDeps.Keys
    }

    ghost predicate OnPathTo(id: Key)
      reads this
    {
      rootTargets <= deps.Keys && id !in rootTargets && forall r | r in rootTargets :: Reaches(deps, r, id)
    }

    method ExpandTargetDeps(id: Key) returns (r: Expansion)
      requires Closed(deps) && id in deps && MemoRight() && OnPathTo(id)
      modifies `expandedDeps, `rootTargets
      ensures r.Expanded? ==>
        && MemoRight() && rootTargets == old(rootTargets)
        && id in expandedDeps && expandedDeps[id] == r.deps
        && Grown(old(expandedDeps), expandedDeps)
      ensures r.LoopFound? ==> Reaches(deps, r.at, r.at)
      decreases deps.Keys - rootTargets
    {
      hide Reaches, ExpansionOf, RawList, MadeFromMemo, Laid, Grown;
      GrownNotAtAll(expandedDeps);
      if id in expandedDeps {
        return Expanded(expandedDeps[id]);
      }
      rootTargets := rootTargets + {id};
      var newDeps: seq<Key> := [];
      NoDepsYet(deps);
      NothingLaid(expandedDeps);
      for i := 0 to |deps[id]|
        invariant rootTargets == old(rootTargets) + {id}
        invariant MemoRight() && Grown(old(expandedDeps), expandedDeps)
        invariant RawList(deps, deps[id][..i], newDeps) && Laid(expandedDeps, deps[id][..i], newDeps)
      {
        ghost var memo := expandedDeps;
        var d := deps[id][i];
        assert Edge(deps, id, d);
        EdgeReaches(deps, id, d);
        if d in rootTargets {
          if d != id {
            ReachesTransitive(deps, d, id, d);
          }
          return LoopFound(d);
        }
        forall x | x in rootTargets && x != id ensures Reaches(deps, x, d) {
          ReachesTransitive(deps, x, id, d);
        }
        newDeps := newDeps + [d];
        var sub := ExpandTargetDeps(d);
        if sub.LoopFound? {
          return sub;
        }
        RawListOneMore(deps, deps[id], i, newDeps[..|newDeps| - 1], sub.deps);
        LaidOneMore(memo, expandedDeps, deps[id], i, newDeps[..|newDeps| - 1]);
        GrownTwice(old(expandedDeps), memo, expandedDeps);
        newDeps := newDeps + sub.deps;
      }
      assert deps[id][..|deps[id]|] == deps[id];
      var unique := UniqueDeps(newDeps);
      UniqueIsExpansion(deps, id, newDeps);
      MemoOneMore(deps, expandedDeps, id, newDeps);
      GrownByOne(expandedDeps, id, unique);
      GrownTwice(old(expandedDeps), expandedDeps, expandedDeps[id := unique]);
      expandedDeps := expandedDeps[id := unique];
      rootTargets := rootTargets - {id};
      return Expanded(unique);
    }

    /** Expands every target, in any order. Stops with a loop exactly when the graph has one. */
    method ExpandDeps() returns (loop: Expansion)
      requires Closed(deps) && expandedDeps == map[] && rootTargets == {}
      modifies `expandedDeps, `rootTargets
      ensures loop.LoopFound? <==> !Acyclic(deps)
      ensures loop.LoopFound? ==> Reaches(deps, loop.at, loop.at)
      ensures loop.Expanded? ==> expandedDeps.Keys == deps.Keys && MemoRight() && rootTargets == {}
    {
      var todo := deps.Keys;
      while todo != {}
        invariant todo <= deps.Keys && deps.Keys - todo <= expandedDeps.Keys <= deps.Keys
        invariant MemoRight() && rootTargets == {}
      {
        var id :| id in todo;
        loop := ExpandTargetDeps(id);
        if loop.LoopFound? {
          return;
        }
        todo := todo - {id};
      }
      loop := Expanded([]);
      forall k ensures !Reaches(deps, k, k) {
        if Reaches(deps, k, k) {
          ReachedIsTarget(deps, k, k);
          ExpandedMeansNoLoop(deps, k, expandedDeps[k], k);
        }
      }
    }

    /** Records, for every target, who depends on it directly and who depends on it at all. */
    method ExpandDependents()
      requires Closed(deps) && MemoRight() && expandedDeps.Keys == deps.Keys
      requires dependents == map k | k in deps :: {}
      requires expandedDependents == map k | k in deps :: {}
      modifies `dependents, `expandedDependents
      ensures dependents == map d | d in deps :: DirectDependents(deps, d)
      ensures expandedDependents == map d | d in deps :: AllDependents(deps, d)
    {
      hide Recorded, ExpansionOf, DirectDependents, AllDependents, Reaches;
      var todo := deps.Keys;
      ghost var done: set<Key> := {};
      NothingRecorded(deps, deps);
      NothingRecorded(deps, expandedDeps);
      while todo != {}
        invariant todo + done == deps.Keys && todo !! done
        invariant dependents == Recorded(deps, deps, done)
        invariant expandedDependents == Recorded(deps, expandedDeps, done)
      {
        var key :| key in todo;
        ExpansionStaysInside(deps, key, expandedDeps[key]);
        RecordOneMore(deps, deps, done, key);
        RecordOneMore(deps, expandedDeps, done, key);
        dependents := AddToAll(dependents, deps[key], key);
        expandedDependents := AddToAll(expandedDependents, expandedDeps[key], key);
        todo, done := todo - {key}, done + {key};
      }
      assert done == deps.Keys;
      AllRecorded(deps, expandedDeps);
    }

    /** Kahn's algorithm with a last-in first-out work list. */
    method TopologicalSort() returns (r: Sorting)
      requires Closed(deps) && dependents == map d | d in deps :: DirectDependents(deps, d)
      ensures r.Sorted? <==> Orderable(deps)
      ensures r.Sorted? ==> IsDependencyOrder(deps, r.keys)
    {
      var numPreds, q := CountPredecessors(deps);
      var sorted: seq<Key> := [];
      while q != []
        invariant WorkRight(deps, numPreds, q, sorted)
        decreases |deps| - |sorted|
      {
        var key := q[|q| - 1];
        PoppedWork(deps, numPreds, q, sorted);
        numPreds, q := Release(deps, numPreds, q[..|q| - 1], sorted, key, dependents[key]);
        sorted := sorted + [key];
        SortedWithin(deps, numPreds, q, sorted);
      }
      SortedAllIffOrderable(deps, numPreds, sorted);
      r := if |sorted| == |deps| then Sorted(sorted) else LengthMismatch(sorted);
    }

    /** Expand, reverse, sort. */
    method AnalyzeDeps() returns (r: Analysis)
      requires Closed(deps) && expandedDeps == map[] && rootTargets == {}
      requires dependents == map k | k in deps :: {}
      requires expandedDependents == map k | k in deps :: {}
      modifies this
      ensures r.Loop? <==> !Acyclic(deps)
      ensures r.Order? <==> Orderable(deps)
      ensures r.Order? ==> IsDependencyOrder(deps, r.keys)
      ensures !r.Loop? ==>
        && expandedDeps.Keys == deps.Keys && MemoRight()
        && dependents == (map d | d in deps :: DirectDependents(deps, d))
        && expandedDependents == map d | d in deps :: AllDependents(deps, d)
      ensures r.SortFailed? ==> exists k :: k in deps && !NoDuplicates(deps[k])
    {
      var expansion := ExpandDeps();
      if expansion.LoopFound? {
        return Loop(expansion.at);
      }
      ExpandDependents();
      var sorting := TopologicalSort();
      r := if sorting.Sorted? then Order(sorting.keys) else SortFailed;
    }
  }

  // ---- The order inside an expansion ----

  /** raw lists each of ds followed by its own memoised list. */
  ghost predicate Laid(memo: map<Key, seq<Key>>, ds: seq<Key>, raw: seq<Key>)
    decreases |ds|
  {
    if ds == [] then raw == []
    else
      var d := ds[|ds| - 1];
      d in memo && |raw| >= 1 + |memo[d]| &&
      var front := raw[..|raw| - 1 - |memo[d]|];
      raw == front + [d] + memo[d] && Laid(memo, ds[..|ds| - 1], front)
  }

  /** Every memoised list is made from the dependencies in their order, each followed by its own list. */
  ghost predicate MadeFromMemo(g: Graph, memo: map<Key, seq<Key>>) {
    forall k | k in memo :: k in g && MadeFrom(g, memo, k)
  }

  ghost predicate MadeFrom(g: Graph, memo: map<Key, seq<Key>>, k: Key)
    requires k in memo && k in g
  {
    exists raw :: Laid(memo, g[k], raw) && memo[k] == KeepLast(raw)
  }

  /** Nothing memoised is lost or changed. */
  ghost predicate Grown(memo: map<Key, seq<Key>>, memo': map<Key, seq<Key>>) {
    forall k | k in memo :: k in memo' && memo'[k] == memo[k]
  }

  lemma GrownNotAtAll(memo: map<Key, seq<Key>>)
    ensures Grown(memo, memo)
  {
  }

  lemma GrownByOne(memo: map<Key, seq<Key>>, id: Key, list: seq<Key>)
    requires id !in memo
    ensures Grown(memo, memo[id := list])
  {
  }

  lemma GrownTwice(a: map<Key, seq<Key>>, b: map<Key, seq<Key>>, c: map<Key, seq<Key>>)
    requires Grown(a, b) && Grown(b, c)
    ensures Grown(a, c)
  {
  }

  lemma NothingLaid(memo: map<Key, seq<Key>>)
    ensures Laid(memo, [], [])
  {
  }

  lemma {:induction false} LaidStays(memo: map<Key, seq<Key>>, memo': map<Key, seq<Key>>, ds: seq<Key>, raw: seq<Key>)
    requires Grown(memo, memo') && Laid(memo, ds, raw)
    ensures Laid(memo', ds, raw)
    decreases |ds|
  {
    if ds != [] {
      LaidStays(memo, memo', ds[..|ds| - 1], raw[..|raw| - 1 - |memo[ds[|ds| - 1]]|]);
    }
  }

  lemma LaidOneMore(memo: map<Key, seq<Key>>, memo': map<Key, seq<Key>>, ds: seq<Key>, i: nat, raw: seq<Key>)
    requires i < |ds| && Grown(memo, memo') && Laid(memo, ds[..i], raw) && ds[i] in memo'
    ensures Laid(memo', ds[..i + 1], raw + [ds[i]] + memo'[ds[i]])
  {
    LaidStays(memo, memo', ds[..i], raw);
    var all := raw + [ds[i]] + memo'[ds[i]];
    assert ds[..i + 1][|ds[..i + 1]| - 1] == ds[i] && ds[..i + 1][..i] == ds[..i];
    assert all[..|all| - 1 - |memo'[ds[i]]|] == raw;
  }

  lemma MemoOneMore(g: Graph, memo: map<Key, seq<Key>>, id: Key, raw: seq<Key>)
    requires MadeFromMemo(g, memo) && id in g && id !in memo && Laid(memo, g[id], raw)
    ensures MadeFromMemo(g, memo[id := KeepLast(raw)])
  {
    hide Laid;
    var memo' := memo[id := KeepLast(raw)];
    forall k | k in memo' ensures k in g && MadeFrom(g, memo', k) {
      if k == id {
        LaidStays(memo, memo', g[id], raw);
      } else {
        var r :| Laid(memo, g[k], r) && memo[k] == KeepLast(r);
        LaidStays(memo, memo', g[k], r);
      }
    }
  }

  /** So on a graph without cycles the expansions are determined, down to their order. */
  lemma {:induction false} ExpansionsDetermined(g: Graph, memo: map<Key, seq<Key>>, other: map<Key, seq<Key>>, k: Key)
    requires MadeFromMemo(g, memo) && MadeFromMemo(g, other) && k in memo && k in other
    requires ExpansionOf(g, k, memo[k]) && forall y | y in memo && y in memo[k] :: ExpansionOf(g, y, memo[y])
    requires forall y | y in memo[k] :: y in memo && y in other
    ensures memo[k] == other[k]
    decreases |memo[k]|
  {
    var raw :| Laid(memo, g[k], raw) && memo[k] == KeepLast(raw);
    var raw' :| Laid(other, g[k], raw') && other[k] == KeepLast(raw');
    KeepLastElements(raw);
    forall d | d in g[k] ensures d in memo && d in other && memo[d] == other[d] {
      assert Edge(g, k, d);
      EdgeReaches(g, k, d);
      assert d in memo[k];
      SmallerExpansion(g, k, memo[k], d, memo[d]);
      ExpansionsDetermined(g, memo, other, d);
    }
    SameLaid(memo, other, g[k], raw, raw');
  }

  lemma SmallerExpansion(g: Graph, k: Key, s: seq<Key>, d: Key, t: seq<Key>)
    requires ExpansionOf(g, k, s) && ExpansionOf(g, d, t) && Reaches(g, k, d)
    ensures |t| < |s| && forall y | y in t :: y in s
  {
    forall y | y in t ensures y in s {
      ReachesTransitive(g, k, d, y);
    }
    ExpandedMeansNoLoop(g, k, s, d);
    DistinctCount(s);
    DistinctCount(t);
    assert Elements(t) + {d} <= Elements(s) && d !in Elements(t);
    SubsetCount(Elements(t) + {d}, Elements(s));
  }

  lemma {:induction false} SameLaid(
    memo: map<Key, seq<Key>>, other: map<Key, seq<Key>>, ds: seq<Key>, raw: seq<Key>, raw': seq<Key>)
    requires Laid(memo, ds, raw) && Laid(other, ds, raw')
    requires forall d | d in ds :: d in memo && d in other && memo[d] == other[d]
    ensures raw == raw'
    decreases |ds|
  {
    if ds != [] {
      var d := ds[|ds| - 1];
      assert d in ds;
      var n, n' := |raw| - 1 - |memo[d]|, |raw'| - 1 - |memo[d]|;
      SameLaid(memo, other, ds[..|ds| - 1], raw[..n], raw'[..n']);
    }
  }

  /** In a dependency order indirect dependencies come first as well. */
  lemma IndirectDepsComeFirst(g: Graph, s: seq<Key>, i: nat, j: nat)
    requires IsDependencyOrder(g, s) && i < |s| && j < |s|
    requires Reaches(g, s[i], s[j])
    ensures j < i
  {
    var p :| Connects(g, p, s[i], s[j]);
    PathStaysBefore(g, s, p, i);
  }

  /** The initial counters, and the targets without dependencies. */
  method CountPredecessors(g: Graph) returns (numPreds: map<Key, int>, q: seq<Key>)
    ensures WorkRight(g, numPreds, q, [])
  {
    numPreds, q := map[], [];
    var todo := g.Keys;
    while todo != {}
      invariant todo <= g.Keys && numPreds.Keys == g.Keys - todo
      invariant forall k | k in numPreds :: numPreds[k] == |g[k]|
      invariant NoDuplicates(q) && forall k :: k in q <==> k in numPreds && numPreds[k] == 0
    {
      var key :| key in todo;
      numPreds := numPreds[key := |g[key]|];
      if numPreds[key] == 0 {
        q := q + [key];
      }
      todo := todo - {key};
    }
    forall k | k in g ensures Missing(g, k, Elements([])) == |g[k]| {
      assert (set d | d in g[k] && d in Elements([])) == {};
    }
  }

  /** Knocks down the counter of every dependent of key and queues those that reach zero. */
  method Release(
    g: Graph, numPreds0: map<Key, int>, q0: seq<Key>, ghost sorted: seq<Key>, key: Key, dependents: set<Key>)
    returns (numPreds: map<Key, int>, q: seq<Key>)
    requires WorkRight(g, numPreds0, q0 + [key], sorted) && key !in q0
    requires key in g && dependents == DirectDependents(g, key)
    ensures WorkRight(g, numPreds, q, sorted + [key])
  {
    hide Missing, DepsBefore, Elements;
    numPreds, q := numPreds0, q0;
    ghost var S, S' := Elements(sorted), Elements(sorted + [key]);
    ReleaseStart(g, numPreds0, q0, sorted, key);
    forall k | k in g && k !in dependents ensures Missing(g, k, S') == Missing(g, k, S) {
      MissingDrops(g, k, S, key);
    }
    var todo := dependents;
    while todo != {}
      invariant todo <= dependents && numPreds.Keys == g.Keys
      invariant forall k | k in g :: numPreds[k] == Missing(g, k, if k in todo then S else S')
      invariant NoDuplicates(q)
      invariant forall k :: k in q <==> k in q0 || (k in dependents - todo && numPreds[k] == 0)
    {
      var dep :| dep in todo;
      ReleasedWasWaiting(g, dep, key, S);
      numPreds := numPreds[dep := numPreds[dep] - 1];
      if numPreds[dep] == 0 {
        assert dep !in q0 by { assert dep in q0 ==> dep in q0 + [key]; }
        q := q + [dep];
      }
      todo := todo - {dep};
    }
    ReleasedWork(g, numPreds0, q0, numPreds, q, sorted, key);
  }

  /** Adds key to the set of every element of ds. */
  method AddToAll(m: map<Key, set<Key>>, ds: seq<Key>, key: Key) returns (r: map<Key, set<Key>>)
    requires forall d | d in ds :: d in m
    ensures r == map d | d in m :: if d in ds then m[d] + {key} else m[d]
  {
    r := m;
    for i := 0 to |ds|
      invariant r == map d | d in m :: if d in ds[..i] then m[d] + {key} else m[d]
    {
      r := r[ds[i] := r[ds[i]] + {key}];
    }
  }

  ghost function DirectDependents(g: Graph, d: Key): set<Key> {
    set k | k in g && d in g[k]
  }

  /** For every target, the members of done whose list holds it. */
  ghost function Recorded(g: Graph, lists: map<Key, seq<Key>>, done: set<Key>): map<Key, set<Key>> {
    map d | d in g :: set k | k in done && k in lists && d in lists[k]
  }

  lemma NothingRecorded(g: Graph, lists: map<Key, seq<Key>>)
    ensures Recorded(g, lists, {}) == map k | k in g :: {}
  {
    var none: map<Key, set<Key>> := map k | k in g :: {};
    forall d | d in g ensures Recorded(g, lists, {})[d] == none[d] {
    }
  }

  lemma ExpansionStaysInside(g: Graph, k: Key, s: seq<Key>)
    requires Closed(g) && ExpansionOf(g, k, s)
    ensures forall d | d in s :: d in g
  {
    forall d | d in s ensures d in g {
      ReachedIsTarget(g, k, d);
    }
  }

  lemma RecordOneMore(g: Graph, lists: map<Key, seq<Key>>, done: set<Key>, key: Key)
    requires key in lists && forall d | d in lists[key] :: d in g
    ensures Recorded(g, lists, done).Keys == g.Keys
    ensures Recorded(g, lists, done + {key})
         == map d | d in Recorded(g, lists, done) ::
              if d in lists[key] then Recorded(g, lists, done)[d] + {key} else Recorded(g, lists, done)[d]
  {
    forall d | d in g
      ensures Recorded(g, lists, done + {key})[d]
           == if d in lists[key] then Recorded(g, lists, done)[d] + {key} else Recorded(g, lists, done)[d]
    {
    }
  }

  lemma AllRecorded(g: Graph, expanded: map<Key, seq<Key>>)
    requires expanded.Keys == g.Keys && forall k | k in expanded :: ExpansionOf(g, k, expanded[k])
    ensures Recorded(g, g, g.Keys) == map d | d in g :: DirectDependents(g, d)
    ensures Recorded(g, expanded, g.Keys) == map d | d in g :: AllDependents(g, d)
  {
    forall d | d in g
      ensures Recorded(g, g, g.Keys)[d] == DirectDependents(g, d)
      ensures Recorded(g, expanded, g.Keys)[d] == AllDependents(g, d)
    {
    }
  }

  ghost function AllDependents(g: Graph, d: Key): set<Key> {
    set k | k in g && Reaches(g, k, d)
  }

  ghost function Elements(s: seq<Key>): set<Key> {
    set k | k in s
  }

  /** The number of entries of k's dependency list not accounted for by the targets of S. */
  ghost function Missing(g: Graph, k: Key, S: set<Key>): int
    requires k in g
  {
    |g[k]| - |set d | d in g[k] && d in S|
  }

  /** Every target once, each after all its direct dependencies. */
  ghost predicate IsDependencyOrder(g: Graph, s: seq<Key>) {
    && NoDuplicates(s) && Elements(s) == g.Keys
    && forall i | 0 <= i < |s| :: DepsBefore(g, s, i)
  }

  ghost predicate DepsBefore(g: Graph, s: seq<Key>, i: nat)
    requires i < |s|
  {
    s[i] in g && forall d | d in g[s[i]] :: d in s[..i]
  }

  /** Between two rounds: the counters are right and the work list holds the ready targets. */
  ghost predicate WorkRight(g: Graph, numPreds: map<Key, int>, q: seq<Key>, sorted: seq<Key>) {
    && numPreds.Keys == g.Keys
    && NoDuplicates(q) && NoDuplicates(sorted)
    && (forall k | k in g :: numPreds[k] == Missing(g, k, Elements(sorted)))
    && (forall k :: k in q || k in sorted <==> k in g && numPreds[k] == 0)
    && (forall k :: !(k in q && k in sorted))
    && (forall i | 0 <= i < |sorted| :: DepsBefore(g, sorted, i))
  }

  lemma MissingDrops(g: Graph, k: Key, S: set<Key>, key: Key)
    requires k in g && key !in S
    ensures Missing(g, k, S + {key}) == Missing(g, k, S) - (if key in g[k] then 1 else 0)
  {
    var a, b := set d | d in g[k] && d in S, set d | d in g[k] && d in S + {key};
    if key in g[k] {
      assert b == a + {key};
    } else {
      assert b == a;
    }
  }

  /** y is one of ds or a dependency of one of them. */
  ghost predicate ReachedVia(g: Graph, ds: seq<Key>, y: Key) {
    exists i | 0 <= i < |ds| :: y == ds[i] || Reaches(g, ds[i], y)
  }

  /** The list before de-duplication, once the dependencies ds have been handled. */
  ghost predicate RawList(g: Graph, ds: seq<Key>, raw: seq<Key>) {
    DepsFollow(g, raw) && forall y :: y in raw <==> ReachedVia(g, ds, y)
  }

  lemma NoDepsYet(g: Graph)
    ensures RawList(g, [], [])
  {
  }

  /** One more dependency: itself, then its expansion. */
  lemma RawListOneMore(g: Graph, ds: seq<Key>, i: nat, raw: seq<Key>, sub: seq<Key>)
    requires i < |ds| && RawList(g, ds[..i], raw) && ExpansionOf(g, ds[i], sub)
    ensures RawList(g, ds[..i + 1], raw + [ds[i]] + sub)
  {
    var raw' := raw + [ds[i]] + sub;
    SegmentFollows(g, ds[i], sub);
    DepsFollowConcat(g, raw, [ds[i]] + sub);
    assert raw' == raw + ([ds[i]] + sub);
    forall y ensures y in raw' <==> ReachedVia(g, ds[..i + 1], y) {
      ReachedViaOneMore(g, ds, i, y);
      assert y in raw' <==> y in raw || y == ds[i] || y in sub;
    }
  }

  lemma ReachedViaOneMore(g: Graph, ds: seq<Key>, i: nat, y: Key)
    requires i < |ds|
    ensures ReachedVia(g, ds[..i + 1], y) <==> ReachedVia(g, ds[..i], y) || y == ds[i] || Reaches(g, ds[i], y)
  {
    hide Reaches;
    if ReachedVia(g, ds[..i], y) {
      var j :| 0 <= j < i && (y == ds[..i][j] || Reaches(g, ds[..i][j], y));
      assert ds[..i + 1][j] == ds[..i][j];
    }
    if y == ds[i] || Reaches(g, ds[i], y) {
      assert ds[..i + 1][i] == ds[i];
    }
    if ReachedVia(g, ds[..i + 1], y) {
      var j :| 0 <= j < i + 1 && (y == ds[..i + 1][j] || Reaches(g, ds[..i + 1][j], y));
      if j < i {
        assert ds[..i][j] == ds[..i + 1][j];
      }
    }
  }

  /** Everything reached through the direct dependencies, de-duplicated, is the expansion. */
  lemma UniqueIsExpansion(g: Graph, id: Key, raw: seq<Key>)
    requires id in g && RawList(g, g[id], raw)
    ensures ExpansionOf(g, id, KeepLast(raw))
  {
    KeepLastElements(raw);
    KeepLastKeepsOrder(g, raw);
    forall y ensures ReachedVia(g, g[id], y) <==> Reaches(g, id, y) {
      if ReachedVia(g, g[id], y) {
        var i :| 0 <= i < |g[id]| && (y == g[id][i] || Reaches(g, g[id][i], y));
        assert Edge(g, id, g[id][i]);
        EdgeReaches(g, id, g[id][i]);
        if y != g[id][i] {
          ReachesTransitive(g, id, g[id][i], y);
        }
      }
      if Reaches(g, id, y) {
        var d := FirstStep(g, id, y);
        var i :| 0 <= i < |g[id]| && g[id][i] == d;
      }
    }
  }

  /** A dependent of a target that was just sorted was not ready before. */
  lemma ReleasedWasWaiting(g: Graph, k: Key, key: Key, S: set<Key>)
    requires k in g && key in g[k] && key !in S
    ensures Missing(g, k, S + {key}) == Missing(g, k, S) - 1
    ensures Missing(g, k, S) > 0
  {
    MissingDrops(g, k, S, key);
    ReadyMeansAllDone(g, k, S);
  }

  lemma ReleaseStart(g: Graph, numPreds: map<Key, int>, q: seq<Key>, sorted: seq<Key>, key: Key)
    requires WorkRight(g, numPreds, q + [key], sorted)
    ensures NoDuplicates(q) && key !in Elements(sorted) && Elements(sorted + [key]) == Elements(sorted) + {key}
    ensures forall k | k in g :: numPreds[k] == Missing(g, k, Elements(sorted))
    ensures forall k | k in q :: k in g && numPreds[k] == 0
    ensures key in g && numPreds[key] == 0
    ensures forall k | k in g && numPreds[k] == 0 :: k in q || k == key || k in sorted
    ensures forall k | k in q :: k !in sorted
  {
    hide Missing, DepsBefore;
    assert forall k :: k in q + [key] <==> k in q || k == key;
    assert (q + [key])[|q|] == key;
    forall i, j | 0 <= i < j < |q| ensures q[i] != q[j] {
      assert (q + [key])[i] != (q + [key])[j];
    }
  }

  lemma ReleasedWork(
    g: Graph, numPreds0: map<Key, int>, q0: seq<Key>, numPreds: map<Key, int>, q: seq<Key>, sorted: seq<Key>, key: Key)
    requires WorkRight(g, numPreds0, q0 + [key], sorted) && key !in q0 && key in g
    requires numPreds.Keys == g.Keys && NoDuplicates(q)
    requires forall k | k in g :: numPreds[k] == Missing(g, k, Elements(sorted + [key]))
    requires forall k :: k in q <==> k in q0 || (k in DirectDependents(g, key) && numPreds[k] == 0)
    ensures WorkRight(g, numPreds, q, sorted + [key])
  {
    hide Missing, DepsBefore;
    ReleaseStart(g, numPreds0, q0, sorted, key);
    var S, S' := Elements(sorted), Elements(sorted + [key]);
    forall k | k in g
      ensures k in DirectDependents(g, key) ==> Missing(g, k, S') == Missing(g, k, S) - 1 && Missing(g, k, S) > 0
      ensures k !in DirectDependents(g, key) ==> Missing(g, k, S') == Missing(g, k, S)
    {
      MissingDrops(g, k, S, key);
      if key in g[k] {
        ReleasedWasWaiting(g, k, key, S);
      }
    }
    SortedOneMore(g, sorted, key);
  }

  lemma SortedOneMore(g: Graph, sorted: seq<Key>, key: Key)
    requires key in g && Missing(g, key, Elements(sorted)) == 0
    requires forall i | 0 <= i < |sorted| :: DepsBefore(g, sorted, i)
    ensures forall i | 0 <= i < |sorted + [key]| :: DepsBefore(g, sorted + [key], i)
  {
    ReadyMeansAllDone(g, key, Elements(sorted));
    forall i | 0 <= i < |sorted + [key]| ensures DepsBefore(g, sorted + [key], i) {
      assert (sorted + [key])[..i] == sorted[..i];
      if i < |sorted| {
        assert DepsBefore(g, sorted, i);
      }
    }
  }

  lemma PoppedWork(g: Graph, numPreds: map<Key, int>, q: seq<Key>, sorted: seq<Key>)
    requires WorkRight(g, numPreds, q, sorted) && q != []
    ensures var key, rest := q[|q| - 1], q[..|q| - 1];
      key in g && key !in rest && q == rest + [key]
  {
    hide Missing, DepsBefore, Elements;
    assert q[|q| - 1] in q;
  }

  lemma SortedWithin(g: Graph, numPreds: map<Key, int>, q: seq<Key>, sorted: seq<Key>)
    requires WorkRight(g, numPreds, q, sorted)
    ensures |sorted| <= |g|
  {
    DistinctCount(sorted);
    assert Elements(sorted) <= g.Keys;
    SubsetCount(Elements(sorted), g.Keys);
  }

  // ---- Kahn's algorithm reaches every target exactly when it can ----

  ghost predicate Orderable(g: Graph) {
    Acyclic(g) && forall k | k in g :: NoDuplicates(g[k])
  }

  /** The same dependency twice: no cycle, but no order the sort could find either. */
  lemma DuplicateIsNotOrderable(a: Key, b: Key)
    requires a != b
    ensures var g: Graph := map[a := [], b := [a, a]];
      Closed(g) && Acyclic(g) && !Orderable(g)
  {
    var g: Graph := map[a := [], b := [a, a]];
    forall k, p ensures !Connects(g, p, k, k) {
      if |p| >= 2 && IsPath(g, p) {
        assert Edge(g, p[0], p[1]) && (|p| > 2 ==> Edge(g, p[1], p[2]));
      }
    }
    assert g[b][0] == g[b][1];
  }

  /** On such a graph the pipeline finds no loop and the sort comes out too short. */
  method SortDuplicate(a: Key, b: Key) returns (loop: Expansion, r: Sorting)
    requires a != b
    ensures loop.Expanded? && r.LengthMismatch?
  {
    var g: Graph := map[a := [], b := [a, a]];
    DuplicateIsNotOrderable(a, b);
    var targets := new Targets(g);
    loop := targets.ExpandDeps();
    targets.ExpandDependents();
    r := targets.TopologicalSort();
  }

  lemma NoDuplicatesOneMore(t: seq<Key>, x: Key)
    ensures NoDuplicates(t + [x]) <==> NoDuplicates(t) && x !in t
    ensures Elements(t + [x]) == Elements(t) + {x}
  {
    var s := t + [x];
    if NoDuplicates(s) {
      forall i, j | 0 <= i < j < |t| ensures t[i] != t[j] {
        assert s[i] != s[j];
      }
      forall i | 0 <= i < |t| ensures t[i] != x {
        assert s[i] != s[|t|];
      }
    }
  }

  lemma {:induction false} DistinctCount(s: seq<Key>)
    ensures |Elements(s)| <= |s|
    ensures |Elements(s)| == |s| <==> NoDuplicates(s)
  {
    if s != [] {
      var t, x := s[..|s| - 1], s[|s| - 1];
      assert s == t + [x];
      NoDuplicatesOneMore(t, x);
      DistinctCount(t);
      assert x in t <==> x in Elements(t);
    }
  }

  lemma SubsetCount(a: set<Key>, b: set<Key>)
    requires a <= b
    ensures |a| <= |b|
    ensures |a| == |b| ==> a == b
  {
    assert b == a + (b - a);
    assert |b| == |a| + |b - a|;
  }

  /** A counter is down to zero exactly when the list has no duplicates and all of it is done. */
  lemma ReadyMeansAllDone(g: Graph, k: Key, S: set<Key>)
    requires k in g
    ensures Missing(g, k, S) >= 0
    ensures Missing(g, k, S) == 0 <==> NoDuplicates(g[k]) && forall d | d in g[k] :: d in S
  {
    var done := set d | d in g[k] && d in S;
    DistinctCount(g[k]);
    SubsetCount(done, Elements(g[k]));
    if forall d | d in g[k] :: d in S {
      assert done == Elements(g[k]);
    }
    if Missing(g, k, S) == 0 {
      assert done == Elements(g[k]);
      forall d | d in g[k] ensures d in S {
        assert d in Elements(g[k]);
      }
    }
  }

  /** Along a path from the i-th sorted target everything lies before it. */
  lemma {:induction false} PathStaysBefore(g: Graph, s: seq<Key>, p: seq<Key>, i: nat)
    requires forall j | 0 <= j < |s| :: DepsBefore(g, s, j)
    requires i < |s| && |p| >= 2 && IsPath(g, p) && p[0] == s[i]
    ensures p[|p| - 1] in s[..i]
    decreases |p|
  {
    assert DepsBefore(g, s, i);
    assert Edge(g, p[0], p[1]);
    if |p| > 2 {
      var j :| 0 <= j < i && s[..i][j] == p[1];
      forall m | 0 <= m < |p[1..]| - 1 ensures Edge(g, p[1..][m], p[1..][m + 1]) {
        assert Edge(g, p[m + 1], p[m + 2]);
      }
      PathStaysBefore(g, s, p[1..], j);
      var m :| 0 <= m < j && s[..j][m] == p[1..][|p[1..]| - 1];
      assert s[..i][m] == s[..j][m];
    }
  }

  ghost function ReachSet(g: Graph, k: Key): set<Key> {
    set d | d in g && Reaches(g, k, d)
  }

  /** In an acyclic graph the set of dependencies shrinks along an edge. */
  lemma ReachSetShrinks(g: Graph, a: Key, d: Key)
    requires Closed(g) && Acyclic(g) && Edge(g, a, d)
    ensures |ReachSet(g, d)| < |ReachSet(g, a)|
  {
    EdgeReaches(g, a, d);
    forall y | y in ReachSet(g, d) ensures y in ReachSet(g, a) {
      ReachesTransitive(g, a, d, y);
    }
    assert d in ReachSet(g, a) && d !in ReachSet(g, d);
    SubsetCount(ReachSet(g, d), ReachSet(g, a));
  }

  /** A target left unsorted has an unsorted dependency, and so on down: impossible without a cycle. */
  lemma {:induction false} NoneLeftBehind(g: Graph, S: set<Key>, k: Key)
    requires Closed(g) && Orderable(g) && k in g
    requires forall x | x in g :: x in S <==> Missing(g, x, S) == 0
    ensures k in S
    decreases |ReachSet(g, k)|
  {
    ReadyMeansAllDone(g, k, S);
    if k !in S {
      var d :| d in g[k] && d !in S;
      assert Edge(g, k, d);
      ReachSetShrinks(g, k, d);
      NoneLeftBehind(g, S, d);
    }
  }

  lemma SortedAllIffOrderable(g: Graph, numPreds: map<Key, int>, sorted: seq<Key>)
    requires Closed(g) && WorkRight(g, numPreds, [], sorted)
    ensures |sorted| == |g| <==> Orderable(g)
    ensures |sorted| == |g| ==> IsDependencyOrder(g, sorted)
  {
    var S := Elements(sorted);
    assert forall x :: x in S <==> x in sorted;
    assert S <= g.Keys;
    DistinctCount(sorted);
    SubsetCount(S, g.Keys);
    if |sorted| == |g| {
      forall k | k in g ensures NoDuplicates(g[k]) {
        ReadyMeansAllDone(g, k, S);
      }
      forall k ensures !Reaches(g, k, k) {
        if Reaches(g, k, k) {
          ReachedIsTarget(g, k, k);
          var p :| Connects(g, p, k, k);
          var i :| 0 <= i < |sorted| && sorted[i] == k;
          PathStaysBefore(g, sorted, p, i);
        }
      }
    }
    if Orderable(g) {
      forall k | k in g ensures k in S {
        NoneLeftBehind(g, S, k);
      }
      assert S == g.Keys;
    }
  }
}
