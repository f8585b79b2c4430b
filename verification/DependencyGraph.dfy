/**
 Reachability in the graph of build targets, and the shape an expanded
 dependency list must have.
 */
module DependencyGraph {

  type Key = string

  /** Every target with its direct dependencies, in the order of the BUILD file. */
  type Graph = map<Key, seq<Key>>

  /** Every dependency is itself a known target. */
  ghost predicate Closed(g: Graph) {
    forall k, d | k in g && d in g[k] :: d in g
  }

  ghost predicate Edge(g: Graph, a: Key, b: Key) {
    a in g && b in g[a]
  }

  ghost predicate IsPath(g: Graph, p: seq<Key>) {
    forall i | 0 <= i < |p| - 1 :: Edge(g, p[i], p[i + 1])
  }

  ghost predicate Connects(g: Graph, p: seq<Key>, a: Key, b: Key) {
    |p| >= 2 && IsPath(g, p) && p[0] == a && p[|p| - 1] == b
  }

  /** b is a dependency of a, direct or indirect. */
  ghost predicate Reaches(g: Graph, a: Key, b: Key) {
    exists p :: Connects(g, p, a, b)
  }

  ghost predicate Acyclic(g: Graph) {
    forall k :: !Reaches(g, k, k)
  }

  lemma EdgeReaches(g: Graph, a: Key, b: Key)
    requires Edge(g, a, b)
    ensures Reaches(g, a, b)
  {
    assert Connects(g, [a, b], a, b);
  }

  lemma ReachesTransitive(g: Graph, a: Key, b: Key, c: Key)
    requires Reaches(g, a, b) && Reaches(g, b, c)
    ensures Reaches(g, a, c)
  {
    var p :| Connects(g, p, a, b);
    var q :| Connects(g, q, b, c);
    var r := p + q[1..];
    forall i | 0 <= i < |r| - 1 ensures Edge(g, r[i], r[i + 1]) {
      if i < |p| - 1 {
        assert Edge(g, p[i], p[i + 1]);
      } else {
        assert Edge(g, q[i + 1 - |p|], q[i + 2 - |p|]);
      }
    }
    assert Connects(g, r, a, c);
  }

  /** The first step of a path. */
  lemma FirstStep(g: Graph, a: Key, c: Key) returns (d: Key)
    requires Reaches(g, a, c)
    ensures Edge(g, a, d) && (d == c || Reaches(g, d, c))
  {
    var p :| Connects(g, p, a, c);
    d := p[1];
    assert Edge(g, p[0], p[1]);
    if |p| > 2 {
      forall i | 0 <= i < |p[1..]| - 1 ensures Edge(g, p[1..][i], p[1..][i + 1]) {
        assert Edge(g, p[i + 1], p[i + 2]);
      }
      assert Connects(g, p[1..], d, c);
    }
  }

  lemma ReachedIsTarget(g: Graph, a: Key, c: Key)
    requires Closed(g) && Reaches(g, a, c)
    ensures a in g && c in g
  {
    var p :| Connects(g, p, a, c);
    assert Edge(g, p[0], p[1]);
    assert Edge(g, p[|p| - 2], p[|p| - 1]);
  }

  // ---- Lists of dependencies ----

  ghost predicate NoDuplicates(s: seq<Key>) {
    forall i, j | 0 <= i < j < |s| :: s[i] != s[j]
  }

  /** Whatever an element depends on comes again later in the list. */
  ghost predicate DepsFollow(g: Graph, s: seq<Key>) {
    s == [] || ((forall y | Reaches(g, s[0], y) :: y in s[1..]) && DepsFollow(g, s[1..]))
  }

  /** s lists exactly the dependencies of k, each once and before its own dependencies. */
  ghost predicate ExpansionOf(g: Graph, k: Key, s: seq<Key>) {
    && NoDuplicates(s)
    && (forall y :: y in s <==> Reaches(g, k, y))
    && DepsFollow(g, s)
  }

  lemma {:induction false} DepsFollowAt(g: Graph, s: seq<Key>, i: nat, y: Key) returns (j: nat)
    requires DepsFollow(g, s) && i < |s| && Reaches(g, s[i], y)
    ensures i < j < |s| && s[j] == y
  {
    if i == 0 {
      j :| 0 <= j < |s[1..]| && s[1..][j] == y;
      j := j + 1;
    } else {
      j := DepsFollowAt(g, s[1..], i - 1, y);
      j := j + 1;
    }
  }

  /** In an expansion, a target stands before everything it depends on. */
  lemma ExpansionInLinkOrder(g: Graph, k: Key, s: seq<Key>, i: nat, j: nat)
    requires ExpansionOf(g, k, s) && i < |s| && j < |s|
    requires Reaches(g, s[i], s[j])
    ensures i < j
  {
    var j' := DepsFollowAt(g, s, i, s[j]);
    assert j' == j;
  }

  /** A target that has an expansion lies on no cycle and reaches none. */
  lemma ExpandedMeansNoLoop(g: Graph, k: Key, s: seq<Key>, y: Key)
    requires ExpansionOf(g, k, s) && (y == k || Reaches(g, k, y))
    ensures !Reaches(g, y, y)
  {
    if Reaches(g, y, y) {
      assert y in s;
      var i :| 0 <= i < |s| && s[i] == y;
      var j := DepsFollowAt(g, s, i, y);
    }
  }

  lemma {:induction false} DepsFollowConcat(g: Graph, s: seq<Key>, t: seq<Key>)
    requires DepsFollow(g, s) && DepsFollow(g, t)
    ensures DepsFollow(g, s + t)
  {
    if s == [] {
      assert s + t == t;
    } else {
      assert (s + t)[1..] == s[1..] + t;
      DepsFollowConcat(g, s[1..], t);
    }
  }

  /** Keeps the last occurrence of each element. */
  function KeepLast(s: seq<Key>): seq<Key> {
    if s == [] then []
    else if s[0] in s[1..] then KeepLast(s[1..])
    else [s[0]] + KeepLast(s[1..])
  }

  lemma {:induction false} KeepLastElements(s: seq<Key>)
    ensures forall y :: y in KeepLast(s) <==> y in s
    ensures NoDuplicates(KeepLast(s))
  {
    if s != [] {
      KeepLastElements(s[1..]);
      assert forall y :: y in s <==> y == s[0] || y in s[1..];
      if s[0] !in s[1..] {
        forall i, j | 0 <= i < j < |KeepLast(s)| ensures KeepLast(s)[i] != KeepLast(s)[j] {
          assert KeepLast(s)[j] == KeepLast(s[1..])[j - 1];
          assert KeepLast(s)[j] in KeepLast(s[1..]);
          if i > 0 {
            assert KeepLast(s)[i] == KeepLast(s[1..])[i - 1];
          }
        }
      }
    }
  }

  /** Keeping the last occurrences keeps link order. */
  lemma {:induction false} KeepLastKeepsOrder(g: Graph, s: seq<Key>)
    requires DepsFollow(g, s)
    ensures DepsFollow(g, KeepLast(s))
  {
    if s != [] {
      KeepLastKeepsOrder(g, s[1..]);
      KeepLastElements(s[1..]);
      if s[0] !in s[1..] {
        assert KeepLast(s)[1..] == KeepLast(s[1..]);
      }
    }
  }

  lemma {:induction false} KeepLastOfRest(x: Key, s: seq<Key>)
    ensures KeepLast([x] + s) == if x in s then KeepLast(s) else [x] + KeepLast(s)
  {
    assert ([x] + s)[1..] == s;
  }

  /** The list for one more dependency d: d itself, then its expansion. */
  lemma SegmentFollows(g: Graph, d: Key, s: seq<Key>)
    requires ExpansionOf(g, d, s)
    ensures DepsFollow(g, [d] + s)
  {
    assert ([d] + s)[1..] == s;
  }
}
