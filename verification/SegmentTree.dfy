/**
 Lazy segment tree over positions 1..n (data_structure/segment_tree).

 The tree lives in two arrays indexed like a binary heap. The abstract value of
 a node is the sequence of elements it covers, and every operation is specified
 by what it does to that sequence.
 */
module SegmentTree {

  /** A closed interval of positions. */
  datatype Range = Range(left: nat, right: nat) {
    function Length(): int {
      right - left + 1
    }

    function Middle(): (m: nat)
      ensures m + m <= left + right <= m + m + 1
    {
      (left + right) / 2
    }

    predicate Has(i: int) {
      left <= i <= right
    }

    predicate Meets(r: Range) {
      left <= right && left <= r.right && r.left <= right
    }

    predicate Single(i: int) {
      left == i == right
    }
  }

  const Nowhere := Range(1, 0)

  // ---- Flat sequences: the reference every tree operation is compared with ----

  /** Adds d to the elements of s whose position lies in q; s[0] has position base. */
  function AddIn(s: seq<int>, base: nat, q: Range, d: int): seq<int> {
    seq(|s|, i requires 0 <= i < |s| => if q.Has(base + i) then s[i] + d else s[i])
  }

  /** Adds d to every element. */
  function AddAll(s: seq<int>, d: int): seq<int> {
    seq(|s|, i requires 0 <= i < |s| => s[i] + d)
  }

  /** The sum of the elements of s whose position lies in q; s[0] has position base. */
  function SumIn(s: seq<int>, base: nat, q: Range): int {
    if s == [] then 0
    else (if q.Has(base) then s[0] else 0) + SumIn(s[1..], base + 1, q)
  }

  function Total(s: seq<int>): int {
    if s == [] then 0 else s[0] + Total(s[1..])
  }

  lemma {:induction false} SumInConcat(s: seq<int>, t: seq<int>, base: nat, q: Range)
    ensures SumIn(s + t, base, q) == SumIn(s, base, q) + SumIn(t, base + |s|, q)
  {
    if s == [] {
      assert s + t == t;
    } else {
      assert (s + t)[1..] == s[1..] + t;
      SumInConcat(s[1..], t, base + 1, q);
    }
  }

  lemma {:induction false} SumInMissed(s: seq<int>, base: nat, q: Range)
    requires base + |s| <= q.left || q.right < base
    ensures SumIn(s, base, q) == 0
  {
    if s != [] {
      SumInMissed(s[1..], base + 1, q);
    }
  }

  lemma {:induction false} SumInFull(s: seq<int>, base: nat, q: Range)
    requires q.left <= base && base + |s| - 1 <= q.right
    ensures SumIn(s, base, q) == Total(s)
  {
    if s != [] {
      SumInFull(s[1..], base + 1, q);
    }
  }

  lemma {:induction false} TotalConcat(s: seq<int>, t: seq<int>)
    ensures Total(s + t) == Total(s) + Total(t)
  {
    if s == [] {
      assert s + t == t;
    } else {
      assert (s + t)[1..] == s[1..] + t;
      TotalConcat(s[1..], t);
    }
  }

  /** d added once per position. */
  function Times(d: int, len: nat): int {
    if len == 0 then 0 else d + Times(d, len - 1)
  }

  lemma {:induction false} TotalAddAll(s: seq<int>, d: int)
    ensures Total(AddAll(s, d)) == Total(s) + Times(d, |s|)
  {
    if s != [] {
      assert AddAll(s, d)[1..] == AddAll(s[1..], d);
      TotalAddAll(s[1..], d);
    }
  }

  lemma AddAllTwice(s: seq<int>, d: int, e: int)
    ensures AddAll(AddAll(s, d), e) == AddAll(s, d + e)
  {
  }

  lemma AddAllConcat(s: seq<int>, t: seq<int>, d: int)
    ensures AddAll(s + t, d) == AddAll(s, d) + AddAll(t, d)
  {
  }

  lemma AddNothing(s: seq<int>)
    ensures AddAll(s, 0) == s
  {
  }

  lemma AddInConcat(l: seq<int>, r: seq<int>, base: nat, q: Range, d: int)
    ensures AddIn(l + r, base, q, d) == AddIn(l, base, q, d) + AddIn(r, base + |l|, q, d)
  {
  }

  lemma AddInMissed(s: seq<int>, base: nat, q: Range, d: int)
    requires base + |s| <= q.left || q.right < base
    ensures AddIn(s, base, q, d) == s
  {
    forall i | 0 <= i < |s| ensures AddIn(s, base, q, d)[i] == s[i] {
      assert !q.Has(base + i);
    }
  }

  lemma AddInFull(s: seq<int>, base: nat, q: Range, d: int)
    requires q.left <= base && base + |s| - 1 <= q.right
    ensures AddIn(s, base, q, d) == AddAll(s, d)
  {
    forall i | 0 <= i < |s| ensures AddIn(s, base, q, d)[i] == s[i] + d {
      assert q.Has(base + i);
    }
  }

  lemma {:induction false} TimesIsProduct(d: int, len: nat)
    ensures Times(d, len) == d * len
  {
    if len > 0 {
      TimesIsProduct(d, len - 1);
    }
  }

  lemma {:induction false} TimesSum(d: int, e: int, len: nat)
    ensures Times(d + e, len) == Times(d, len) + Times(e, len)
  {
    if len > 0 {
      TimesSum(d, e, len - 1);
    }
  }

  lemma {:induction false} TimesSplit(d: int, a: nat, b: nat)
    ensures Times(d, a + b) == Times(d, a) + Times(d, b)
  {
    if a > 0 {
      TimesSplit(d, a - 1, b);
    }
  }

  lemma {:induction false} TimesZero(d: int, len: nat)
    requires len >= 1
    ensures Times(d, len) == 0 <==> d == 0
    ensures d > 0 ==> Times(d, len) > 0
    ensures d < 0 ==> Times(d, len) < 0
  {
    if len > 1 {
      TimesZero(d, len - 1);
    }
  }

  // ---- Heap layout ----

  /** The number of positions a node of height h covers. */
  function Width(h: nat): (w: nat)
    ensures w >= 1
  {
    if h == 0 then 1 else Width(h - 1) + Width(h - 1)
  }

  function Left(c: nat): nat {
    c + c
  }

  function Right(c: nat): nat {
    c + c + 1
  }

  /** The index of the leftmost leaf below node c of height h. */
  function FirstLeaf(c: nat, h: nat): (i: nat)
    ensures c <= i
    decreases h
  {
    if h == 0 then c else FirstLeaf(Left(c), h - 1)
  }

  lemma {:induction false} FirstLeafOfRight(c: nat, h: nat)
    requires h > 0
    ensures FirstLeaf(Right(c), h - 1) == FirstLeaf(c, h) + Width(h - 1)
  {
    FirstLeafProduct(Right(c), h - 1);
    FirstLeafProduct(Left(c), h - 1);
    assert (c + c + 1) * Width(h - 1) == (c + c) * Width(h - 1) + Width(h - 1);
  }

  lemma {:induction false} FirstLeafProduct(c: nat, h: nat)
    ensures FirstLeaf(c, h) == c * Width(h)
    decreases h
  {
    if h > 0 {
      FirstLeafProduct(Left(c), h - 1);
      assert (c + c) * Width(h - 1) == c * (Width(h - 1) + Width(h - 1));
    }
  }

  /** Node c, of height h, covers exactly the positions of rg in a tree over 1..n. */
  ghost predicate Covers(n: nat, c: nat, h: nat, rg: Range) {
    && 1 <= c
    && 1 <= rg.left && rg.right <= n
    && rg.right + 1 == rg.left + Width(h)
    && FirstLeaf(c, h) + 1 == n + rg.left
  }

  /** A node covering L positions starts at position c * L - n + 1 and is a valid index of both arrays. */
  lemma NodeLayout(n: nat, c: nat, h: nat, rg: Range)
    requires Covers(n, c, h, rg)
    ensures rg.left == c * rg.Length() - n + 1
    ensures c < n + n
  {
    FirstLeafProduct(c, h);
  }

  function LeftHalf(rg: Range): (r: Range) {
    Range(rg.left, rg.Middle())
  }

  function RightHalf(rg: Range): (r: Range) {
    Range(rg.Middle() + 1, rg.right)
  }

  /** The two halves of an inner node are covered by the two child indices. */
  lemma ChildrenCover(n: nat, c: nat, h: nat, rg: Range)
    requires Covers(n, c, h, rg) && h > 0
    ensures Covers(n, Left(c), h - 1, LeftHalf(rg)) && Covers(n, Right(c), h - 1, RightHalf(rg))
    ensures rg.Middle() + 1 == rg.left + Width(h - 1)
    ensures Right(c) < n + n
  {
    FirstLeafOfRight(c, h);
    NodeLayout(n, Right(c), h - 1, RightHalf(rg));
  }

  /** Index i lies in the subtree rooted at c. */
  ghost predicate Under(c: nat, i: nat) {
    i == c || (i > c && Under(c, i / 2))
  }

  lemma {:induction false} UnderChild(c: nat, i: nat)
    requires c >= 1
    requires Under(Left(c), i) || Under(Right(c), i)
    ensures Under(c, i) && i > c
    decreases i
  {
    if i != Left(c) && i != Right(c) {
      UnderChild(c, i / 2);
    }
  }

  lemma {:induction false} ChildrenDisjoint(c: nat, i: nat)
    requires c >= 1
    ensures !(Under(Left(c), i) && Under(Right(c), i))
    decreases i
  {
    if i > Right(c) {
      ChildrenDisjoint(c, i / 2);
    }
  }

  /** Two versions of an array agree on the subtree of c. */
  ghost predicate SameUnder(s: seq<int>, s': seq<int>, c: nat) {
    |s| == |s'| && forall i | 0 <= i < |s| && Under(c, i) :: s[i] == s'[i]
  }

  /** Two versions of an array agree everywhere outside the subtree of c. */
  ghost predicate SameOutside(s: seq<int>, s': seq<int>, c: nat) {
    |s| == |s'| && forall i | 0 <= i < |s| && !Under(c, i) :: s[i] == s'[i]
  }

  lemma SameUnderChildren(s: seq<int>, s': seq<int>, c: nat)
    requires c >= 1 && SameUnder(s, s', c)
    ensures SameUnder(s, s', Left(c)) && SameUnder(s, s', Right(c)) && At(s, c) == At(s', c)
  {
    assert Under(c, c);
    forall i | 0 <= i < |s| && (Under(Left(c), i) || Under(Right(c), i)) ensures s[i] == s'[i] {
      UnderChild(c, i);
    }
  }

  /** What stays under one child of c changes neither c nor the other child. */
  lemma OutsideChild(s: seq<int>, s': seq<int>, c: nat, child: nat)
    requires c >= 1 && (child == Left(c) || child == Right(c))
    requires SameOutside(s, s', child)
    ensures SameOutside(s, s', c) && At(s, c) == At(s', c)
    ensures child == Left(c) ==> SameUnder(s, s', Right(c))
    ensures child == Right(c) ==> SameUnder(s, s', Left(c))
  {
    forall i | 0 <= i < |s|
      ensures Under(child, i) ==> Under(c, i) && i > c
      ensures !(Under(Left(c), i) && Under(Right(c), i))
    {
      ChildrenDisjoint(c, i);
      if Under(child, i) {
        UnderChild(c, i);
      }
    }
  }

  lemma OutsideSelf(s: seq<int>, c: nat, v: int)
    requires 1 <= c < |s|
    ensures SameOutside(s, s[c := v], c)
    ensures SameUnder(s, s[c := v], Left(c)) && SameUnder(s, s[c := v], Right(c))
  {
    assert Under(c, c);
    assert !Under(Left(c), c) && !Under(Right(c), c);
  }

  // ---- Abstraction of the two arrays ----

  function At(s: seq<int>, i: nat): int {
    if i < |s| then s[i] else 0
  }

  /** The elements that node c of height h stands for: marks of inner nodes are included. */
  ghost function Elems(sum: seq<int>, lazy: seq<int>, c: nat, h: nat): (s: seq<int>)
    ensures |s| == Width(h)
    decreases h
  {
    if h == 0 then [At(sum, c)]
    else AddAll(Elems(sum, lazy, Left(c), h - 1) + Elems(sum, lazy, Right(c), h - 1), At(lazy, c))
  }

  /** The sum stored at c accounts for its children and its own mark. */
  ghost predicate SumRight(sum: seq<int>, lazy: seq<int>, c: nat, len: nat) {
    At(sum, c) == At(sum, Left(c)) + At(sum, Right(c)) + Times(At(lazy, c), len)
  }

  /** The sum is right at every inner node of the subtree. */
  ghost predicate Summed(sum: seq<int>, lazy: seq<int>, c: nat, h: nat)
    decreases h
  {
    h == 0 ||
    (SumRight(sum, lazy, c, Width(h)) && Summed(sum, lazy, Left(c), h - 1) && Summed(sum, lazy, Right(c), h - 1))
  }

  /** No inner node on the way from c down to its j-th leaf carries a mark. */
  ghost predicate PathClear(lazy: seq<int>, c: nat, h: nat, j: int)
    decreases h
  {
    h == 0 ||
    (&& At(lazy, c) == 0
     && (if j < Width(h - 1) then PathClear(lazy, Left(c), h - 1, j)
         else PathClear(lazy, Right(c), h - 1, j - Width(h - 1))))
  }

  /** A node's stored sum is the total of the elements it stands for. */
  lemma {:induction false} StoredSumIsTotal(sum: seq<int>, lazy: seq<int>, c: nat, h: nat)
    requires Summed(sum, lazy, c, h)
    ensures Total(Elems(sum, lazy, c, h)) == At(sum, c)
    decreases h
  {
    if h > 0 {
      var l, r := Elems(sum, lazy, Left(c), h - 1), Elems(sum, lazy, Right(c), h - 1);
      StoredSumIsTotal(sum, lazy, Left(c), h - 1);
      StoredSumIsTotal(sum, lazy, Right(c), h - 1);
      TotalConcat(l, r);
      TotalAddAll(l + r, At(lazy, c));
    }
  }

  /** Elements and sums depend only on the subtree. */
  lemma {:induction false} SubtreeFrame(
    sum: seq<int>, lazy: seq<int>, sum': seq<int>, lazy': seq<int>, c: nat, h: nat)
    requires c >= 1 && SameUnder(sum, sum', c) && SameUnder(lazy, lazy', c)
    ensures Elems(sum, lazy, c, h) == Elems(sum', lazy', c, h)
    ensures Summed(sum, lazy, c, h) == Summed(sum', lazy', c, h)
    decreases h
  {
    SameUnderChildren(sum, sum', c);
    SameUnderChildren(lazy, lazy', c);
    if h > 0 {
      SameUnderChildren(sum, sum', Left(c));
      SameUnderChildren(sum, sum', Right(c));
      SubtreeFrame(sum, lazy, sum', lazy', Left(c), h - 1);
      SubtreeFrame(sum, lazy, sum', lazy', Right(c), h - 1);
    }
  }

  /** Being mark-free depends only on the marks of the subtree. */
  lemma {:induction false} PathFrame(lazy: seq<int>, lazy': seq<int>, c: nat, h: nat, j: int)
    requires c >= 1 && SameUnder(lazy, lazy', c)
    ensures PathClear(lazy, c, h, j) == PathClear(lazy', c, h, j)
    decreases h
  {
    SameUnderChildren(lazy, lazy', c);
    if h > 0 {
      if j < Width(h - 1) {
        PathFrame(lazy, lazy', Left(c), h - 1, j);
      } else {
        PathFrame(lazy, lazy', Right(c), h - 1, j - Width(h - 1));
      }
    }
  }

  /** Node c of height h got d added to its mark, and d per covered position to its sum. */
  ghost predicate Marked(
    sum: seq<int>, lazy: seq<int>, sum': seq<int>, lazy': seq<int>, c: nat, h: nat, d: int)
  {
    && c >= 1
    && At(sum', c) == At(sum, c) + Times(d, Width(h))
    && At(lazy', c) == At(lazy, c) + d
    && SameUnder(sum, sum', Left(c)) && SameUnder(lazy, lazy', Left(c))
    && SameUnder(sum, sum', Right(c)) && SameUnder(lazy, lazy', Right(c))
  }

  lemma MarkAddsToAll(
    sum: seq<int>, lazy: seq<int>, sum': seq<int>, lazy': seq<int>, c: nat, h: nat, d: int)
    requires Marked(sum, lazy, sum', lazy', c, h, d)
    ensures Elems(sum', lazy', c, h) == AddAll(Elems(sum, lazy, c, h), d)
  {
    hide AddAll;
    if h > 0 {
      SubtreeFrame(sum, lazy, sum', lazy', Left(c), h - 1);
      SubtreeFrame(sum, lazy, sum', lazy', Right(c), h - 1);
      AddAllTwice(Elems(sum, lazy, Left(c), h - 1) + Elems(sum, lazy, Right(c), h - 1), At(lazy, c), d);
    } else {
      assert Times(d, 1) == d;
      LeafAddAll(At(sum, c), d);
    }
  }

  lemma LeafAddAll(v: int, d: int)
    ensures AddAll([v], d) == [v + d]
  {
  }

  lemma MarkKeepsSums(
    sum: seq<int>, lazy: seq<int>, sum': seq<int>, lazy': seq<int>, c: nat, h: nat, d: int)
    requires Marked(sum, lazy, sum', lazy', c, h, d)
    ensures Summed(sum', lazy', c, h) == Summed(sum, lazy, c, h)
  {
    if h > 0 {
      SameUnderChildren(sum, sum', Left(c));
      SameUnderChildren(sum, sum', Right(c));
      SubtreeFrame(sum, lazy, sum', lazy', Left(c), h - 1);
      SubtreeFrame(sum, lazy, sum', lazy', Right(c), h - 1);
      TimesSum(At(lazy, c), d, Width(h));
      hide Times;
      assert SumRight(sum', lazy', c, Width(h)) == SumRight(sum, lazy, c, Width(h));
    }
  }

  /** The arrays after the mark of c, a node covering w + w positions, has been moved to its children. */
  ghost predicate PushedDown(
    sum: seq<int>, lazy: seq<int>, sum': seq<int>, lazy': seq<int>, c: nat, w: nat)
    requires |sum| == |sum'| == |lazy| == |lazy'| && 1 <= c && Right(c) < |sum|
  {
    && sum' == sum[Left(c) := sum[Left(c)] + Times(lazy[c], w)][Right(c) := sum[Right(c)] + Times(lazy[c], w)]
    && lazy' == lazy[Left(c) := lazy[Left(c)] + lazy[c]][Right(c) := lazy[Right(c)] + lazy[c]][c := 0]
  }

  /** A change at c, Left(c) and Right(c) alone does not reach the grandchildren. */
  lemma GrandchildrenUntouched(s: seq<int>, s': seq<int>, c: nat)
    requires c >= 1 && |s| == |s'|
    requires forall i | 0 <= i < |s| && i != c && i != Left(c) && i != Right(c) :: s[i] == s'[i]
    ensures SameUnder(s, s', Left(Left(c))) && SameUnder(s, s', Right(Left(c)))
    ensures SameUnder(s, s', Left(Right(c))) && SameUnder(s, s', Right(Right(c)))
    ensures SameOutside(s, s', c)
  {
    assert Under(c, c);
    assert Under(c, Left(c)) && Under(c, Right(c));
  }

  lemma PushDownMarksChildren(
    sum: seq<int>, lazy: seq<int>, sum': seq<int>, lazy': seq<int>, c: nat, h: nat)
    requires |sum| == |sum'| == |lazy| == |lazy'| && 1 <= c && Right(c) < |sum| && h > 0
    requires PushedDown(sum, lazy, sum', lazy', c, Width(h - 1))
    ensures Marked(sum, lazy, sum', lazy', Left(c), h - 1, At(lazy, c))
    ensures Marked(sum, lazy, sum', lazy', Right(c), h - 1, At(lazy, c))
    ensures SameOutside(sum, sum', c) && SameOutside(lazy, lazy', c)
  {
    GrandchildrenUntouched(sum, sum', c);
    GrandchildrenUntouched(lazy, lazy', c);
    hide SameUnder, SameOutside, Times;
  }

  /** With no mark of its own, a node stands for its children's elements side by side. */
  lemma UnmarkedElems(sum: seq<int>, lazy: seq<int>, c: nat, h: nat)
    requires h > 0 && At(lazy, c) == 0
    ensures Elems(sum, lazy, c, h) == Elems(sum, lazy, Left(c), h - 1) + Elems(sum, lazy, Right(c), h - 1)
  {
    AddNothing(Elems(sum, lazy, Left(c), h - 1) + Elems(sum, lazy, Right(c), h - 1));
  }

  lemma InnerElems(sum: seq<int>, lazy: seq<int>, c: nat, h: nat)
    requires h > 0
    ensures Elems(sum, lazy, c, h)
         == AddAll(Elems(sum, lazy, Left(c), h - 1) + Elems(sum, lazy, Right(c), h - 1), At(lazy, c))
  {
  }

  lemma PushedMarks(sum: seq<int>, lazy: seq<int>, sum': seq<int>, lazy': seq<int>, c: nat, w: nat)
    requires |sum| == |sum'| == |lazy| == |lazy'| && 1 <= c && Right(c) < |sum|
    requires PushedDown(sum, lazy, sum', lazy', c, w)
    ensures At(lazy', c) == 0
  {
  }

  /** Pushing a mark down changes no element. */
  lemma PushDownKeepsElements(
    sum: seq<int>, lazy: seq<int>, sum': seq<int>, lazy': seq<int>, c: nat, h: nat)
    requires |sum| == |sum'| == |lazy| == |lazy'| && 1 <= c && Right(c) < |sum| && h > 0
    requires PushedDown(sum, lazy, sum', lazy', c, Width(h - 1))
    ensures Elems(sum', lazy', c, h) == Elems(sum, lazy, c, h)
  {
    hide *;
    PushDownMarksChildren(sum, lazy, sum', lazy', c, h);
    MarkAddsToAll(sum, lazy, sum', lazy', Left(c), h - 1, At(lazy, c));
    MarkAddsToAll(sum, lazy, sum', lazy', Right(c), h - 1, At(lazy, c));
    AddAllConcat(Elems(sum, lazy, Left(c), h - 1), Elems(sum, lazy, Right(c), h - 1), At(lazy, c));
    PushedMarks(sum, lazy, sum', lazy', c, Width(h - 1));
    UnmarkedElems(sum', lazy', c, h);
    InnerElems(sum, lazy, c, h);
  }

  /** Pushing a mark down keeps the sums right. */
  lemma PushDownKeepsSums(
    sum: seq<int>, lazy: seq<int>, sum': seq<int>, lazy': seq<int>, c: nat, h: nat)
    requires |sum| == |sum'| == |lazy| == |lazy'| && 1 <= c && Right(c) < |sum| && h > 0
    requires PushedDown(sum, lazy, sum', lazy', c, Width(h - 1))
    ensures Summed(sum', lazy', c, h) == Summed(sum, lazy, c, h)
  {
    hide Marked;
    PushDownMarksChildren(sum, lazy, sum', lazy', c, h);
    MarkKeepsSums(sum, lazy, sum', lazy', Left(c), h - 1, At(lazy, c));
    MarkKeepsSums(sum, lazy, sum', lazy', Right(c), h - 1, At(lazy, c));
    TimesSplit(At(lazy, c), Width(h - 1), Width(h - 1));
    TimesZero(0, Width(h));
    hide Times;
    assert SumRight(sum', lazy', c, Width(h)) == SumRight(sum, lazy, c, Width(h));
  }

  // ---- What one call on node c does, as a relation between array versions ----

  /** The subtree of c had d added in q, its sums are right, and nothing else changed. */
  ghost predicate RangeAdded(
    s: seq<int>, l: seq<int>, s': seq<int>, l': seq<int>, c: nat, h: nat, base: nat, q: Range, d: int)
  {
    && SameOutside(s, s', c) && SameOutside(l, l', c)
    && Elems(s', l', c, h) == AddIn(Elems(s, l, c, h), base, q, d)
    && Summed(s', l', c, h)
    && ClearKept(l, l', c, h, base, q)
  }

  /** Leaves outside q that had no mark above them still have none, and if q is one leaf it has none now. */
  ghost predicate ClearKept(l: seq<int>, l': seq<int>, c: nat, h: nat, base: nat, q: Range) {
    forall j | 0 <= j < Width(h) && (q.Single(base + j) || (!q.Has(base + j) && PathClear(l, c, h, j))) ::
      PathClear(l', c, h, j)
  }

  /** The path to the j-th leaf of an unmarked node is clear if it is below the child it leads to. */
  lemma ClearThroughHalves(l1: seq<int>, l2: seq<int>, l3: seq<int>, c: nat, h: nat, j: int)
    requires h > 0 && 1 <= c && SameOutside(l1, l2, Left(c)) && SameOutside(l2, l3, Right(c)) && At(l1, c) == 0
    requires if j < Width(h - 1) then PathClear(l2, Left(c), h - 1, j)
             else PathClear(l3, Right(c), h - 1, j - Width(h - 1))
    ensures PathClear(l3, c, h, j)
  {
    hide At, SameUnder, SameOutside;
    OutsideChild(l1, l2, c, Left(c));
    OutsideChild(l2, l3, c, Right(c));
    if j < Width(h - 1) {
      PathFrame(l2, l3, Left(c), h - 1, j);
    }
  }

  lemma ClearKeptByHalves(
    l0: seq<int>, l1: seq<int>, l2: seq<int>, l3: seq<int>, c: nat, h: nat, base: nat, q: Range)
    requires h > 0 && 1 <= c && SameOutside(l1, l2, Left(c)) && SameOutside(l2, l3, Right(c)) && At(l1, c) == 0
    requires ClearKept(l0, l1, c, h, base, Nowhere)
    requires ClearKept(l1, l2, Left(c), h - 1, base, q)
    requires ClearKept(l2, l3, Right(c), h - 1, base + Width(h - 1), q)
    ensures ClearKept(l0, l3, c, h, base, q)
  {
    hide PathClear, SameOutside, At;
    forall j | 0 <= j < Width(h) && (q.Single(base + j) || (!q.Has(base + j) && PathClear(l0, c, h, j)))
      ensures PathClear(l3, c, h, j)
    {
      if !q.Single(base + j) {
        assert PathClear(l1, c, h, j);
        ClearBelow(l1, c, h, j);
      }
      if j >= Width(h - 1) {
        assert base + Width(h - 1) + (j - Width(h - 1)) == base + j;
        OutsideChild(l1, l2, c, Left(c));
        PathFrame(l1, l2, Right(c), h - 1, j - Width(h - 1));
      }
      ClearThroughHalves(l1, l2, l3, c, h, j);
    }
  }

  lemma ClearBelow(l: seq<int>, c: nat, h: nat, j: int)
    requires h > 0 && PathClear(l, c, h, j)
    ensures if j < Width(h - 1) then PathClear(l, Left(c), h - 1, j)
            else PathClear(l, Right(c), h - 1, j - Width(h - 1))
  {
  }

  lemma RangeAddMissed(s: seq<int>, l: seq<int>, c: nat, h: nat, base: nat, q: Range, d: int)
    requires Summed(s, l, c, h)
    requires base + Width(h) <= q.left || q.right < base
    ensures RangeAdded(s, l, s, l, c, h, base, q, d)
  {
    AddInMissed(Elems(s, l, c, h), base, q, d);
  }

  lemma MarkNode(s: seq<int>, l: seq<int>, c: nat, h: nat, d: int)
    requires 1 <= c < |s| == |l|
    ensures var s', l' := s[c := s[c] + Times(d, Width(h))], l[c := l[c] + d];
      Marked(s, l, s', l', c, h, d) && SameOutside(s, s', c) && SameOutside(l, l', c)
  {
    OutsideSelf(s, c, s[c] + Times(d, Width(h)));
    OutsideSelf(l, c, l[c] + d);
  }

  lemma RangeAddFull(
    s: seq<int>, l: seq<int>, s': seq<int>, l': seq<int>, c: nat, h: nat, base: nat, q: Range, d: int)
    requires Summed(s, l, c, h) && Marked(s, l, s', l', c, h, d)
    requires SameOutside(s, s', c) && SameOutside(l, l', c)
    requires q.left <= base && base + Width(h) - 1 <= q.right
    ensures RangeAdded(s, l, s', l', c, h, base, q, d)
  {
    hide Marked, AddAll, AddIn, SameOutside;
    MarkAddsToAll(s, l, s', l', c, h, d);
    MarkKeepsSums(s, l, s', l', c, h, d);
    AddInFull(Elems(s, l, c, h), base, q, d);
    WidthOne(h);
  }

  lemma OutsideTransitive(s: seq<int>, s': seq<int>, s'': seq<int>, c: nat)
    requires SameOutside(s, s', c) && SameOutside(s', s'', c)
    ensures SameOutside(s, s'', c)
  {
  }

  /** Recomputing a node's sum makes it right exactly when the node is unmarked and its children are right. */
  lemma RefreshedSum(s: seq<int>, l: seq<int>, c: nat, h: nat)
    requires h > 0 && 1 <= c && Right(c) < |s| == |l|
    ensures var s' := s[c := s[Left(c)] + s[Right(c)]];
      && Elems(s', l, Left(c), h - 1) == Elems(s, l, Left(c), h - 1)
      && Elems(s', l, Right(c), h - 1) == Elems(s, l, Right(c), h - 1)
      && SameOutside(s, s', c)
      && (Summed(s', l, c, h) <==>
          At(l, c) == 0 && Summed(s, l, Left(c), h - 1) && Summed(s, l, Right(c), h - 1))
  {
    hide Elems, Times;
    var s' := s[c := s[Left(c)] + s[Right(c)]];
    OutsideSelf(s, c, s[Left(c)] + s[Right(c)]);
    SubtreeFrame(s, l, s', l, Left(c), h - 1);
    SubtreeFrame(s, l, s', l, Right(c), h - 1);
    TimesZero(At(l, c), Width(h));
    assert SumRight(s', l, c, Width(h)) <==> At(l, c) == 0;
  }

  /** Both halves of an unmarked node updated one after the other. */
  lemma HalvesAdded(
    s1: seq<int>, l1: seq<int>, s2: seq<int>, l2: seq<int>, s3: seq<int>, l3: seq<int>,
    c: nat, h: nat, base: nat, q: Range, d: int)
    requires h > 0 && 1 <= c && At(l1, c) == 0
    requires Summed(s1, l1, Left(c), h - 1) && Summed(s1, l1, Right(c), h - 1)
    requires RangeAdded(s1, l1, s2, l2, Left(c), h - 1, base, q, d)
    requires RangeAdded(s2, l2, s3, l3, Right(c), h - 1, base + Width(h - 1), q, d)
    ensures Elems(s3, l3, Left(c), h - 1) + Elems(s3, l3, Right(c), h - 1) == AddIn(Elems(s1, l1, c, h), base, q, d)
    ensures Summed(s3, l3, Left(c), h - 1) && Summed(s3, l3, Right(c), h - 1)
    ensures SameOutside(s1, s3, c) && SameOutside(l1, l3, c) && At(l3, c) == 0
  {
    hide AddAll, AddIn, Times, SameUnder, SameOutside, At, ClearKept;
    OutsideChild(s1, s2, c, Left(c));
    OutsideChild(l1, l2, c, Left(c));
    OutsideChild(s2, s3, c, Right(c));
    OutsideChild(l2, l3, c, Right(c));
    OutsideTransitive(s1, s2, s3, c);
    OutsideTransitive(l1, l2, l3, c);
    SubtreeFrame(s1, l1, s2, l2, Right(c), h - 1);
    SubtreeFrame(s2, l2, s3, l3, Left(c), h - 1);
    UnmarkedElems(s1, l1, c, h);
    AddInConcat(Elems(s1, l1, Left(c), h - 1), Elems(s1, l1, Right(c), h - 1), base, q, d);
  }

  /** Push down, update the halves, recompute the sum: together the range update of the node. */
  lemma RangeAddedByHalves(
    s0: seq<int>, l0: seq<int>, s1: seq<int>, l1: seq<int>, s2: seq<int>, l2: seq<int>,
    s3: seq<int>, l3: seq<int>, s4: seq<int>, c: nat, h: nat, base: nat, q: Range, d: int)
    requires h > 0 && 1 <= c && Right(c) < |s3| == |l3|
    requires At(l1, c) == 0 && Elems(s1, l1, c, h) == Elems(s0, l0, c, h)
    requires SameOutside(s0, s1, c) && SameOutside(l0, l1, c) && ClearKept(l0, l1, c, h, base, Nowhere)
    requires Summed(s1, l1, Left(c), h - 1) && Summed(s1, l1, Right(c), h - 1)
    requires RangeAdded(s1, l1, s2, l2, Left(c), h - 1, base, q, d)
    requires RangeAdded(s2, l2, s3, l3, Right(c), h - 1, base + Width(h - 1), q, d)
    requires s4 == s3[c := s3[Left(c)] + s3[Right(c)]]
    ensures RangeAdded(s0, l0, s4, l3, c, h, base, q, d)
  {
    hide AddAll, AddIn, Times, SameUnder, SameOutside, At, ClearKept;
    HalvesAdded(s1, l1, s2, l2, s3, l3, c, h, base, q, d);
    RefreshedSum(s3, l3, c, h);
    ClearKeptByHalves(l0, l1, l2, l3, c, h, base, q);
    OutsideTransitive(s0, s1, s3, c);
    OutsideTransitive(s0, s3, s4, c);
    OutsideTransitive(l0, l1, l3, c);
    UnmarkedElems(s4, l3, c, h);
  }

  /** The subtree of c still stands for the same elements with right sums, and nothing else changed. */
  ghost predicate Kept(s: seq<int>, l: seq<int>, s': seq<int>, l': seq<int>, c: nat, h: nat, base: nat) {
    && SameOutside(s, s', c) && SameOutside(l, l', c)
    && Elems(s', l', c, h) == Elems(s, l, c, h)
    && Summed(s', l', c, h)
    && ClearKept(l, l', c, h, base, Nowhere)
  }

  /** Queries below an unmarked node keep the node. */
  lemma KeptByHalves(
    s0: seq<int>, l0: seq<int>, s1: seq<int>, l1: seq<int>, s2: seq<int>, l2: seq<int>, s3: seq<int>, l3: seq<int>,
    c: nat, h: nat, base: nat)
    requires h > 0 && 1 <= c && At(l1, c) == 0
    requires Kept(s0, l0, s1, l1, c, h, base)
    requires Kept(s1, l1, s2, l2, Left(c), h - 1, base)
    requires Kept(s2, l2, s3, l3, Right(c), h - 1, base + Width(h - 1))
    ensures Kept(s0, l0, s3, l3, c, h, base) && At(l3, c) == 0
    ensures Elems(s0, l0, c, h) == Elems(s2, l2, Left(c), h - 1) + Elems(s3, l3, Right(c), h - 1)
    ensures SameUnder(l2, l3, Left(c))
  {
    hide AddAll, Times, SameUnder, SameOutside, At, ClearKept;
    ClearKeptByHalves(l0, l1, l2, l3, c, h, base, Nowhere);
    OutsideChild(s1, s2, c, Left(c));
    OutsideChild(l1, l2, c, Left(c));
    OutsideChild(s2, s3, c, Right(c));
    OutsideChild(l2, l3, c, Right(c));
    OutsideTransitive(s0, s1, s2, c);
    OutsideTransitive(s0, s2, s3, c);
    OutsideTransitive(l0, l1, l2, c);
    OutsideTransitive(l0, l2, l3, c);
    SubtreeFrame(s1, l1, s2, l2, Right(c), h - 1);
    SubtreeFrame(s2, l2, s3, l3, Left(c), h - 1);
    UnmarkedElems(s1, l1, c, h);
    UnmarkedElems(s3, l3, c, h);
    StoredSumIsTotal(s1, l1, Left(c), h - 1);
    StoredSumIsTotal(s3, l3, Left(c), h - 1);
    StoredSumIsTotal(s1, l1, Right(c), h - 1);
    StoredSumIsTotal(s3, l3, Right(c), h - 1);
  }

  /** The subtree of c had d added at its j-th element, and no mark changed. */
  ghost predicate PointAdded(
    s: seq<int>, l: seq<int>, s': seq<int>, c: nat, h: nat, base: nat, k: nat, d: int)
  {
    && SameOutside(s, s', c)
    && Elems(s', l, c, h) == AddIn(Elems(s, l, c, h), base, Range(k, k), d)
    && (Summed(s', l, c, h) <==> PathClear(l, c, h, k - base))
  }

  lemma PointAddedLeaf(s: seq<int>, l: seq<int>, c: nat, k: nat, d: int)
    requires 1 <= c < |s| == |l|
    ensures PointAdded(s, l, s[c := s[c] + d], c, 0, k, k, d)
  {
    OutsideSelf(s, c, s[c] + d);
    assert Range(k, k).Has(k);
  }

  /** A point update in the left half, then a recomputed sum. */
  lemma PointAddedLeft(s: seq<int>, l: seq<int>, s1: seq<int>, s2: seq<int>, c: nat, h: nat, base: nat, k: nat, d: int)
    requires h > 0 && 1 <= c && Right(c) < |s1| == |l| && base <= k < base + Width(h - 1)
    requires Summed(s, l, c, h)
    requires PointAdded(s, l, s1, Left(c), h - 1, base, k, d)
    requires s2 == s1[c := s1[Left(c)] + s1[Right(c)]]
    ensures PointAdded(s, l, s2, c, h, base, k, d)
  {
    hide AddAll, AddIn, Times, SameUnder, SameOutside, At;
    SameAsSelf(l, Right(c));
    OutsideChild(s, s1, c, Left(c));
    SubtreeFrame(s, l, s1, l, Right(c), h - 1);
    RefreshedSum(s1, l, c, h);
    OutsideTransitive(s, s1, s2, c);
    var el, er := Elems(s, l, Left(c), h - 1), Elems(s, l, Right(c), h - 1);
    AddInMissed(er, base + Width(h - 1), Range(k, k), d);
    AddInConcat(el, er, base, Range(k, k), d);
    AddInAddAll(el + er, base, Range(k, k), d, At(l, c));
  }

  /** A point update in the right half, then a recomputed sum. */
  lemma PointAddedRight(s: seq<int>, l: seq<int>, s1: seq<int>, s2: seq<int>, c: nat, h: nat, base: nat, k: nat, d: int)
    requires h > 0 && 1 <= c && Right(c) < |s1| == |l| && base + Width(h - 1) <= k
    requires Summed(s, l, c, h)
    requires PointAdded(s, l, s1, Right(c), h - 1, base + Width(h - 1), k, d)
    requires s2 == s1[c := s1[Left(c)] + s1[Right(c)]]
    ensures PointAdded(s, l, s2, c, h, base, k, d)
  {
    hide AddAll, AddIn, Times, SameUnder, SameOutside, At;
    SameAsSelf(l, Left(c));
    OutsideChild(s, s1, c, Right(c));
    SubtreeFrame(s, l, s1, l, Left(c), h - 1);
    RefreshedSum(s1, l, c, h);
    OutsideTransitive(s, s1, s2, c);
    var el, er := Elems(s, l, Left(c), h - 1), Elems(s, l, Right(c), h - 1);
    AddInMissed(el, base, Range(k, k), d);
    AddInConcat(el, er, base, Range(k, k), d);
    AddInAddAll(el + er, base, Range(k, k), d, At(l, c));
    assert k - base - Width(h - 1) == k - (base + Width(h - 1));
  }

  lemma SameAsSelf(s: seq<int>, c: nat)
    ensures SameUnder(s, s, c) && SameOutside(s, s, c)
  {
  }

  lemma AddInAddAll(s: seq<int>, base: nat, q: Range, d: int, e: int)
    ensures AddAll(AddIn(s, base, q, d), e) == AddIn(AddAll(s, e), base, q, d)
  {
  }

  function Zeros(n: nat): seq<int> {
    seq(n, _ => 0)
  }

  /** The subtree of c is the unmarked tree of the slice of a starting at lo, and nothing else changed. */
  ghost predicate Built(a: seq<int>, s: seq<int>, s': seq<int>, c: nat, h: nat, lo: nat) {
    && SameOutside(s, s', c)
    && lo + Width(h) <= |a|
    && Elems(s', Zeros(|s'|), c, h) == a[lo..lo + Width(h)]
    && Summed(s', Zeros(|s'|), c, h)
  }

  lemma BuiltLeaf(a: seq<int>, s: seq<int>, c: nat, lo: nat)
    requires 1 <= c < |s| && lo < |a|
    ensures Built(a, s, s[c := a[lo]], c, 0, lo)
  {
    OutsideSelf(s, c, a[lo]);
  }

  /** Two subtrees built side by side, then a recomputed sum: the tree of the whole slice. */
  lemma BuiltByHalves(a: seq<int>, s0: seq<int>, s1: seq<int>, s2: seq<int>, s3: seq<int>, c: nat, h: nat, lo: nat)
    requires h > 0 && 1 <= c && Right(c) < |s2|
    requires Built(a, s0, s1, Left(c), h - 1, lo)
    requires Built(a, s1, s2, Right(c), h - 1, lo + Width(h - 1))
    requires s3 == s2[c := s2[Left(c)] + s2[Right(c)]]
    ensures Built(a, s0, s3, c, h, lo)
  {
    hide AddAll, Times, SameUnder;
    var z := Zeros(|s0|);
    SameAsSelf(z, Left(c));
    OutsideChild(s0, s1, c, Left(c));
    OutsideChild(s1, s2, c, Right(c));
    SubtreeFrame(s1, z, s2, z, Left(c), h - 1);
    RefreshedSum(s2, z, c, h);
    OutsideTransitive(s0, s1, s2, c);
    OutsideTransitive(s0, s2, s3, c);
    UnmarkedElems(s3, z, c, h);
    assert a[lo..lo + Width(h)] == a[lo..lo + Width(h - 1)] + a[lo + Width(h - 1)..lo + Width(h)];
  }

  // ---- The tree ----

  predicate IsPowerOfTwo(n: nat) {
    n == 1 || (n > 1 && n % 2 == 0 && IsPowerOfTwo(n / 2))
  }

  ghost function Height(n: nat): (h: nat)
    requires IsPowerOfTwo(n)
    ensures Width(h) == n
  {
    if n == 1 then 0 else Height(n / 2) + 1
  }

  /** A range update, a point update (of the one-point range q) or a query. */
  datatype Op = Add(q: Range, inc: int) | AddPoint(q: Range, inc: int) | Ask(q: Range)

  /** The points known to have no mark above them after an operation. */
  ghost function ClearAfter(clear: set<nat>, op: Op): set<nat> {
    match op
    case Add(q, _) => if q.left == q.right then clear + {q.left} else set k | k in clear && !q.Has(k)
    case AddPoint(_, _) => clear
    case Ask(q) => if q.left == q.right then clear + {q.left} else clear
  }

  /** Every point update is at a point known to be clear. */
  ghost predicate PointsClear(clear: set<nat>, ops: seq<Op>)
    decreases |ops|
  {
    ops == [] ||
    (&& (ops[0].AddPoint? ==> ops[0].q.left == ops[0].q.right && ops[0].q.left in clear)
     && PointsClear(ClearAfter(clear, ops[0]), ops[1..]))
  }

  /** The flat array and the answers after a sequence of operations. */
  function FlatRun(a: seq<int>, ops: seq<Op>): (seq<int>, seq<int>) {
    if ops == [] then (a, [])
    else
      var (b, answers) := FlatRun(a, ops[..|ops| - 1]);
      match ops[|ops| - 1]
      case Add(q, inc) => (AddIn(b, 1, q, inc), answers)
      case AddPoint(q, inc) => (AddIn(b, 1, q, inc), answers)
      case Ask(q) => (b, answers + [SumIn(b, 1, q)])
  }

  lemma AtIndex(s: seq<int>, i: nat)
    requires i < |s|
    ensures At(s, i) == s[i]
  {
  }

  lemma KeptMissed(s: seq<int>, l: seq<int>, c: nat, h: nat, base: nat, q: Range)
    requires Summed(s, l, c, h)
    requires base + Width(h) <= q.left || q.right < base
    ensures Kept(s, l, s, l, c, h, base) && SumIn(Elems(s, l, c, h), base, q) == 0
  {
    SumInMissed(Elems(s, l, c, h), base, q);
  }

  /** No path leads clear through a marked node. */
  lemma ClearUnlessMarked(l: seq<int>, l': seq<int>, c: nat, h: nat, base: nat)
    requires h > 0 && (At(l, c) != 0 || l == l')
    ensures ClearKept(l, l', c, h, base, Nowhere)
  {
  }

  lemma ClearAsBefore(l: seq<int>, c: nat, h: nat, base: nat)
    ensures ClearKept(l, l, c, h, base, Nowhere)
  {
  }

  lemma SummedChildren(s: seq<int>, l: seq<int>, c: nat, h: nat)
    requires h > 0 && Summed(s, l, c, h)
    ensures Summed(s, l, Left(c), h - 1) && Summed(s, l, Right(c), h - 1)
  {
  }

  /** Work under the left child leaves the right child as it was. */
  lemma RightHalfStillSummed(
    s1: seq<int>, l1: seq<int>, s2: seq<int>, l2: seq<int>, c: nat, h: nat, base: nat, q: Range, d: int)
    requires h > 0 && 1 <= c && Summed(s1, l1, c, h)
    requires RangeAdded(s1, l1, s2, l2, Left(c), h - 1, base, q, d)
    ensures Summed(s2, l2, Right(c), h - 1)
  {
    OutsideChild(s1, s2, c, Left(c));
    OutsideChild(l1, l2, c, Left(c));
    SubtreeFrame(s1, l1, s2, l2, Right(c), h - 1);
  }

  lemma RightHalfStillKept(
    s1: seq<int>, l1: seq<int>, s2: seq<int>, l2: seq<int>, c: nat, h: nat, base: nat)
    requires h > 0 && 1 <= c && Summed(s1, l1, c, h)
    requires Kept(s1, l1, s2, l2, Left(c), h - 1, base)
    ensures Summed(s2, l2, Right(c), h - 1)
  {
    OutsideChild(s1, s2, c, Left(c));
    OutsideChild(l1, l2, c, Left(c));
    SubtreeFrame(s1, l1, s2, l2, Right(c), h - 1);
  }

  lemma ClearPoints(l: seq<int>, l': seq<int>, h: nat, q: Range)
    requires ClearKept(l, l', 1, h, 1, q)
    ensures forall k | 1 <= k <= Width(h) && !q.Has(k) && PathClear(l, 1, h, k - 1) :: PathClear(l', 1, h, k - 1)
    ensures 1 <= q.left == q.right <= Width(h) ==> PathClear(l', 1, h, q.left - 1)
  {
    assert 1 + (q.left - 1) == q.left;
    forall k | 1 <= k <= Width(h) && !q.Has(k) && PathClear(l, 1, h, k - 1) ensures PathClear(l', 1, h, k - 1) {
      assert 1 + (k - 1) == k;
    }
  }

  lemma {:induction false} ZerosAreClear(n: nat, c: nat, h: nat, j: int)
    ensures PathClear(Zeros(n), c, h, j)
    decreases h
  {
    if h > 0 {
      if j < Width(h - 1) {
        ZerosAreClear(n, Left(c), h - 1, j);
      } else {
        ZerosAreClear(n, Right(c), h - 1, j - Width(h - 1));
      }
    }
  }

  lemma RootCovers(n: nat, h: nat)
    requires n == Width(h)
    ensures Covers(n, 1, h, Range(1, n))
  {
    FirstLeafProduct(1, h);
  }

  lemma WidthOne(h: nat)
    ensures Width(h) == 1 <==> h == 0
  {
  }

  class Tree {
    const rootRange: Range
    const sum: array<int>
    const lazyAdd: array<int>
    ghost const height: nat

    ghost predicate Shape() {
      && rootRange.left == 1 && rootRange.right == Width(height)
      && sum.Length == lazyAdd.Length == rootRange.right + rootRange.right && sum != lazyAdd
    }

    ghost function Size(): nat {
      rootRange.right
    }

    /** The flat array 1..n this tree stands for. */
    ghost function Contents(): (s: seq<int>)
      reads sum, lazyAdd
    {
      Elems(sum[..], lazyAdd[..], 1, height)
    }

    ghost predicate Valid()
      reads sum, lazyAdd
    {
      Shape() && Summed(sum[..], lazyAdd[..], 1, height)
    }

    /** The leaf of position k has no pending mark above it. */
    ghost predicate NoMarkAbove(k: nat)
      reads lazyAdd
    {
      PathClear(lazyAdd[..], 1, height, k - 1)
    }

    constructor (length: nat)
      requires IsPowerOfTwo(length)
      ensures Valid() && fresh(sum) && fresh(lazyAdd)
      ensures Size() == length && Contents() == seq(length, _ => 0)
      ensures forall k | rootRange.Has(k) :: NoMarkAbove(k)
    {
      rootRange := Range(1, length);
      sum := new int[length + length](_ => 0);
      lazyAdd := new int[length + length](_ => 0);
      height := Height(length);
      new;
      RootCovers(length, height);
      Build(1, rootRange, height);
      assert lazyAdd[..] == Zeros(length + length);
      assert lazyAdd[..][1..length + 1] == seq(length, _ => 0);
      forall k | rootRange.Has(k) ensures NoMarkAbove(k) {
        ZerosAreClear(length + length, 1, height, k - 1);
      }
    }

    /** Builds the subtree of c over the slice of lazyAdd at its positions. */
    method Build(c: nat, rg: Range, ghost h: nat)
      requires Shape() && Covers(Size(), c, h, rg)
      modifies sum
      ensures Built(lazyAdd[..], old(sum[..]), sum[..], c, h, rg.left)
      decreases h
    {
      hide Built, Elems, Summed;
      ghost var s0 := sum[..];
      NodeLayout(Size(), c, h, rg);
      WidthOne(h);
      if rg.Length() == 1 {
        BuiltLeaf(lazyAdd[..], s0, c, rg.left);
        sum[c] := lazyAdd[rg.left];
        assert sum[..] == s0[c := lazyAdd[..][rg.left]];
        return;
      }
      ChildrenCover(Size(), c, h, rg);
      var middle := rg.Middle();
      Build(c + c, Range(rg.left, middle), h - 1);
      ghost var s1 := sum[..];
      Build(c + c + 1, Range(middle + 1, rg.right), h - 1);
      ghost var s2 := sum[..];
      PushUp(c);
      BuiltByHalves(lazyAdd[..], s0, s1, s2, sum[..], c, h, rg.left);
    }

    method PushUp(c: nat)
      requires 1 <= c && Right(c) < sum.Length
      modifies sum
      ensures sum[..] == old(sum[..])[c := old(sum[Left(c)]) + old(sum[Right(c)])]
    {
      sum[c] := sum[c + c] + sum[c + c + 1];
    }

    method PushDown(c: nat, rg: Range, ghost h: nat)
      requires Shape() && Covers(Size(), c, h, rg) && h > 0
      modifies sum, lazyAdd
      ensures SameOutside(old(sum[..]), sum[..], c) && SameOutside(old(lazyAdd[..]), lazyAdd[..], c)
      ensures Elems(sum[..], lazyAdd[..], c, h) == old(Elems(sum[..], lazyAdd[..], c, h))
      ensures Summed(sum[..], lazyAdd[..], c, h) == old(Summed(sum[..], lazyAdd[..], c, h))
      ensures At(lazyAdd[..], c) == 0 && ClearKept(old(lazyAdd[..]), lazyAdd[..], c, h, rg.left, Nowhere)
    {
      hide ClearKept;
      ghost var s0, l0 := sum[..], lazyAdd[..];
      ChildrenCover(Size(), c, h, rg);
      ClearUnlessMarked(l0, l0, c, h, rg.left);
      if lazyAdd[c] == 0 {
        SameAsSelf(s0, c);
        SameAsSelf(l0, c);
        return;
      }
      var left, right := c + c, c + c + 1;
      var leftRange, rightRange := Range(rg.left, rg.Middle()), Range(rg.Middle() + 1, rg.right);
      TimesIsProduct(lazyAdd[c], leftRange.Length());
      TimesIsProduct(lazyAdd[c], rightRange.Length());
      lazyAdd[left] := lazyAdd[left] + lazyAdd[c];
      lazyAdd[right] := lazyAdd[right] + lazyAdd[c];
      sum[left] := sum[left] + lazyAdd[c] * leftRange.Length();
      sum[right] := sum[right] + lazyAdd[c] * rightRange.Length();
      lazyAdd[c] := 0;
      ClearUnlessMarked(l0, lazyAdd[..], c, h, rg.left);
      assert PushedDown(s0, l0, sum[..], lazyAdd[..], c, Width(h - 1));
      PushDownMarksChildren(s0, l0, sum[..], lazyAdd[..], c, h);
      PushDownKeepsElements(s0, l0, sum[..], lazyAdd[..], c, h);
      PushDownKeepsSums(s0, l0, sum[..], lazyAdd[..], c, h);
    }

    method RangeUpdateAt(q: Range, inc: int, c: nat, rg: Range, ghost h: nat)
      requires Shape() && Covers(Size(), c, h, rg) && q.Meets(rg)
      requires Summed(sum[..], lazyAdd[..], c, h)
      modifies sum, lazyAdd
      ensures RangeAdded(old(sum[..]), old(lazyAdd[..]), sum[..], lazyAdd[..], c, h, rg.left, q, inc)
      decreases h
    {
      hide Elems, RangeAdded, SameOutside, At, Summed, FirstLeaf, Times, ClearKept;
      ghost var s0, l0 := sum[..], lazyAdd[..];
      NodeLayout(Size(), c, h, rg);
      if q.left <= rg.left && q.right >= rg.right {
        MarkNode(s0, l0, c, h, inc);
        TimesIsProduct(inc, rg.Length());
        sum[c] := sum[c] + inc * rg.Length();
        lazyAdd[c] := lazyAdd[c] + inc;
        assert sum[..] == s0[c := s0[c] + Times(inc, Width(h))] && lazyAdd[..] == l0[c := l0[c] + inc];
        RangeAddFull(s0, l0, sum[..], lazyAdd[..], c, h, rg.left, q, inc);
        return;
      }
      WidthOne(h);
      ChildrenCover(Size(), c, h, rg);
      var middle := rg.Middle();
      PushDown(c, rg, h);
      ghost var s1, l1 := sum[..], lazyAdd[..];
      SummedChildren(s1, l1, c, h);
      if q.left <= middle {
        RangeUpdateAt(q, inc, c + c, Range(rg.left, middle), h - 1);
      } else {
        RangeAddMissed(s1, l1, Left(c), h - 1, rg.left, q, inc);
      }
      ghost var s2, l2 := sum[..], lazyAdd[..];
      RightHalfStillSummed(s1, l1, s2, l2, c, h, rg.left, q, inc);
      if q.right >= middle + 1 {
        RangeUpdateAt(q, inc, c + c + 1, Range(middle + 1, rg.right), h - 1);
      } else {
        RangeAddMissed(s2, l2, Right(c), h - 1, middle + 1, q, inc);
      }
      ghost var s3, l3 := sum[..], lazyAdd[..];
      PushUp(c);
      RangeAddedByHalves(s0, l0, s1, l1, s2, l2, s3, l3, sum[..], c, h, rg.left, q, inc);
    }

    method QueryAt(q: Range, c: nat, rg: Range, ghost h: nat) returns (res: int)
      requires Shape() && Covers(Size(), c, h, rg) && q.Meets(rg)
      requires Summed(sum[..], lazyAdd[..], c, h)
      modifies sum, lazyAdd
      ensures Kept(old(sum[..]), old(lazyAdd[..]), sum[..], lazyAdd[..], c, h, rg.left)
      ensures res == SumIn(old(Elems(sum[..], lazyAdd[..], c, h)), rg.left, q)
      ensures q.left == q.right ==> PathClear(lazyAdd[..], c, h, q.left - rg.left)
      decreases h
    {
      hide Elems, SameOutside, At, SumIn, SameUnder, Summed, FirstLeaf, ClearKept;
      ghost var s0, l0 := sum[..], lazyAdd[..];
      NodeLayout(Size(), c, h, rg);
      WidthOne(h);
      if rg.left >= q.left && rg.right <= q.right {
        SameAsSelf(s0, c);
        SameAsSelf(l0, c);
        ClearAsBefore(l0, c, h, rg.left);
        StoredSumIsTotal(s0, l0, c, h);
        SumInFull(Elems(s0, l0, c, h), rg.left, q);
        AtIndex(s0, c);
        return sum[c];
      }
      ChildrenCover(Size(), c, h, rg);
      var middle := rg.Middle();
      PushDown(c, rg, h);
      ghost var s1, l1 := sum[..], lazyAdd[..];
      SummedChildren(s1, l1, c, h);
      res := 0;
      if q.left <= middle {
        var part := QueryAt(q, c + c, Range(rg.left, middle), h - 1);
        res := res + part;
      } else {
        KeptMissed(s1, l1, Left(c), h - 1, rg.left, q);
      }
      ghost var s2, l2 := sum[..], lazyAdd[..];
      RightHalfStillKept(s1, l1, s2, l2, c, h, rg.left);
      if q.right >= middle + 1 {
        var part := QueryAt(q, c + c + 1, Range(middle + 1, rg.right), h - 1);
        res := res + part;
      } else {
        KeptMissed(s2, l2, Right(c), h - 1, middle + 1, q);
      }
      ghost var s3, l3 := sum[..], lazyAdd[..];
      KeptByHalves(s0, l0, s1, l1, s2, l2, s3, l3, c, h, rg.left);
      SumInConcat(Elems(s2, l2, Left(c), h - 1), Elems(s3, l3, Right(c), h - 1), rg.left, q);
      PathFrame(l2, l3, Left(c), h - 1, q.left - rg.left);
    }

    method PointUpdateAt(k: nat, inc: int, c: nat, rg: Range, ghost h: nat)
      requires Shape() && Covers(Size(), c, h, rg) && rg.Has(k)
      requires Summed(sum[..], lazyAdd[..], c, h)
      modifies sum
      ensures PointAdded(old(sum[..]), lazyAdd[..], sum[..], c, h, rg.left, k, inc)
      decreases h
    {
      hide Elems, PointAdded, SumRight, At, Times, FirstLeaf;
      ghost var s0 := sum[..];
      NodeLayout(Size(), c, h, rg);
      WidthOne(h);
      if rg.Length() == 1 {
        PointAddedLeaf(s0, lazyAdd[..], c, k, inc);
        sum[c] := sum[c] + inc;
        assert sum[..] == s0[c := s0[c] + inc];
        return;
      }
      ChildrenCover(Size(), c, h, rg);
      var middle := rg.Middle();
      if k <= middle {
        PointUpdateAt(k, inc, c + c, Range(rg.left, middle), h - 1);
        ghost var s1 := sum[..];
        PushUp(c);
        PointAddedLeft(s0, lazyAdd[..], s1, sum[..], c, h, rg.left, k, inc);
      } else {
        PointUpdateAt(k, inc, c + c + 1, Range(middle + 1, rg.right), h - 1);
        ghost var s1 := sum[..];
        PushUp(c);
        PointAddedRight(s0, lazyAdd[..], s1, sum[..], c, h, rg.left, k, inc);
      }
    }

    /** Adds inc to every position of q. */
    method RangeUpdate(q: Range, inc: int)
      requires Valid() && q.Meets(rootRange)
      modifies sum, lazyAdd
      ensures Valid() && Contents() == AddIn(old(Contents()), 1, q, inc)
      ensures forall k | rootRange.Has(k) && !q.Has(k) && old(NoMarkAbove(k)) :: NoMarkAbove(k)
      ensures q.left == q.right ==> NoMarkAbove(q.left)
    {
      ghost var l0 := lazyAdd[..];
      RootCovers(Size(), height);
      RangeUpdateAt(q, inc, 1, rootRange, height);
      ClearPoints(l0, lazyAdd[..], height, q);
    }

    /** The sum of the positions of q; changes no element, and a one-point query clears the way to its leaf. */
    method Query(q: Range) returns (res: int)
      requires Valid() && q.Meets(rootRange)
      modifies sum, lazyAdd
      ensures Valid() && Contents() == old(Contents())
      ensures res == SumIn(Contents(), 1, q)
      ensures q.left == q.right ==> NoMarkAbove(q.left)
      ensures forall k | rootRange.Has(k) && old(NoMarkAbove(k)) :: NoMarkAbove(k)
    {
      ghost var l0 := lazyAdd[..];
      RootCovers(Size(), height);
      res := QueryAt(q, 1, rootRange, height);
      ClearPoints(l0, lazyAdd[..], height, Nowhere);
    }

    /** Adds inc to position k. The sums stay right exactly when no mark is pending above k. */
    method PointUpdate(k: nat, inc: int)
      requires Valid() && rootRange.Has(k)
      modifies sum
      ensures Contents() == AddIn(old(Contents()), 1, Range(k, k), inc)
      ensures Valid() <==> NoMarkAbove(k)
    {
      RootCovers(Size(), height);
      PointUpdateAt(k, inc, 1, rootRange, height);
    }

    /**
     Any sequence of operations answers as the flat array does, provided every point
     update is at a point known to have no mark above it: a point that was clear at the
     start or has been queried or range-updated alone since, with no wider range update
     over it in between.
     */
    method Run(ops: seq<Op>, ghost clear: set<nat>) returns (answers: seq<int>)
      requires Valid() && forall i | 0 <= i < |ops| :: ops[i].q.Meets(rootRange)
      requires forall k | k in clear :: rootRange.Has(k) && NoMarkAbove(k)
      requires PointsClear(clear, ops)
      modifies sum, lazyAdd
      ensures Valid() && (Contents(), answers) == FlatRun(old(Contents()), ops)
    {
      hide Summed, Elems, PathClear;
      answers := [];
      ghost var now := clear;
      assert ops[0..] == ops;
      for i := 0 to |ops|
        invariant Valid() && (Contents(), answers) == FlatRun(old(Contents()), ops[..i])
        invariant forall k | k in now :: rootRange.Has(k) && NoMarkAbove(k)
        invariant PointsClear(now, ops[i..])
      {
        assert ops[..i + 1][..i] == ops[..i];
        assert ops[i..][0] == ops[i] && ops[i..][1..] == ops[i + 1..];
        match ops[i] {
          case Add(q, inc) =>
            RangeUpdate(q, inc);
          case AddPoint(q, inc) =>
            PointUpdate(q.left, inc);
            assert q == Range(q.left, q.left);
          case Ask(q) =>
            var a := Query(q);
            answers := answers + [a];
        }
        now := ClearAfter(now, ops[i]);
      }
      assert ops[..|ops|] == ops;
    }
  }

  /**
   A point update below a pending mark: two positions, 5 added to both, then 1
   added to position 1. The elements add up to 11, the root says 1.
   */
  lemma PendingMarkBreaksPointUpdate()
    ensures var zero, s, l, s' := [0, 0, 0, 0], [0, 10, 0, 0], [0, 5, 0, 0], [0, 1, 1, 0];
      && RangeAdded(zero, zero, s, l, 1, 1, 1, Range(1, 2), 5)
      && PointAdded(s, l, s', 1, 1, 1, 1, 1)
      && Total(Elems(s', l, 1, 1)) == 11
      && At(s', 1) == 1
  {
    var zero, s, l, s' := [0, 0, 0, 0], [0, 10, 0, 0], [0, 5, 0, 0], [0, 1, 1, 0];
    assert Elems(zero, zero, 1, 1) == [0, 0];
    assert Elems(s, l, 1, 1) == [5, 5];
    assert Elems(s', l, 1, 1) == [6, 5];
    assert Total([6, 5]) == 11;
    assert Under(1, 1) && Under(1, 2) && Under(1, 3);
    assert Times(5, 2) == 10;
    assert !PathClear(l, 1, 1, 0);
  }
}
