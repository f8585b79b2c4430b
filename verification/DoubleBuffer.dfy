/**
 The double buffer (double_buffer/double_buffer.h) as a step system: readers load
 the index and then copy the shared pointer, one writer at a time waits for a
 buffer to be free, updates it, swaps, and does the same to the other buffer.
 */
module DoubleBuffer {
  import opened Common

  /** Torn: an updater is at work on it. */
  datatype Buffer<T> = Whole(data: T) | Torn

  datatype Reader =
    | Out
    | ReadIndex(i: nat)              // index loaded, reference count not yet raised
    | Reading(i: nat, version: nat)  // holds a reference; version is history only

  datatype Phase<T> =
    | Waiting          // spinning on the use count
    | Alone            // the use count was 1
    | Got              // holds its own reference
    | Updating(prior: T) // the updater is running
    | Updated

  datatype Writer<T, U> = Free | In(u: U, round: nat, phase: Phase<T>)

  datatype State<T, U> = State(
    buffers: seq<Buffer<T>>, readIdx: nat, readers: map<nat, Reader>,
    writer: Writer<T, U>, ownRef: Option<nat>, done: seq<U>)
  {
    function Reader(r: nat): Reader {
      if r in readers then readers[r] else Out
    }

    function WriteIdx(): int {
      1 - readIdx
    }

    function SetReader(r: nat, p: Reader): State<T, U> {
      this.(readers := readers[r := p])
    }

    /** References to buffer i: its slot, its readers and the writer's local pointer. */
    ghost function UseCount(i: int): nat {
      1 + |Holders(i)| + (if ownRef.Some? && ownRef.value == i then 1 else 0)
    }

    ghost function Holders(i: int): set<nat> {
      set r | r in readers && readers[r].Reading? && readers[r].i == i
    }

    /** All updates started, in the order of the mutex. */
    ghost function Updates(): seq<U> {
      if writer.In? then done + [writer.u] else done
    }

    /** How many of them the read buffer shows. */
    ghost function Published(): nat {
      if writer.In? && writer.round == 2 then |done| + 1 else |done|
    }

    /** How many of them buffer i shows, unless it is torn. */
    ghost function Shown(i: nat): nat {
      if i == readIdx then Published()
      else if writer.In? && writer.phase.Updated? then |done| + 1
      else |done|
    }
  }

  datatype Action<U> =
    | LoadIndex(r: nat)
    | CopyPointer(r: nat)
    | Release(r: nat)
    | EnterUpdate(u: U)
    | SeeUnused
    | TakeReference
    | BeginUpdate
    | EndUpdate
    | Swap
    | LeaveUpdate

  function Init<T, U>(data: T): State<T, U> {
    State([Whole(data), Whole(data)], 0, map[], Free, None, [])
  }

  ghost function Step<T, U>(apply: (U, T) -> T, s: State<T, U>, a: Action<U>): Option<State<T, U>>
    requires |s.buffers| == 2 && s.readIdx <= 1
  {
    var w := s.WriteIdx();
    match a
    case LoadIndex(r) =>
      if s.Reader(r).Out? then Some(s.SetReader(r, ReadIndex(s.readIdx))) else None
    case CopyPointer(r) =>
      if s.Reader(r).ReadIndex? then Some(s.SetReader(r, Reading(s.Reader(r).i, s.Shown(s.Reader(r).i)))) else None
    case Release(r) =>
      if s.Reader(r).Reading? then Some(s.SetReader(r, Out)) else None
    case EnterUpdate(u) =>
      if s.writer.Free? then Some(s.(writer := In(u, 1, Waiting))) else None
    case SeeUnused =>
      if s.writer.In? && s.writer.phase.Waiting? && s.UseCount(w) == 1
      then Some(s.(writer := s.writer.(phase := Alone))) else None
    case TakeReference =>
      if s.writer.In? && s.writer.phase.Alone?
      then Some(s.(writer := s.writer.(phase := Got), ownRef := Some(w))) else None
    case BeginUpdate =>
      if s.writer.In? && s.writer.phase.Got? && s.buffers[w].Whole?
      then Some(s.(writer := s.writer.(phase := Updating(s.buffers[w].data)), buffers := s.buffers[w := Torn]))
      else None
    case EndUpdate =>
      if s.writer.In? && s.writer.phase.Updating?
      then Some(s.(writer := s.writer.(phase := Updated),
                   buffers := s.buffers[w := Whole(apply(s.writer.u, s.writer.phase.prior))]))
      else None
    case Swap =>
      if s.writer.In? && s.writer.round == 1 && s.writer.phase.Updated?
      then Some(s.(writer := In(s.writer.u, 2, Waiting), readIdx := w)) else None
    case LeaveUpdate =>
      if s.writer.In? && s.writer.round == 2 && s.writer.phase.Updated?
      then Some(s.(writer := Free, ownRef := None, done := s.done + [s.writer.u])) else None
  }

  /**
   The writer has claimed the write buffer: it has seen the buffer unused and has
   not yet published what it writes there.
   */
  predicate Claimed<T, U>(s: State<T, U>) {
    s.writer.In? && !s.writer.phase.Waiting? && (s.writer.phase.Updated? ==> s.writer.round == 1)
  }

  /** A reader with an outdated index does not copy the pointer of a claimed buffer. */
  ghost predicate Disciplined<T, U>(s: State<T, U>, a: Action<U>) {
    a.CopyPointer? && s.Reader(a.r).ReadIndex? && s.Reader(a.r).i != s.readIdx ==> !Claimed(s)
  }

  ghost function Exec<T, U>(apply: (U, T) -> T, s: State<T, U>, acts: seq<Action<U>>, care: bool): Option<State<T, U>>
    requires |s.buffers| == 2 && s.readIdx <= 1
    decreases |acts|
  {
    if acts == [] then Some(s)
    else if care && !Disciplined(s, acts[0]) then None
    else match Step(apply, s, acts[0])
      case None => None
      case Some(s') => Exec(apply, s', acts[1..], care)
  }

  /** The data after applying the updates in order. */
  function Fold<T, U>(apply: (U, T) -> T, data: T, us: seq<U>): T {
    if us == [] then data else apply(us[|us| - 1], Fold(apply, data, us[..|us| - 1]))
  }

  lemma FoldOneMore<T, U>(apply: (U, T) -> T, data: T, us: seq<U>, u: U)
    ensures Fold(apply, data, us + [u]) == apply(u, Fold(apply, data, us))
  {
    assert (us + [u])[..|us|] == us;
  }

  // ---- Invariant ----

  /** The contents of the two buffers, by writer phase. */
  ghost predicate BuffersRight<T, U>(apply: (U, T) -> T, data: T, s: State<T, U>) {
    && |s.buffers| == 2 && s.readIdx <= 1
    && var before := Fold(apply, data, s.done);
    && var w := s.WriteIdx();
    match s.writer
    case Free => s.buffers[0] == s.buffers[1] == Whole(before) && s.ownRef == None
    case In(u, round, phase) =>
      && var after := Fold(apply, data, s.done + [u]);
      && 1 <= round <= 2
      && s.buffers[s.readIdx] == Whole(if round == 1 then before else after)
      && (match phase
          case Updating(prior) => prior == before && s.buffers[w] == Torn
          case Updated => s.buffers[w] == Whole(after)
          case _ => s.buffers[w] == Whole(before))
      && (if phase.Waiting? || phase.Alone?
          then s.ownRef == if round == 1 then None else Some(s.readIdx)
          else s.ownRef == Some(w))
  }

  /** What a reader's position promises. */
  ghost predicate ReaderRight<T, U>(apply: (U, T) -> T, data: T, s: State<T, U>, r: nat)
    requires |s.buffers| == 2 && s.readIdx <= 1
  {
    match s.Reader(r)
    case Out => true
    case ReadIndex(i) => i <= 1
    case Reading(i, version) =>
      && i <= 1 && version <= s.Published()
      && s.buffers[i] == Whole(Fold(apply, data, s.Updates()[..version]))
      && (Claimed(s) ==> i == s.readIdx)
  }

  ghost predicate Inv<T(!new), U(!new)>(apply: (U, T) -> T, data: T, s: State<T, U>) {
    BuffersRight(apply, data, s) && forall r :: ReaderRight(apply, data, s, r)
  }

  lemma StepKeepsBuffers<T, U>(apply: (U, T) -> T, data: T, s: State<T, U>, a: Action<U>)
    requires BuffersRight(apply, data, s) && Step(apply, s, a).Some?
    ensures BuffersRight(apply, data, Step(apply, s, a).value)
  {
    hide Fold;
    if a.EndUpdate? {
      FoldOneMore(apply, data, s.done, s.writer.u);
    }
  }

  lemma UnusedMeansNoReader<T, U>(s: State<T, U>, i: int, r: nat)
    requires s.UseCount(i) == 1
    ensures !(s.Reader(r).Reading? && s.Reader(r).i == i)
  {
    assert s.Holders(i) == {};
    assert r !in s.Holders(i);
  }

  /** A step that leaves a reader's position alone, and its buffer, keeps the reader right. */
  lemma ReaderStays<T, U>(apply: (U, T) -> T, data: T, s: State<T, U>, s': State<T, U>, r: nat)
    requires |s.buffers| == 2 == |s'.buffers| && s.readIdx <= 1 && s'.readIdx <= 1
    requires ReaderRight(apply, data, s, r) && s'.Reader(r) == s.Reader(r)
    requires s.Reader(r).Reading? ==>
      && s'.buffers[s.Reader(r).i] == s.buffers[s.Reader(r).i]
      && (Claimed(s') ==> s.Reader(r).i == s'.readIdx)
    requires s.Updates() <= s'.Updates() && s.Published() <= s'.Published() && s.Published() <= |s.Updates()|
    ensures ReaderRight(apply, data, s', r)
  {
    if s.Reader(r).Reading? {
      assert s'.Updates()[..s.Reader(r).version] == s.Updates()[..s.Reader(r).version];
    }
  }

  lemma HistoryGrows<T, U>(apply: (U, T) -> T, data: T, s: State<T, U>, a: Action<U>)
    requires BuffersRight(apply, data, s) && Step(apply, s, a).Some?
    ensures var s' := Step(apply, s, a).value;
      s.Updates() <= s'.Updates() && s.Published() <= s'.Published()
    ensures s.Published() <= |s.Updates()|
  {
    hide Fold;
  }

  lemma StepKeepsReader<T(!new), U(!new)>(apply: (U, T) -> T, data: T, s: State<T, U>, a: Action<U>, r: nat)
    requires Inv(apply, data, s) && Disciplined(s, a) && Step(apply, s, a).Some?
    requires BuffersRight(apply, data, Step(apply, s, a).value)
    ensures ReaderRight(apply, data, Step(apply, s, a).value, r)
  {
    hide Fold;
    assert ReaderRight(apply, data, s, r);
    HistoryGrows(apply, data, s, a);
    var s' := Step(apply, s, a).value;
    if s'.Reader(r) == s.Reader(r) {
      if a.SeeUnused? {
        UnusedMeansNoReader(s, s.WriteIdx(), r);
      }
      ReaderStays(apply, data, s, s', r);
    } else if a.CopyPointer? {
      var v := s.Shown(s.Reader(r).i);
      assert s.Updates()[..v] == if v == |s.done| then s.done else s.done + [s.writer.u];
    }
  }

  lemma StepKeepsInv<T(!new), U(!new)>(apply: (U, T) -> T, data: T, s: State<T, U>, a: Action<U>)
    requires Inv(apply, data, s) && Disciplined(s, a) && Step(apply, s, a).Some?
    ensures Inv(apply, data, Step(apply, s, a).value)
  {
    StepKeepsBuffers(apply, data, s, a);
    forall r ensures ReaderRight(apply, data, Step(apply, s, a).value, r) {
      StepKeepsReader(apply, data, s, a, r);
    }
  }

  // ---- Whole runs ----

  lemma {:induction false} ExecKeepsInv<T(!new), U(!new)>(
    apply: (U, T) -> T, data: T, s: State<T, U>, acts: seq<Action<U>>)
    requires Inv(apply, data, s) && Exec(apply, s, acts, true).Some?
    ensures Inv(apply, data, Exec(apply, s, acts, true).value)
    decreases |acts|
  {
    if acts != [] {
      StepKeepsInv(apply, data, s, acts[0]);
      ExecKeepsInv(apply, data, Step(apply, s, acts[0]).value, acts[1..]);
    }
  }

  /** In a disciplined run a reader's buffer is whole and shows a prefix of the serialised updates. */
  lemma ReadersSeeWholePrefixes<T(!new), U(!new)>(apply: (U, T) -> T, data: T, acts: seq<Action<U>>, r: nat)
    requires Exec(apply, Init(data), acts, true).Some?
    requires Exec(apply, Init(data), acts, true).value.Reader(r).Reading?
    ensures var s := Exec(apply, Init(data), acts, true).value;
      && s.Reader(r).i < |s.buffers| && s.Reader(r).version <= |s.Updates()|
      && s.buffers[s.Reader(r).i] == Whole(Fold(apply, data, s.Updates()[..s.Reader(r).version]))
  {
    assert Inv(apply, data, Init<T, U>(data));
    ExecKeepsInv(apply, data, Init(data), acts);
    assert ReaderRight(apply, data, Exec(apply, Init(data), acts, true).value, r);
  }

  /** A buffer the writer has claimed, torn or about to be, is held by no reader. */
  lemma NoReaderOnTornBuffer<T(!new), U(!new)>(apply: (U, T) -> T, data: T, acts: seq<Action<U>>, r: nat)
    requires Exec(apply, Init(data), acts, true).Some?
    ensures var s := Exec(apply, Init(data), acts, true).value;
      Claimed(s) ==>
        !(s.Reader(r).Reading? && s.Reader(r).i == s.WriteIdx())
  {
    assert Inv(apply, data, Init<T, U>(data));
    ExecKeepsInv(apply, data, Init(data), acts);
    assert ReaderRight(apply, data, Exec(apply, Init(data), acts, true).value, r);
  }

  /** Whenever the writer mutex is free both buffers hold the fold of all completed updates. */
  lemma BuffersAgreeWhenFree<T(!new), U(!new)>(apply: (U, T) -> T, data: T, acts: seq<Action<U>>)
    requires Exec(apply, Init(data), acts, true).Some?
    ensures var s := Exec(apply, Init(data), acts, true).value;
      s.writer.Free? ==> s.buffers == [Whole(Fold(apply, data, s.done)), Whole(Fold(apply, data, s.done))]
  {
    assert Inv(apply, data, Init<T, U>(data));
    ExecKeepsInv(apply, data, Init(data), acts);
  }

  lemma HeldUntilReleased<T, U>(apply: (U, T) -> T, data: T, s: State<T, U>, a: Action<U>, r: nat)
    requires BuffersRight(apply, data, s) && Step(apply, s, a).Some?
    ensures var s' := Step(apply, s, a).value;
      && (s.Reader(r).Reading? ==> s'.Reader(r) == s.Reader(r) || (a == Release(r) && s'.Reader(r).Out?))
      && (s'.Reader(r).Reading? && s'.Reader(r) != s.Reader(r) ==>
          s.Reader(r).ReadIndex? && s'.Reader(r).version == s.Shown(s.Reader(r).i))
      && (s'.Reader(r).ReadIndex? ==> s'.Reader(r) == s.Reader(r) || s'.Reader(r).i == s.readIdx)
      && s.Shown(0) <= s'.Shown(0) && s.Shown(1) <= s'.Shown(1)
  {
    hide Fold;
  }

  /** No position of reader r shows, or will on the copy of its pointer, fewer than version updates. */
  ghost predicate SeesAtLeast<T, U>(s: State<T, U>, r: nat, version: nat) {
    && version <= s.Published()
    && (s.Reader(r).ReadIndex? ==> version <= s.Shown(s.Reader(r).i))
    && (s.Reader(r).Reading? ==> version <= s.Reader(r).version)
  }

  lemma IndexInRange<T, U>(apply: (U, T) -> T, data: T, s: State<T, U>, r: nat)
    requires |s.buffers| == 2 && s.readIdx <= 1 && ReaderRight(apply, data, s, r)
    ensures s.Reader(r).ReadIndex? ==> s.Reader(r).i <= 1
  {
  }

  /** A version a reader holds stays the same until released, and later loads never see less. */
  lemma {:induction false} VersionsOnlyGrow<T(!new), U(!new)>(
    apply: (U, T) -> T, data: T, s: State<T, U>, acts: seq<Action<U>>, r: nat, version: nat)
    requires Inv(apply, data, s) && Exec(apply, s, acts, true).Some?
    requires SeesAtLeast(s, r, version)
    ensures var s' := Exec(apply, s, acts, true).value;
      && SeesAtLeast(s', r, version)
      && (s.Reader(r).Reading? && Release(r) !in acts ==> s'.Reader(r) == s.Reader(r))
    decreases |acts|
  {
    hide Step, ReaderRight;
    if acts != [] {
      StepKeepsInv(apply, data, s, acts[0]);
      HistoryGrows(apply, data, s, acts[0]);
      HeldUntilReleased(apply, data, s, acts[0], r);
      assert ReaderRight(apply, data, s, r);
      IndexInRange(apply, data, s, r);
      VersionsOnlyGrow(apply, data, Step(apply, s, acts[0]).value, acts[1..], r, version);
    }
  }

  // ---- Calls ----

  /** The updaters given to the calls of Update, in the order of the mutex. */
  function Entered<U>(acts: seq<Action<U>>): seq<U> {
    if acts == [] then []
    else (if acts[0].EnterUpdate? then [acts[0].u] else []) + Entered(acts[1..])
  }

  lemma StepUpdates<T, U>(apply: (U, T) -> T, s: State<T, U>, a: Action<U>)
    requires |s.buffers| == 2 && s.readIdx <= 1 && Step(apply, s, a).Some?
    ensures Step(apply, s, a).value.Updates() == s.Updates() + (if a.EnterUpdate? then [a.u] else [])
  {
  }

  /** The updates of a run are those of its calls, none lost, none added, in their order. */
  lemma {:induction false} UpdatesInCallOrder<T, U>(apply: (U, T) -> T, s: State<T, U>, acts: seq<Action<U>>, care: bool)
    requires |s.buffers| == 2 && s.readIdx <= 1 && Exec(apply, s, acts, care).Some?
    ensures Exec(apply, s, acts, care).value.Updates() == s.Updates() + Entered(acts)
    decreases |acts|
  {
    hide Step;
    if acts != [] {
      StepUpdates(apply, s, acts[0]);
      StepKeepsForm(apply, s, acts[0]);
      UpdatesInCallOrder(apply, Step(apply, s, acts[0]).value, acts[1..], care);
    }
  }

  lemma StepKeepsForm<T, U>(apply: (U, T) -> T, s: State<T, U>, a: Action<U>)
    requires |s.buffers| == 2 && s.readIdx <= 1 && Step(apply, s, a).Some?
    ensures var s' := Step(apply, s, a).value; |s'.buffers| == 2 && s'.readIdx <= 1
  {
  }

  /** A Load that nothing interrupts always succeeds and shows every published update. */
  lemma LoadShowsPublished<T(!new), U(!new)>(apply: (U, T) -> T, data: T, s: State<T, U>, r: nat)
    requires Inv(apply, data, s) && s.Reader(r).Out?
    ensures var s1 := Step(apply, s, LoadIndex(r));
      && s1.Some? && |s1.value.buffers| == 2 && s1.value.readIdx <= 1 && Disciplined(s1.value, CopyPointer(r))
      && var s2 := Step(apply, s1.value, CopyPointer(r));
      && s2.Some? && s2.value.Reader(r).Reading? && s2.value.Reader(r).i < |s2.value.buffers|
      && s.Published() <= |s.Updates()|
      && s2.value.buffers[s2.value.Reader(r).i] == Whole(Fold(apply, data, s.Updates()[..s.Published()]))
  {
    hide Fold, ReaderRight;
    assert s.Updates()[..s.Published()] == if s.writer.In? && s.writer.round == 2 then s.done + [s.writer.u] else s.done;
  }

  // ---- Progress ----

  /** What the writer does next. */
  function WriterNext<T, U>(round: nat, phase: Phase<T>): Action<U> {
    match phase
    case Waiting => SeeUnused
    case Alone => TakeReference
    case Got => BeginUpdate
    case Updating(_) => EndUpdate
    case Updated => if round == 1 then Swap else LeaveUpdate
  }

  function StepsLeft<T, U>(w: Writer<T, U>): int {
    match w
    case Free => 0
    case In(_, round, phase) =>
      (if round == 1 then 5 else 0) + (match phase
        case Waiting => 5
        case Alone => 4
        case Got => 3
        case Updating(_) => 2
        case Updated => 1)
  }

  lemma WriterStep<T(!new), U(!new)>(apply: (U, T) -> T, data: T, s: State<T, U>)
    requires Inv(apply, data, s) && s.writer.In? && s.Holders(0) == {} == s.Holders(1)
    ensures var a := WriterNext(s.writer.round, s.writer.phase);
      && Disciplined(s, a)
      && Step(apply, s, a).Some?
      && var s' := Step(apply, s, a).value;
      && s'.readers == s.readers && s'.Updates() == s.Updates()
      && StepsLeft(s'.writer) == StepsLeft(s.writer) - 1
  {
    hide Fold, ReaderRight;
    assert s.WriteIdx() == 0 || s.WriteIdx() == 1;
  }

  /** While no reader holds a buffer, the writer alone completes its update in at most ten steps. */
  lemma {:induction false} UpdateCanFinish<T(!new), U(!new)>(apply: (U, T) -> T, data: T, s: State<T, U>)
    returns (acts: seq<Action<U>>)
    requires Inv(apply, data, s) && s.Holders(0) == {} == s.Holders(1)
    ensures |acts| == StepsLeft(s.writer) <= 10
    ensures var r := Exec(apply, s, acts, true);
      r.Some? && r.value.writer.Free? && r.value.done == s.Updates() && r.value.readers == s.readers
    decreases StepsLeft(s.writer)
  {
    hide Step, Inv;
    RoundsAreTwo(apply, data, s);
    if s.writer.Free? {
      acts := [];
    } else {
      var a := WriterNext(s.writer.round, s.writer.phase);
      WriterStep(apply, data, s);
      StepKeepsInv(apply, data, s, a);
      var s1 := Step(apply, s, a).value;
      SameHolders(s, s1);
      var rest := UpdateCanFinish(apply, data, s1);
      acts := [a] + rest;
      assert acts[1..] == rest;
    }
  }

  ghost function Readers<T, U>(s: State<T, U>): set<nat> {
    s.Holders(0) + s.Holders(1)
  }

  lemma ReleaseStep<T(!new), U(!new)>(apply: (U, T) -> T, data: T, s: State<T, U>, r: nat)
    requires Inv(apply, data, s) && r in Readers(s)
    ensures var a: Action<U> := Release(r);
      && Disciplined(s, a) && Step(apply, s, a).Some?
      && Readers(Step(apply, s, a).value) == Readers(s) - {r}
      && Step(apply, s, a).value.Updates() == s.Updates()
  {
    hide Fold, ReaderRight;
    var s' := Step(apply, s, Release(r)).value;
    assert s'.Holders(0) == s.Holders(0) - {r} && s'.Holders(1) == s.Holders(1) - {r};
  }

  /** Once the readers let go, whatever they hold, the update in progress completes. */
  lemma {:induction false} ReleasedUpdateFinishes<T(!new), U(!new)>(apply: (U, T) -> T, data: T, s: State<T, U>)
    returns (acts: seq<Action<U>>)
    requires Inv(apply, data, s)
    ensures |acts| <= |Readers(s)| + 10
    ensures |s.buffers| == 2 && s.readIdx <= 1
    ensures var r := Exec(apply, s, acts, true);
      r.Some? && r.value.writer.Free? && r.value.done == s.Updates()
    decreases |Readers(s)|
  {
    hide Step, Inv, Disciplined, Readers;
    RoundsAreTwo(apply, data, s);
    if Readers(s) == {} {
      NobodyReads(s);
      acts := UpdateCanFinish(apply, data, s);
    } else {
      SomeReader(Readers(s));
      var r :| r in Readers(s);
      ReleaseStep(apply, data, s, r);
      StepKeepsInv(apply, data, s, Release(r));
      var rest := ReleasedUpdateFinishes(apply, data, Step(apply, s, Release(r)).value);
      acts := [Release(r)] + rest;
      assert acts[1..] == rest;
    }
  }

  lemma SomeReader(rs: set<nat>)
    requires rs != {}
    ensures exists r :: r in rs
  {
    if forall r :: r !in rs {
      assert false;
    }
  }

  lemma NobodyReads<T, U>(s: State<T, U>)
    requires Readers(s) == {}
    ensures s.Holders(0) == {} == s.Holders(1)
  {
    assert s.Holders(0) <= Readers(s) && s.Holders(1) <= Readers(s);
  }

  lemma RoundsAreTwo<T(!new), U(!new)>(apply: (U, T) -> T, data: T, s: State<T, U>)
    requires Inv(apply, data, s)
    ensures |s.buffers| == 2 && s.readIdx <= 1 && 0 <= StepsLeft(s.writer) <= 10
    ensures s.writer.In? ==> StepsLeft(s.writer) > 0
    ensures s.writer.Free? ==> s.done == s.Updates()
  {
    hide Fold, ReaderRight;
  }

  lemma SameHolders<T, U>(s: State<T, U>, s': State<T, U>)
    requires s'.readers == s.readers
    ensures s'.Holders(0) == s.Holders(0) && s'.Holders(1) == s.Holders(1)
  {
  }

  // ---- Why the discipline is needed ----

  /** What the writer does next, up to the start of its update. */
  function Onwards<T, U>(phase: Phase<T>): seq<Action<U>> {
    if phase.Alone? then [TakeReference, BeginUpdate] else if phase.Got? then [BeginUpdate] else []
  }

  lemma ExecFew<T, U>(apply: (U, T) -> T, s: State<T, U>, a: Action<U>, b: Action<U>)
    requires |s.buffers| == 2 && s.readIdx <= 1 && Step(apply, s, a).Some?
    ensures Exec(apply, s, [a], false) == Step(apply, s, a)
    ensures Exec(apply, s, [a, b], false) == Step(apply, Step(apply, s, a).value, b)
  {
    assert [a, b][1..] == [b] && [b][1..] == [];
    var s1 := Step(apply, s, a).value;
    if Step(apply, s1, b).Some? {
      assert Exec(apply, s1, [b], false) == Step(apply, s1, b);
    }
  }

  /**
   Every undisciplined copy does harm: the reader shows an update that is not published, or
   the writer, going on at once, leaves it with a torn buffer.
   */
  lemma UndisciplinedCopyHarms<T(!new), U(!new)>(apply: (U, T) -> T, data: T, s: State<T, U>, r: nat)
    requires Inv(apply, data, s) && Step(apply, s, CopyPointer(r)).Some? && !Disciplined(s, CopyPointer(r))
    ensures var s' := Step(apply, s, CopyPointer(r)).value;
      if s.writer.phase.Updated? then s'.Reader(r).version > s'.Published()
      else var t := Exec(apply, s', Onwards(s.writer.phase), false);
        t.Some? && t.value.Reader(r) == s'.Reader(r) && s'.Reader(r).i < |t.value.buffers| &&
        t.value.buffers[s'.Reader(r).i] == Torn
  {
    assert ReaderRight(apply, data, s, r);
    var s' := Step(apply, s, CopyPointer(r)).value;
    if s.writer.phase.Alone? {
      ExecFew(apply, s', TakeReference, BeginUpdate);
    } else if s.writer.phase.Got? {
      ExecFew(apply, s', BeginUpdate, BeginUpdate);
    }
  }

  function Add(u: int, x: int): int {
    u + x
  }

  function Race(): seq<Action<int>> {
    [LoadIndex(0), EnterUpdate(5), SeeUnused, TakeReference, BeginUpdate, EndUpdate, Swap,
     SeeUnused, TakeReference, BeginUpdate, CopyPointer(0)]
  }

  lemma ExecOne(s: State<int, int>, s': State<int, int>, acts: seq<Action<int>>, i: nat)
    requires |s.buffers| == 2 && s.readIdx <= 1 && i < |acts| && Step(Add, s, acts[i]) == Some(s')
    ensures Exec(Add, s, acts[i..], false) == Exec(Add, s', acts[i + 1..], false)
  {
    assert acts[i..][0] == acts[i] && acts[i..][1..] == acts[i + 1..];
  }

  function FirstRound(i: nat): State<int, int> {
    var rd: map<nat, Reader> := map[0 := ReadIndex(0)];
    var s: State<int, int> := State([Whole(0), Whole(0)], 0, rd, Free, None, []);
    if i == 1 then s
    else if i == 2 then s.(writer := In(5, 1, Waiting))
    else if i == 3 then s.(writer := In(5, 1, Alone))
    else if i == 4 then s.(writer := In(5, 1, Got), ownRef := Some(1))
    else if i == 5 then s.(writer := In(5, 1, Updating(0)), ownRef := Some(1), buffers := [Whole(0), Torn])
    else s.(writer := In(5, 1, Updated), ownRef := Some(1), buffers := [Whole(0), Whole(5)])
  }

  function SecondRound(i: nat): State<int, int> {
    var rd: map<nat, Reader> := map[0 := ReadIndex(0)];
    var s: State<int, int> := State([Whole(0), Whole(5)], 1, rd, In(5, 2, Waiting), Some(1), []);
    if i == 7 then s
    else if i == 8 then s.(writer := In(5, 2, Alone))
    else if i == 9 then s.(writer := In(5, 2, Got), ownRef := Some(0))
    else s.(writer := In(5, 2, Updating(0)), ownRef := Some(0), buffers := [Torn, Whole(5)])
  }

  lemma RaceFirstRound()
    ensures Exec(Add, Init(0), Race()[0..], false) == Exec(Add, SecondRound(7), Race()[7..], false)
  {
    hide Exec;
    var s0: State<int, int> := Init(0);
    assert s0.readers[0 := ReadIndex(0)] == map[0 := ReadIndex(0)];
    ExecOne(s0, FirstRound(1), Race(), 0);
    ExecOne(FirstRound(1), FirstRound(2), Race(), 1);
    assert FirstRound(2).Holders(1) == {};
    ExecOne(FirstRound(2), FirstRound(3), Race(), 2);
    ExecOne(FirstRound(3), FirstRound(4), Race(), 3);
    assert [Whole(0), Whole(0)][1 := Torn] == [Whole(0), Torn];
    ExecOne(FirstRound(4), FirstRound(5), Race(), 4);
    assert [Whole(0), Torn][1 := Whole(5)] == [Whole(0), Whole(5)];
    ExecOne(FirstRound(5), FirstRound(6), Race(), 5);
    ExecOne(FirstRound(6), SecondRound(7), Race(), 6);
  }

  lemma RaceSecondRound()
    ensures Exec(Add, SecondRound(7), Race()[7..], false)
         == Exec(Add, SecondRound(10).SetReader(0, Reading(0, 0)), Race()[11..], false)
  {
    hide Exec;
    assert SecondRound(7).Holders(0) == {};
    ExecOne(SecondRound(7), SecondRound(8), Race(), 7);
    ExecOne(SecondRound(8), SecondRound(9), Race(), 8);
    assert [Whole(0), Whole(5)][0 := Torn] == [Torn, Whole(5)];
    ExecOne(SecondRound(9), SecondRound(10), Race(), 9);
    ExecOne(SecondRound(10), SecondRound(10).SetReader(0, Reading(0, 0)), Race(), 10);
  }

  /** A reader that loaded the index before the swap ends up on the buffer under update. */
  lemma SwapBetweenLoadsTearsRead()
    ensures var r := Exec(Add, Init(0), Race(), false);
      r.Some? && r.value.Reader(0).Reading? && r.value.Reader(0).i < |r.value.buffers| &&
      r.value.buffers[r.value.Reader(0).i] == Torn
  {
    RaceFirstRound();
    RaceSecondRound();
    assert Race()[0..] == Race() && Race()[11..] == [];
  }
}
