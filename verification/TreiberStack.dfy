/**
 The lock-free stack (lockfree/lockfree_stack.cpp) as a step system: every
 atomic load, store or compare-and-swap of any thread is one step, and any
 interleaving of any number of threads is a run.
 */
module TreiberStack {
  import opened Common

  type Node = nat
  type Tid = nat

  datatype Ptr = Null | To(node: Node)

  /** Where a thread stands in Push or Pop. */
  datatype Pc =
    | Idle
    | PushStart(n: Node)             // loop head of Push
    | PushLoaded(n: Node, seen: Ptr) // head loaded, next not yet written
    | PushLinked(n: Node, seen: Ptr) // next written, about to swap
    | PopStart                       // loop head of Pop
    | PopLoaded(h: Node)             // non-null head loaded
    | PopReady(h: Node, nx: Ptr)     // its next read, about to swap
  {
    predicate Pushing() {
      PushStart? || PushLoaded? || PushLinked?
    }

    predicate Popping() {
      PopLoaded? || PopReady?
    }

    predicate InPop() {
      PopStart? || Popping()
    }

    predicate Pushes(x: Node) {
      Pushing() && n == x
    }

    predicate Holds(x: Node) {
      Popping() && h == x
    }
  }

  datatype Event = Pushed(n: Node) | Popped(n: Node) | FoundEmpty

  /** head, next pointers and thread positions, with the history of completed operations. */
  datatype State = State(head: Ptr, next: map<Node, Ptr>, pcs: map<Tid, Pc>, log: seq<Event>, called: set<Node>) {
    function Pc(t: Tid): Pc {
      if t in pcs then pcs[t] else Idle
    }

    function Next(n: Node): Ptr {
      if n in next then next[n] else Null
    }

    function Goto(t: Tid, pc: Pc): State {
      this.(pcs := pcs[t := pc])
    }
  }

  datatype Action =
    | CallPush(t: Tid, n: Node)
    | LoadForPush(t: Tid)
    | Link(t: Tid)
    | PushSwap(t: Tid)
    | CallPop(t: Tid)
    | LoadForPop(t: Tid)
    | ReadNext(t: Tid)
    | PopSwap(t: Tid)
    | SwapFails(t: Tid) // the weak compare-and-swap may fail at any time

  const Init := State(Null, map[], map[], [], {})

  /** The step of an action, if the acting thread is in the right place. */
  function Step(s: State, a: Action): Option<State> {
    var pc := s.Pc(a.t);
    match a
    case CallPush(t, n) =>
      if pc.Idle? then Some(s.Goto(t, PushStart(n)).(called := s.called + {n})) else None
    case LoadForPush(t) =>
      if pc.PushStart? then Some(s.Goto(t, PushLoaded(pc.n, s.head))) else None
    case Link(t) =>
      if pc.PushLoaded? then
        Some(s.Goto(t, PushLinked(pc.n, pc.seen)).(next := s.next[pc.n := pc.seen]))
      else None
    case PushSwap(t) =>
      if pc.PushLinked? && s.head == pc.seen then
        Some(s.Goto(t, Idle).(head := To(pc.n), log := s.log + [Pushed(pc.n)]))
      else None
    case CallPop(t) =>
      if pc.Idle? then Some(s.Goto(t, PopStart)) else None
    case LoadForPop(t) =>
      if !pc.PopStart? then None
      else if s.head.Null? then Some(s.Goto(t, Idle).(log := s.log + [FoundEmpty]))
      else Some(s.Goto(t, PopLoaded(s.head.node)))
    case ReadNext(t) =>
      if pc.PopLoaded? then Some(s.Goto(t, PopReady(pc.h, s.Next(pc.h)))) else None
    case PopSwap(t) =>
      if pc.PopReady? && s.head == To(pc.h) then
        Some(s.Goto(t, Idle).(head := pc.nx, log := s.log + [Popped(pc.h)]))
      else None
    case SwapFails(t) =>
      if pc.PushLinked? then Some(s.Goto(t, PushStart(pc.n)))
      else if pc.PopReady? then Some(s.Goto(t, PopStart))
      else None
  }

  /** The state after a sequence of actions; with care, only disciplined pushes are allowed. */
  ghost function Exec(s: State, acts: seq<Action>, care: bool): Option<State>
    decreases |acts|
  {
    if acts == [] then Some(s)
    else if care && !Disciplined(s, acts[0]) then None
    else match Step(s, acts[0])
      case None => None
      case Some(s') => Exec(s', acts[1..], care)
  }

  // ---- The sequential stack ----

  /** What a sequential stack holds after the operations of log, if they are legal in that order. */
  function Replay(log: seq<Event>): Option<seq<Node>> {
    if log == [] then Some([])
    else match (Replay(log[..|log| - 1]), log[|log| - 1])
      case (None, _) => None
      case (Some(st), Pushed(n)) => Some([n] + st)
      case (Some(st), Popped(n)) => if st != [] && st[0] == n then Some(st[1..]) else None
      case (Some(st), FoundEmpty) => if st == [] then Some(st) else None
  }

  ghost function PushedNodes(log: seq<Event>): multiset<Node> {
    if log == [] then multiset{}
    else PushedNodes(log[..|log| - 1]) + (match log[|log| - 1] case Pushed(n) => multiset{n} case _ => multiset{})
  }

  ghost function PoppedNodes(log: seq<Event>): multiset<Node> {
    if log == [] then multiset{}
    else PoppedNodes(log[..|log| - 1]) + (match log[|log| - 1] case Popped(n) => multiset{n} case _ => multiset{})
  }

  // ---- The discipline ----

  /** n is in nobody's hands: not on the stack, not being pushed, not held by a popper. */
  ghost predicate Free(s: State, n: Node) {
    && (Replay(s.log).Some? ==> n !in Replay(s.log).value)
    && forall t :: !s.Pc(t).Pushes(n) && !s.Pc(t).Holds(n)
  }

  ghost predicate Disciplined(s: State, a: Action) {
    a.CallPush? ==> Free(s, a.n)
  }

  // ---- Invariant ----

  /** The chain of next pointers from p spells st: finite, and ending in null. */
  ghost predicate Chain(p: Ptr, next: map<Node, Ptr>, st: seq<Node>)
    decreases |st|
  {
    if st == [] then p == Null
    else p == To(st[0]) && Chain(if st[0] in next then next[st[0]] else Null, next, st[1..])
  }

  ghost predicate Distinct(st: seq<Node>) {
    forall i, j | 0 <= i < j < |st| :: st[i] != st[j]
  }

  /** What a thread's position promises. */
  ghost predicate PcRight(s: State, st: seq<Node>, t: Tid) {
    var pc := s.Pc(t);
    && (pc.Pushing() ==> pc.n !in st && pc.n in s.called)
    && (pc.PushLinked? ==> s.Next(pc.n) == pc.seen)
    && (pc.Popping() ==> pc.h in s.called)
    && (pc.PopReady? ==> s.Next(pc.h) == pc.nx)
  }

  /** A node being pushed belongs to one thread, and no popper holds it. */
  ghost predicate Apart(s: State, t: Tid, u: Tid) {
    s.Pc(t).Pushing() ==> !s.Pc(u).Holds(s.Pc(t).n) && (t != u ==> !s.Pc(u).Pushes(s.Pc(t).n))
  }

  /** The chain from head is the stack of a legal sequential history. */
  ghost predicate ShapeRight(s: State) {
    && Replay(s.log).Some?
    && Chain(s.head, s.next, Replay(s.log).value)
    && Distinct(Replay(s.log).value)
    && (forall n | n in Replay(s.log).value :: n in s.called)
  }

  ghost predicate Inv(s: State) {
    && ShapeRight(s)
    && (forall t :: PcRight(s, Replay(s.log).value, t))
    && (forall t, u :: Apart(s, t, u))
  }

  lemma {:induction false} ChainIgnoresOthers(p: Ptr, next: map<Node, Ptr>, st: seq<Node>, n: Node, q: Ptr)
    requires Chain(p, next, st) && n !in st
    ensures Chain(p, next[n := q], st)
    decreases |st|
  {
    if st != [] {
      ChainIgnoresOthers(if st[0] in next then next[st[0]] else Null, next, st[1..], n, q);
    }
  }

  lemma ReplayOneMore(log: seq<Event>, e: Event)
    ensures Replay(log + [e]) == match (Replay(log), e)
      case (None, _) => None
      case (Some(st), Pushed(n)) => Some([n] + st)
      case (Some(st), Popped(n)) => if st != [] && st[0] == n then Some(st[1..]) else None
      case (Some(st), FoundEmpty) => if st == [] then Some(st) else None
  {
    assert (log + [e])[..|log|] == log;
  }

  lemma PushSwapKeepsShape(s: State, t: Tid)
    requires ShapeRight(s) && PcRight(s, Replay(s.log).value, t) && Step(s, PushSwap(t)).Some?
    ensures ShapeRight(Step(s, PushSwap(t)).value)
    ensures Replay(Step(s, PushSwap(t)).value.log).value == [s.Pc(t).n] + Replay(s.log).value
  {
    var n, st := s.Pc(t).n, Replay(s.log).value;
    ReplayOneMore(s.log, Pushed(n));
    assert ([n] + st)[1..] == st;
  }

  lemma PopSwapKeepsShape(s: State, t: Tid)
    requires ShapeRight(s) && PcRight(s, Replay(s.log).value, t) && Step(s, PopSwap(t)).Some?
    ensures ShapeRight(Step(s, PopSwap(t)).value)
    ensures Replay(Step(s, PopSwap(t)).value.log).value == Replay(s.log).value[1..]
  {
    ReplayOneMore(s.log, Popped(s.Pc(t).h));
  }

  /** The stack changes only by a successful swap, and exactly by that push or pop. */
  lemma StepKeepsShape(s: State, a: Action)
    requires ShapeRight(s) && PcRight(s, Replay(s.log).value, a.t) && Step(s, a).Some?
    ensures ShapeRight(Step(s, a).value)
    ensures Replay(Step(s, a).value.log).value ==
      if a.PushSwap? then [s.Pc(a.t).n] + Replay(s.log).value
      else if a.PopSwap? then Replay(s.log).value[1..]
      else Replay(s.log).value
  {
    hide Replay, Distinct;
    match a
    case Link(t) =>
      ChainIgnoresOthers(s.head, s.next, Replay(s.log).value, s.Pc(t).n, s.Pc(t).seen);
    case PushSwap(t) =>
      PushSwapKeepsShape(s, t);
    case LoadForPop(t) =>
      ReplayOneMore(s.log, FoundEmpty);
    case PopSwap(t) =>
      PopSwapKeepsShape(s, t);
    case _ =>
  }

  lemma HeadIsTop(s: State)
    requires ShapeRight(s) && s.head.To?
    ensures Replay(s.log).value != [] && s.head.node == Replay(s.log).value[0]
  {
  }

  lemma StepKeepsApart(s: State, a: Action, t: Tid, u: Tid)
    requires Inv(s) && Disciplined(s, a) && Step(s, a).Some?
    ensures Apart(Step(s, a).value, t, u)
  {
    hide Replay, Chain, Distinct;
    assert Apart(s, t, u) && PcRight(s, Replay(s.log).value, t);
    if a.CallPush? {
      assert !s.Pc(t).Pushes(a.n) && !s.Pc(t).Holds(a.n) && !s.Pc(u).Pushes(a.n) && !s.Pc(u).Holds(a.n);
    }
    if a.LoadForPop? && s.head.To? {
      HeadIsTop(s);
    }
  }

  /** A step by another thread leaves a thread's promises intact. */
  lemma OthersKeepPcRight(s: State, a: Action, t: Tid)
    requires Inv(s) && Step(s, a).Some? && t != a.t
    requires ShapeRight(Step(s, a).value)
    ensures PcRight(Step(s, a).value, Replay(Step(s, a).value.log).value, t)
  {
    hide Replay, Chain, Distinct;
    assert PcRight(s, Replay(s.log).value, t) && PcRight(s, Replay(s.log).value, a.t);
    assert Apart(s, a.t, t) && Apart(s, t, a.t);
    StepKeepsShape(s, a);
  }

  lemma ActorGetsPcRight(s: State, a: Action)
    requires Inv(s) && Disciplined(s, a) && Step(s, a).Some?
    requires ShapeRight(Step(s, a).value)
    ensures PcRight(Step(s, a).value, Replay(Step(s, a).value.log).value, a.t)
  {
    hide Replay, Chain, Distinct;
    assert PcRight(s, Replay(s.log).value, a.t);
    StepKeepsShape(s, a);
    if a.LoadForPop? && s.head.To? {
      HeadIsTop(s);
    }
  }

  /** Every step of a disciplined run keeps the invariant. */
  lemma StepKeepsInv(s: State, a: Action)
    requires Inv(s) && Disciplined(s, a) && Step(s, a).Some?
    ensures Inv(Step(s, a).value)
  {
    assert PcRight(s, Replay(s.log).value, a.t);
    StepKeepsShape(s, a);
    forall t, u ensures Apart(Step(s, a).value, t, u) {
      StepKeepsApart(s, a, t, u);
    }
    forall t ensures PcRight(Step(s, a).value, Replay(Step(s, a).value.log).value, t) {
      if t == a.t {
        ActorGetsPcRight(s, a);
      } else {
        OthersKeepPcRight(s, a, t);
      }
    }
  }

  // ---- Whole runs ----

  lemma {:induction false} ExecKeepsInv(s: State, acts: seq<Action>)
    requires Inv(s) && Exec(s, acts, true).Some?
    ensures Inv(Exec(s, acts, true).value)
    decreases |acts|
  {
    if acts != [] {
      StepKeepsInv(s, acts[0]);
      ExecKeepsInv(Step(s, acts[0]).value, acts[1..]);
    }
  }

  /** Pushed nodes are the popped ones plus those still on the stack. */
  lemma {:induction false} NothingLostOrDuplicated(log: seq<Event>)
    requires Replay(log).Some?
    ensures PushedNodes(log) == PoppedNodes(log) + multiset(Replay(log).value)
  {
    if log != [] {
      var rest, e := log[..|log| - 1], log[|log| - 1];
      NothingLostOrDuplicated(rest);
      var st := Replay(rest).value;
      match e
      case Pushed(n) =>
        assert multiset([n] + st) == multiset{n} + multiset(st);
      case Popped(n) =>
        assert st == [st[0]] + st[1..];
      case FoundEmpty =>
    }
  }

  /**
   In every disciplined interleaving the completed operations are a legal history
   of a sequential stack, its contents are the chain from head, and no node is
   lost or duplicated.
   */
  lemma DisciplinedRunsAreStacks(acts: seq<Action>)
    requires Exec(Init, acts, true).Some?
    ensures var s := Exec(Init, acts, true).value;
      && Replay(s.log).Some?
      && Chain(s.head, s.next, Replay(s.log).value)
      && Distinct(Replay(s.log).value)
      && PushedNodes(s.log) == PoppedNodes(s.log) + multiset(Replay(s.log).value)
  {
    assert Inv(Init);
    ExecKeepsInv(Init, acts);
    NothingLostOrDuplicated(Exec(Init, acts, true).value.log);
  }

  /** A node that no call has ever named is free, so pushing each node once is disciplined. */
  lemma UnusedNodeIsFree(s: State, n: Node)
    requires Inv(s) && n !in s.called
    ensures Free(s, n)
  {
    forall t ensures !s.Pc(t).Pushes(n) && !s.Pc(t).Holds(n) {
      assert PcRight(s, Replay(s.log).value, t);
    }
  }

  /** No push call of acts names a node that s or an earlier call of acts has named. */
  ghost predicate PushesOnce(called: set<Node>, acts: seq<Action>)
    decreases |acts|
  {
    acts == [] ||
    (if acts[0].CallPush? then acts[0].n !in called && PushesOnce(called + {acts[0].n}, acts[1..])
     else PushesOnce(called, acts[1..]))
  }

  lemma {:induction false} PushingOnceIsDisciplined(s: State, acts: seq<Action>)
    requires Inv(s) && PushesOnce(s.called, acts) && Exec(s, acts, false).Some?
    ensures Exec(s, acts, true) == Exec(s, acts, false)
    decreases |acts|
  {
    if acts != [] {
      if acts[0].CallPush? {
        UnusedNodeIsFree(s, acts[0].n);
      }
      StepKeepsInv(s, acts[0]);
      PushingOnceIsDisciplined(Step(s, acts[0]).value, acts[1..]);
    }
  }

  ghost predicate LogWithin(s: State) {
    && (forall n :: PushedNodes(s.log)[n] <= 1)
    && (forall n | n in PushedNodes(s.log) :: n in s.called)
    && (forall n, t | n in PushedNodes(s.log) :: !s.Pc(t).Pushes(n))
  }

  lemma {:induction false} PushedOnceEach(s: State, acts: seq<Action>)
    requires Inv(s) && LogWithin(s) && PushesOnce(s.called, acts) && Exec(s, acts, false).Some?
    ensures LogWithin(Exec(s, acts, false).value)
    decreases |acts|
  {
    if acts != [] {
      var s' := Step(s, acts[0]).value;
      if acts[0].CallPush? {
        UnusedNodeIsFree(s, acts[0].n);
      }
      StepKeepsInv(s, acts[0]);
      StepKeepsLogWithin(s, acts[0]);
      PushedOnceEach(s', acts[1..]);
    }
  }

  lemma PushedNodesOneMore(log: seq<Event>, e: Event)
    ensures PushedNodes(log + [e]) == PushedNodes(log) + (if e.Pushed? then multiset{e.n} else multiset{})
  {
    assert (log + [e])[..|log|] == log;
  }

  lemma StepPushedNodes(s: State, a: Action)
    requires Step(s, a).Some?
    ensures PushedNodes(Step(s, a).value.log)
         == PushedNodes(s.log) + (if a.PushSwap? then multiset{s.Pc(a.t).n} else multiset{})
  {
    hide PushedNodes;
    match a
    case PushSwap(t) => PushedNodesOneMore(s.log, Pushed(s.Pc(t).n));
    case PopSwap(t) => PushedNodesOneMore(s.log, Popped(s.Pc(t).h));
    case LoadForPop(t) => PushedNodesOneMore(s.log, FoundEmpty);
    case _ =>
  }

  lemma PushedStaysPushed(s: State, a: Action, n: Node, u: Tid)
    requires Step(s, a).Some? && Apart(s, a.t, u)
    requires a.CallPush? ==> a.n != n
    requires (a.PushSwap? && n == s.Pc(a.t).n) || (!s.Pc(u).Pushes(n) && !s.Pc(a.t).Pushes(n))
    ensures !Step(s, a).value.Pc(u).Pushes(n)
  {
  }

  lemma StepKeepsLogWithin(s: State, a: Action)
    requires Inv(s) && LogWithin(s) && Step(s, a).Some?
    requires a.CallPush? ==> a.n !in s.called
    ensures LogWithin(Step(s, a).value)
  {
    hide Replay, Chain, Distinct, PushedNodes, Step;
    StepPushedNodes(s, a);
    var s' := Step(s, a).value;
    assert PcRight(s, Replay(s.log).value, a.t);
    StepGrowsCalled(s, a);
    forall n, u | n in PushedNodes(s'.log) ensures !s'.Pc(u).Pushes(n) {
      assert Apart(s, a.t, u);
      PushedStaysPushed(s, a, n, u);
    }
  }

  lemma StepGrowsCalled(s: State, a: Action)
    requires Step(s, a).Some?
    ensures s.called <= Step(s, a).value.called
    ensures a.PushSwap? ==> s.Pc(a.t).Pushing()
  {
  }

  /** If every node is pushed at most once, every interleaving is a stack and pops no node twice. */
  lemma PushingOnceIsSafe(acts: seq<Action>)
    requires PushesOnce({}, acts) && Exec(Init, acts, false).Some?
    ensures var s := Exec(Init, acts, false).value;
      && Replay(s.log).Some?
      && Chain(s.head, s.next, Replay(s.log).value)
      && PushedNodes(s.log) == PoppedNodes(s.log) + multiset(Replay(s.log).value)
      && forall n :: PoppedNodes(s.log)[n] <= 1
  {
    assert Inv(Init);
    PushingOnceIsDisciplined(Init, acts);
    DisciplinedRunsAreStacks(acts);
    PushedOnceEach(Init, acts);
    var s := Exec(Init, acts, false).value;
    forall n ensures PoppedNodes(s.log)[n] <= 1 {
      assert PushedNodes(s.log)[n] <= 1;
    }
  }

  // ---- Calls and events ----

  /** How often acts calls Push with node n. */
  function PushCalls(acts: seq<Action>, n: Node): nat {
    if acts == [] then 0 else (if acts[0].CallPush? && acts[0].n == n then 1 else 0) + PushCalls(acts[1..], n)
  }

  function PopCalls(acts: seq<Action>): nat {
    if acts == [] then 0 else (if acts[0].CallPop? then 1 else 0) + PopCalls(acts[1..])
  }

  /** How many pops of the log have returned, with a node or with null. */
  function Answers(log: seq<Event>): nat {
    if log == [] then 0 else Answers(log[..|log| - 1]) + (if log[|log| - 1].Pushed? then 0 else 1)
  }

  /** The threads inside Push with node n. */
  ghost function Pushers(s: State, n: Node): set<Tid> {
    set t | t in s.pcs && s.pcs[t].Pushes(n)
  }

  /** The threads inside Pop. */
  ghost function Poppers(s: State): set<Tid> {
    set t | t in s.pcs && s.pcs[t].InPop()
  }

  lemma AnswersOneMore(log: seq<Event>, e: Event)
    ensures Answers(log + [e]) == Answers(log) + (if e.Pushed? then 0 else 1)
  {
    assert (log + [e])[..|log|] == log;
  }

  lemma PushersUpdate(s: State, s': State, t: Tid, n: Node)
    requires t in s'.pcs && s'.pcs == s.pcs[t := s'.pcs[t]]
    ensures |Pushers(s', n)| == |Pushers(s, n)| - (if s.Pc(t).Pushes(n) then 1 else 0) + (if s'.Pc(t).Pushes(n) then 1 else 0)
  {
    var rest := Pushers(s, n) - {t};
    assert Pushers(s, n) == if s.Pc(t).Pushes(n) then rest + {t} else rest;
    assert Pushers(s', n) == if s'.Pc(t).Pushes(n) then rest + {t} else rest;
  }

  lemma PoppersUpdate(s: State, s': State, t: Tid)
    requires t in s'.pcs && s'.pcs == s.pcs[t := s'.pcs[t]]
    ensures |Poppers(s')| == |Poppers(s)| - (if s.Pc(t).InPop() then 1 else 0) + (if s'.Pc(t).InPop() then 1 else 0)
  {
    var rest := Poppers(s) - {t};
    assert Poppers(s) == if s.Pc(t).InPop() then rest + {t} else rest;
    assert Poppers(s') == if s'.Pc(t).InPop() then rest + {t} else rest;
  }

  lemma PushersAfter(s: State, a: Action, n: Node)
    requires Step(s, a).Some?
    ensures |Pushers(Step(s, a).value, n)| == |Pushers(s, n)|
      + (if a.CallPush? && a.n == n then 1 else 0) - (if a.PushSwap? && s.Pc(a.t).n == n then 1 else 0)
  {
    hide Pushers;
    PushersUpdate(s, Step(s, a).value, a.t, n);
  }

  lemma PoppersAfter(s: State, a: Action)
    requires Step(s, a).Some?
    ensures var s' := Step(s, a).value;
      |Poppers(s')| + Answers(s'.log) == |Poppers(s)| + Answers(s.log) + (if a.CallPop? then 1 else 0)
  {
    hide Answers, Poppers;
    PoppersUpdate(s, Step(s, a).value, a.t);
    match a
    case PushSwap(t) => AnswersOneMore(s.log, Pushed(s.Pc(t).n));
    case PopSwap(t) => AnswersOneMore(s.log, Popped(s.Pc(t).h));
    case LoadForPop(t) => AnswersOneMore(s.log, FoundEmpty);
    case _ =>
  }

  lemma {:induction false} CallsAccountedFrom(s: State, acts: seq<Action>, n: Node)
    requires Exec(s, acts, false).Some?
    ensures var s' := Exec(s, acts, false).value;
      && PushCalls(acts, n) + PushedNodes(s.log)[n] + |Pushers(s, n)| == PushedNodes(s'.log)[n] + |Pushers(s', n)|
      && PopCalls(acts) + Answers(s.log) + |Poppers(s)| == Answers(s'.log) + |Poppers(s')|
    decreases |acts|
  {
    hide Step, PushedNodes, Answers, Pushers, Poppers;
    if acts != [] {
      PushersAfter(s, acts[0], n);
      PoppersAfter(s, acts[0]);
      StepPushedNodes(s, acts[0]);
      CallsAccountedFrom(Step(s, acts[0]).value, acts[1..], n);
    }
  }

  /**
   In every run, disciplined or not, no call is lost: each Push has put its node on the stack
   exactly once or is still at it, and each Pop has returned once or is still at it.
   */
  lemma EveryCallTakesEffectOnce(acts: seq<Action>, n: Node)
    requires Exec(Init, acts, false).Some?
    ensures var s := Exec(Init, acts, false).value;
      && PushCalls(acts, n) == PushedNodes(s.log)[n] + |Pushers(s, n)|
      && PopCalls(acts) == Answers(s.log) + |Poppers(s)|
  {
    hide Exec;
    CallsAccountedFrom(Init, acts, n);
    assert Pushers(Init, n) == {} && Poppers(Init) == {};
  }

  // ---- The destructor ----

  lemma {:induction false} ExecConcat(s: State, a: seq<Action>, b: seq<Action>, care: bool)
    requires Exec(s, a, care).Some?
    ensures Exec(s, a + b, care) == Exec(Exec(s, a, care).value, b, care)
    decreases |a|
  {
    if a == [] {
      assert a + b == b;
    } else {
      assert (a + b)[1..] == a[1..] + b;
      ExecConcat(Step(s, a[0]).value, a[1..], b, care);
    }
  }

  function PopAlone(t: Tid): seq<Action> {
    [CallPop(t), LoadForPop(t), ReadNext(t), PopSwap(t)]
  }

  function PushAlone(t: Tid, n: Node): seq<Action> {
    [CallPush(t, n), LoadForPush(t), Link(t), PushSwap(t)]
  }

  lemma ExecOne(s: State, a: Action, rest: seq<Action>, care: bool)
    requires Step(s, a).Some? && !a.CallPush?
    ensures Exec(s, [a] + rest, care) == Exec(Step(s, a).value, rest, care)
  {
    hide Step;
    assert ([a] + rest)[1..] == rest;
  }

  lemma PopAloneEffect(s: State, t: Tid, care: bool)
    requires s.Pc(t).Idle? && s.head.To?
    ensures Exec(s, PopAlone(t), care)
         == Some(s.(head := s.Next(s.head.node), pcs := s.pcs[t := Idle], log := s.log + [Popped(s.head.node)]))
  {
    hide Exec;
    var s1 := Step(s, CallPop(t)).value;
    var s2 := Step(s1, LoadForPop(t)).value;
    var s3 := Step(s2, ReadNext(t)).value;
    var s4 := Step(s3, PopSwap(t)).value;
    assert s4.pcs == s.pcs[t := Idle];
    var r3 := [PopSwap(t)] + [];
    var r2 := [ReadNext(t)] + r3;
    var r1 := [LoadForPop(t)] + r2;
    ExecOne(s, CallPop(t), r1, care);
    ExecOne(s1, LoadForPop(t), r2, care);
    ExecOne(s2, ReadNext(t), r3, care);
    ExecOne(s3, PopSwap(t), [], care);
    ExecNothing(s4, care);
    assert PopAlone(t) == [CallPop(t)] + r1;
  }

  lemma ExecNothing(s: State, care: bool)
    ensures Exec(s, [], care) == Some(s)
  {
  }

  lemma ExecCall(s: State, a: Action, rest: seq<Action>)
    requires Step(s, a).Some?
    ensures Exec(s, [a] + rest, false) == Exec(Step(s, a).value, rest, false)
  {
    hide Step;
    assert ([a] + rest)[1..] == rest;
  }

  lemma PushAloneEffect(s: State, t: Tid, n: Node)
    requires s.Pc(t).Idle?
    ensures Exec(s, PushAlone(t, n), false)
         == Some(s.(head := To(n), next := s.next[n := s.head], pcs := s.pcs[t := Idle],
                    log := s.log + [Pushed(n)], called := s.called + {n}))
  {
    hide Exec;
    var s1 := Step(s, CallPush(t, n)).value;
    var s2 := Step(s1, LoadForPush(t)).value;
    var s3 := Step(s2, Link(t)).value;
    var s4 := Step(s3, PushSwap(t)).value;
    assert s4.pcs == s.pcs[t := Idle];
    var r3 := [PushSwap(t)] + [];
    var r2 := [Link(t)] + r3;
    var r1 := [LoadForPush(t)] + r2;
    ExecCall(s, CallPush(t, n), r1);
    ExecOne(s1, LoadForPush(t), r2, false);
    ExecOne(s2, Link(t), r3, false);
    ExecOne(s3, PushSwap(t), [], false);
    ExecNothing(s4, false);
    assert PushAlone(t, n) == [CallPush(t, n)] + r1;
  }

  /** k pops that succeed and one that finds the stack empty. */
  function Drain(t: Tid, k: nat): seq<Action> {
    if k == 0 then [CallPop(t), LoadForPop(t)] else PopAlone(t) + Drain(t, k - 1)
  }

  lemma FindEmptyEffect(s: State, t: Tid)
    requires s.Pc(t).Idle? && s.head.Null?
    ensures Exec(s, Drain(t, 0), true) == Some(s.(pcs := s.pcs[t := Idle], log := s.log + [FoundEmpty]))
  {
    hide Exec;
    var s1 := Step(s, CallPop(t)).value;
    var r1 := [LoadForPop(t)] + [];
    ExecOne(s, CallPop(t), r1, true);
    ExecOne(s1, LoadForPop(t), [], true);
    ExecNothing(Step(s1, LoadForPop(t)).value, true);
    assert Drain(t, 0) == [CallPop(t)] + r1;
    assert Step(s1, LoadForPop(t)).value.pcs == s.pcs[t := Idle];
  }

  // ---- The destructor, over all its runs ----

  /** A run of thread t that pushes nothing: what the destructor does, its swaps failing as they may. */
  ghost predicate OnlyPops(t: Tid, acts: seq<Action>) {
    forall a | a in acts :: a.t == t && !a.CallPush?
  }

  function Swaps(acts: seq<Action>): nat {
    if acts == [] then 0 else (if acts[0].PopSwap? then 1 else 0) + Swaps(acts[1..])
  }

  function Failures(acts: seq<Action>): nat {
    if acts == [] then 0 else (if acts[0].SwapFails? then 1 else 0) + Failures(acts[1..])
  }

  /** The events of popping st from the top and finding the stack empty e times. */
  function PopEvents(st: seq<Node>, e: nat): seq<Event> {
    if st != [] then [Popped(st[0])] + PopEvents(st[1..], e)
    else if e == 0 then [] else [FoundEmpty] + PopEvents(st, e - 1)
  }

  /** Steps taken since the call of Pop or the last failed swap. */
  function Progress(pc: Pc): nat {
    match pc
    case PopStart => 1
    case PopLoaded(_) => 2
    case PopReady(_, _) => 3
    case _ => 0
  }

  /** Alone on the stack, thread t knows the top and what is below it. */
  ghost predicate Alone(s: State, t: Tid) {
    var pc := s.Pc(t);
    && !pc.Pushing()
    && (pc.Popping() ==> s.head == To(pc.h))
    && (pc.PopReady? ==> pc.nx == s.Next(pc.h))
  }

  /** Popped so far: a prefix of st; k nodes are gone and the stack was found empty e times. */
  ghost predicate PoppedPrefix(s: State, s': State, st: seq<Node>, k: nat, e: nat) {
    && k <= |st| && Chain(s'.head, s'.next, st[k..])
    && s'.log == s.log + PopEvents(st[..k], e)
    && (e > 0 ==> k == |st| && s'.head == Null)
  }

  lemma AloneStep(s: State, t: Tid, st: seq<Node>, a: Action)
    requires Alone(s, t) && Chain(s.head, s.next, st) && a.t == t && !a.CallPush? && Step(s, a).Some?
    ensures var s' := Step(s, a).value;
      && Alone(s', t) && s'.next == s.next
      && (a.PopSwap? ==> st != [] && Chain(s'.head, s'.next, st[1..]) && s'.log == s.log + [Popped(st[0])])
      && (!a.PopSwap? ==> s'.head == s.head && (s'.log == s.log || (s'.log == s.log + [FoundEmpty] && st == [])))
    ensures var s' := Step(s, a).value;
      1 + Progress(s.Pc(t)) == Progress(s'.Pc(t)) + (if a.PopSwap? then 4 else 0) + (if a.SwapFails? then 3 else 0)
        + (if !a.PopSwap? && s'.log != s.log then 2 else 0)
  {
  }

  lemma {:induction false} PopEventsLength(st: seq<Node>, e: nat)
    ensures |PopEvents(st, e)| == |st| + e
    decreases |st|, e
  {
    if st != [] {
      PopEventsLength(st[1..], e);
    } else if e > 0 {
      PopEventsLength(st, e - 1);
    }
  }

  lemma PrefixOneMore(s: State, s1: State, s': State, st: seq<Node>, k: nat, e: nat)
    requires st != [] && s1.log == s.log + [Popped(st[0])] && PoppedPrefix(s1, s', st[1..], k, e)
    ensures PoppedPrefix(s, s', st, k + 1, e)
  {
    assert st[1..][k..] == st[k + 1..] && st[..k + 1][1..] == st[1..][..k];
  }

  lemma EmptyOneMore(s: State, s1: State, s': State, k: nat, e: nat)
    requires s1.log == s.log + [FoundEmpty] && PoppedPrefix(s1, s', [], k, e)
    ensures PoppedPrefix(s, s', [], k, e + 1)
  {
    var none: seq<Node> := [];
    assert none[..k] == none && none[k..] == none;
    assert PopEvents([], e + 1) == [FoundEmpty] + PopEvents([], e);
  }

  lemma {:induction false} PopsInOrder(s: State, t: Tid, st: seq<Node>, acts: seq<Action>) returns (e: nat)
    requires Alone(s, t) && Chain(s.head, s.next, st) && OnlyPops(t, acts) && Exec(s, acts, false).Some?
    ensures var s' := Exec(s, acts, false).value;
      && PoppedPrefix(s, s', st, Swaps(acts), e)
      && |acts| + Progress(s.Pc(t)) == Times4(Swaps(acts)) + Times3(Failures(acts)) + (e + e) + Progress(s'.Pc(t))
    decreases |acts|
  {
    hide Chain, PopEvents, Step, Alone, PoppedPrefix, Progress;
    if acts == [] {
      NothingPopped(s, st);
      e := 0;
    } else {
      var a := acts[0];
      assert a in acts;
      var s1 := Step(s, a).value;
      AloneStep(s, t, st, a);
      e := PopsInOrder(s1, t, if a.PopSwap? then st[1..] else st, acts[1..]);
      var s' := Exec(s, acts, false).value;
      if a.PopSwap? {
        PrefixOneMore(s, s1, s', st, Swaps(acts[1..]), e);
      } else if s1.log != s.log {
        EmptyOneMore(s, s1, s', Swaps(acts[1..]), e);
        e := e + 1;
      } else {
        SameStart(s, s1, s', st, Swaps(acts), e);
      }
    }
  }

  function Times3(n: nat): nat { n + n + n }

  function Times4(n: nat): nat { n + n + n + n }

  lemma NothingPopped(s: State, st: seq<Node>)
    requires Chain(s.head, s.next, st)
    ensures PoppedPrefix(s, s, st, 0, 0)
  {
    assert st[0..] == st && st[..0] == [];
  }

  lemma SameStart(s: State, s1: State, s': State, st: seq<Node>, k: nat, e: nat)
    requires s1.log == s.log && PoppedPrefix(s1, s', st, k, e)
    ensures PoppedPrefix(s, s', st, k, e)
  {
  }

  /**
   Every run of the destructor, whatever swaps fail: it has popped a prefix of the stack,
   top first, the rest is still linked, and once a pop returns null nothing is left.
   */
  lemma DestructorEmpties(s: State, t: Tid, st: seq<Node>, acts: seq<Action>)
    requires Chain(s.head, s.next, st) && s.Pc(t).Idle? && OnlyPops(t, acts) && Exec(s, acts, false).Some?
    ensures var s', k := Exec(s, acts, false).value, Swaps(acts);
      && k <= |st| && Chain(s'.head, s'.next, st[k..])
      && |s'.log| >= |s.log| + k && s'.log == s.log + PopEvents(st[..k], |s'.log| - |s.log| - k)
      && (|s'.log| > |s.log| + k ==> s'.head == Null && k == |st|)
  {
    var e := PopsInOrder(s, t, st, acts);
    PopEventsLength(st[..Swaps(acts)], e);
  }

  /** Until a pop returns null the run is short: it goes on for ever only if swaps fail for ever. */
  lemma DestructorRunBounded(s: State, t: Tid, st: seq<Node>, acts: seq<Action>)
    requires Chain(s.head, s.next, st) && s.Pc(t).Idle? && OnlyPops(t, acts) && Exec(s, acts, false).Some?
    requires |Exec(s, acts, false).value.log| == |s.log| + Swaps(acts)
    ensures |acts| <= Times4(|st|) + Times3(Failures(acts)) + 3
  {
    var e := PopsInOrder(s, t, st, acts);
    PopEventsLength(st[..Swaps(acts)], e);
  }

  /** It can always end: the run whose swaps succeed pops every node once and finds the stack empty. */
  lemma {:induction false} DestructorCanEnd(s: State, t: Tid, st: seq<Node>)
    requires Chain(s.head, s.next, st) && s.Pc(t).Idle?
    ensures var r := Exec(s, Drain(t, |st|), true);
      r.Some? && r.value.head == Null && r.value.log == s.log + PopEvents(st, 1)
    decreases |st|
  {
    hide Exec, PopAlone, Drain, Step;
    if st == [] {
      FindEmptyEffect(s, t);
      assert PopEvents([], 1) == [FoundEmpty];
    } else {
      PopAloneEffect(s, t, true);
      DestructorCanEnd(Exec(s, PopAlone(t), true).value, t, st[1..]);
      DrainOneMore(s, t, st);
    }
  }

  lemma DrainOneMore(s: State, t: Tid, st: seq<Node>)
    requires st != [] && Exec(s, PopAlone(t), true).Some?
    ensures Exec(s, Drain(t, |st|), true) == Exec(Exec(s, PopAlone(t), true).value, Drain(t, |st| - 1), true)
    ensures s.log + PopEvents(st, 1) == s.log + [Popped(st[0])] + PopEvents(st[1..], 1)
  {
    hide Exec, PopAlone;
    ExecConcat(s, PopAlone(t), Drain(t, |st| - 1), true);
  }

  // ---- Why the discipline is needed ----

  /** Some run from here, disciplined itself, ends in a state that is not a stack. */
  ghost predicate CanBreak(s: State) {
    exists acts :: Breaks(s, acts)
  }

  ghost predicate Breaks(s: State, acts: seq<Action>) {
    Exec(s, acts, true).Some? && !ShapeRight(Exec(s, acts, true).value)
  }

  lemma BrokenNow(s: State)
    requires !ShapeRight(s)
    ensures CanBreak(s)
  {
    ExecNothing(s, true);
    assert Breaks(s, []);
  }

  lemma BreaksLater(s: State, a: Action)
    requires Step(s, a).Some? && Disciplined(s, a) && CanBreak(Step(s, a).value)
    ensures CanBreak(s)
  {
    hide Step, Disciplined, ShapeRight;
    var acts :| Breaks(Step(s, a).value, acts);
    assert ([a] + acts)[1..] == acts;
    assert Breaks(s, [a] + acts);
  }

  /** The state in which a push that stands at its loop head has come through. */
  function Through(s: State, t: Tid): State
    requires s.Pc(t).PushStart?
  {
    var n := s.Pc(t).n;
    s.(head := To(n), next := s.next[n := s.head], pcs := s.pcs[t := Idle], log := s.log + [Pushed(n)])
  }

  lemma BreaksOncePushed(s: State, t: Tid)
    requires s.Pc(t).PushStart? && CanBreak(Through(s, t))
    ensures CanBreak(s)
  {
    hide CanBreak;
    var s1 := Step(s, LoadForPush(t)).value;
    var s2 := Step(s1, Link(t)).value;
    var s3 := Step(s2, PushSwap(t)).value;
    assert s3.pcs == s.pcs[t := Idle];
    assert s3 == Through(s, t);
    BreaksLater(s2, PushSwap(t));
    BreaksLater(s1, Link(t));
    BreaksLater(s, LoadForPush(t));
  }

  /** Pushed again, a node that is on the stack is there twice. */
  lemma PushOfStackedBreaks(s: State, t: Tid)
    requires s.Pc(t).PushStart? && ShapeRight(s) && s.Pc(t).n in Replay(s.log).value
    ensures CanBreak(s)
  {
    var n, st := s.Pc(t).n, Replay(s.log).value;
    ReplayOneMore(s.log, Pushed(n));
    var i :| 0 <= i < |st| && st[i] == n;
    assert ([n] + st)[0] == ([n] + st)[i + 1];
    BrokenNow(Through(s, t));
    BreaksOncePushed(s, t);
  }

  lemma TopOfItself(s: State, n: Node, st: seq<Node>)
    requires Replay(s.log) == Some([n] + st) && n !in st && s.head == To(n) && s.Next(n) == To(n)
    ensures !ShapeRight(s)
  {
    assert ([n] + st)[1..] == st;
    assert !Chain(To(n), s.next, st);
  }

  /** A second thread about to push the top node links it to itself. */
  lemma PushOfTopBreaks(s: State, u: Tid, n: Node, st: seq<Node>)
    requires s.Pc(u).Pushes(n) && s.head == To(n) && Replay(s.log) == Some([n] + st) && n !in st
    ensures CanBreak(s)
    decreases if s.Pc(u).PushStart? then 0 else if s.Pc(u).PushLinked? then 1 else 2
  {
    hide CanBreak, Replay, ShapeRight;
    if s.Pc(u).PushStart? {
      var s1 := Step(s, LoadForPush(u)).value;
      var s2 := Step(s1, Link(u)).value;
      TopOfItself(s2, n, st);
      BrokenNow(s2);
      BreaksLater(s1, Link(u));
      BreaksLater(s, LoadForPush(u));
    } else if s.Pc(u).PushLinked? {
      PushOfTopBreaks(Step(s, SwapFails(u)).value, u, n, st);
      BreaksLater(s, SwapFails(u));
    } else {
      PushOfTopBreaks(Step(s, Link(u)).value, u, n, st);
      BreaksLater(s, Link(u));
    }
  }

  lemma {:induction false} ChainStart(p: Ptr, next: map<Node, Ptr>, q: Ptr, next': map<Node, Ptr>, st: seq<Node>)
    requires Chain(p, next, st) && Chain(q, next', st)
    ensures p == q
  {
  }

  /** A popper that read n and its next swaps a wrong node to the top once n is pushed on another one. */
  lemma PushOfHeldBreaks(s: State, t: Tid, u: Tid)
    requires s.Pc(t).PushStart? && s.Pc(u).PopReady? && s.Pc(u).h == s.Pc(t).n && s.Pc(u).nx != s.head
    requires ShapeRight(s)
    ensures CanBreak(s)
  {
    hide CanBreak, Replay, Chain;
    var n, st := s.Pc(t).n, Replay(s.log).value;
    var s1 := Through(s, t);
    var s2 := Step(s1, PopSwap(u)).value;
    ReplayOneMore(s.log, Pushed(n));
    ReplayOneMore(s1.log, Popped(n));
    assert ([n] + st)[1..] == st;
    if ShapeRight(s2) {
      ChainStart(s.head, s.next, s2.head, s2.next, st);
    }
    BrokenNow(s2);
    BreaksLater(s1, PopSwap(u));
    BreaksOncePushed(s, t);
  }

  lemma {:induction false} Unused(used: set<nat>) returns (x: nat)
    ensures forall y | y in used :: y < x
  {
    if used == {} {
      x := 0;
    } else {
      var y :| y in used;
      x := Unused(used - {y});
      x := if y < x then x else y + 1;
      assert forall z | z in used :: z == y || z in used - {y};
    }
  }

  /** A fresh node pushed by a fresh thread makes the popper's next outdated first. */
  lemma PushOfHeldBreaksLater(s: State, t: Tid, u: Tid)
    requires s.Pc(t).PushStart? && s.Pc(u).PopReady? && s.Pc(u).h == s.Pc(t).n && s.Pc(u).nx == s.head
    requires ShapeRight(s) && forall v :: Known(s, v)
    ensures CanBreak(s)
  {
    hide CanBreak, Replay, Chain;
    var v := Unused(s.pcs.Keys);
    var m := Unused(s.called);
    var s1 := Step(s, CallPush(v, m)).value;
    var s2 := Through(s1, v);
    assert v !in s.pcs && m !in s.called;
    FreshIsFree(s, m);
    FreshPushKeepsShape(s1, v, m);
    if s.head.To? {
      HeadIsTop(s);
    }
    PushOfHeldBreaks(s2, t, u);
    BreaksOncePushed(s1, v);
    BreaksLater(s, CallPush(v, m));
  }

  /** The nodes thread v works on have been named by a push. */
  ghost predicate Known(s: State, v: Tid) {
    (s.Pc(v).Pushing() ==> s.Pc(v).n in s.called) && (s.Pc(v).Popping() ==> s.Pc(v).h in s.called)
  }

  lemma FreshIsFree(s: State, m: Node)
    requires ShapeRight(s) && m !in s.called && forall v :: Known(s, v)
    ensures Free(s, m)
  {
    forall v ensures !s.Pc(v).Pushes(m) && !s.Pc(v).Holds(m) {
      assert Known(s, v);
    }
  }

  lemma FreshPushKeepsShape(s: State, v: Tid, m: Node)
    requires s.Pc(v) == PushStart(m) && ShapeRight(s) && m !in Replay(s.log).value && m in s.called
    ensures ShapeRight(Through(s, v))
  {
    var st := Replay(s.log).value;
    ReplayOneMore(s.log, Pushed(m));
    ChainIgnoresOthers(s.head, s.next, st, m, s.head);
    assert ([m] + st)[1..] == st;
  }

  /**
   The discipline is exact: wherever the stack is still a stack, a call that pushes a node
   which is on the stack, being pushed or held by a popper can be followed, with no further
   lapse, by a run after which it is not.
   */
  lemma UndisciplinedPushBreaks(s: State, t: Tid, n: Node)
    requires Inv(s) && s.Pc(t).Idle? && !Disciplined(s, CallPush(t, n))
    ensures CanBreak(Step(s, CallPush(t, n)).value)
  {
    hide CanBreak, Replay, Chain, Distinct;
    var s1, st := Step(s, CallPush(t, n)).value, Replay(s.log).value;
    forall v ensures Known(s1, v) {
      assert PcRight(s, st, v);
    }
    if n in st {
      PushOfStackedBreaks(s1, t);
    } else {
      var u :| s.Pc(u).Pushes(n) || s.Pc(u).Holds(n);
      if s.Pc(u).Pushes(n) {
        ReplayOneMore(s1.log, Pushed(n));
        PushOfTopBreaks(Through(s1, t), u, n, st);
        BreaksOncePushed(s1, t);
      } else {
        HeldBreaks(s1, t, u);
      }
    }
  }

  lemma HeldBreaks(s: State, t: Tid, u: Tid)
    requires s.Pc(t).PushStart? && s.Pc(u).Holds(s.Pc(t).n) && ShapeRight(s) && forall v :: Known(s, v)
    ensures CanBreak(s)
    decreases s.Pc(u).PopLoaded?
  {
    hide CanBreak, ShapeRight;
    if s.Pc(u).PopLoaded? {
      var s1 := Step(s, ReadNext(u)).value;
      ReadNextKeeps(s, u);
      HeldBreaks(s1, t, u);
      BreaksLater(s, ReadNext(u));
    } else if s.Pc(u).nx == s.head {
      PushOfHeldBreaksLater(s, t, u);
    } else {
      PushOfHeldBreaks(s, t, u);
    }
  }

  lemma ReadNextKeeps(s: State, u: Tid)
    requires s.Pc(u).PopLoaded? && ShapeRight(s) && forall v :: Known(s, v)
    ensures var s1 := Step(s, ReadNext(u)).value; ShapeRight(s1) && forall v :: Known(s1, v)
  {
    var s1 := Step(s, ReadNext(u)).value;
    forall v ensures Known(s1, v) {
      assert Known(s, v);
    }
  }

  const Held :=
    State(To(1), map[2 := Null, 1 := To(2)], map[1 := Idle, 0 := PopReady(1, To(2))], [Pushed(2), Pushed(1)], {1, 2})

  function Interrupted(): seq<Action> {
    PushAlone(1, 2) + (PushAlone(1, 1) + [CallPop(0), LoadForPop(0), ReadNext(0)])
  }

  function Meanwhile(): seq<Action> {
    PopAlone(1) + (PopAlone(1) + PushAlone(1, 1)) + [PopSwap(0)]
  }

  lemma ReadAloneEffect(s: State, t: Tid)
    requires s.Pc(t).Idle? && s.head.To?
    ensures Exec(s, [CallPop(t), LoadForPop(t), ReadNext(t)], false)
         == Some(s.(pcs := s.pcs[t := PopReady(s.head.node, s.Next(s.head.node))]))
  {
    hide Exec;
    var s1 := Step(s, CallPop(t)).value;
    var s2 := Step(s1, LoadForPop(t)).value;
    var s3 := Step(s2, ReadNext(t)).value;
    assert s3.pcs == s.pcs[t := PopReady(s.head.node, s.Next(s.head.node))];
    var r2 := [ReadNext(t)] + [];
    var r1 := [LoadForPop(t)] + r2;
    ExecOne(s, CallPop(t), r1, false);
    ExecOne(s1, LoadForPop(t), r2, false);
    ExecOne(s2, ReadNext(t), [], false);
    ExecNothing(s3, false);
    assert [CallPop(t), LoadForPop(t), ReadNext(t)] == [CallPop(t)] + r1;
  }

  /** Thread 0 has read node 1 and its next, node 2. */
  lemma InterruptedPop()
    ensures Exec(Init, Interrupted(), false) == Some(Held)
  {
    hide Exec, Step, PushAlone;
    var s1 := State(To(2), map[2 := Null], map[1 := Idle], [Pushed(2)], {2});
    var s2 := State(To(1), map[2 := Null, 1 := To(2)], map[1 := Idle], [Pushed(2), Pushed(1)], {1, 2});
    var read := [CallPop(0), LoadForPop(0), ReadNext(0)];
    PushAloneEffect(Init, 1, 2);
    assert Init.log + [Pushed(2)] == s1.log && Init.called + {2} == s1.called;
    assert Exec(Init, PushAlone(1, 2), false) == Some(s1);
    PushAloneEffect(s1, 1, 1);
    assert s1.log + [Pushed(1)] == s2.log && s1.called + {1} == s2.called && s1.pcs[1 := Idle] == s2.pcs;
    assert s1.next[1 := To(2)] == s2.next;
    assert Exec(s1, PushAlone(1, 1), false) == Some(s2);
    ReadAloneEffect(s2, 0);
    ExecConcat(s1, PushAlone(1, 1), read, false);
    ExecConcat(Init, PushAlone(1, 2), PushAlone(1, 1) + read, false);
  }

  /** Thread 1 pops both nodes and pushes node 1 again. */
  lemma ReuseByOther()
    ensures Exec(Held, PopAlone(1) + (PopAlone(1) + PushAlone(1, 1)), false)
         == Some(State(To(1), map[2 := Null, 1 := Null], map[1 := Idle, 0 := PopReady(1, To(2))],
                       [Pushed(2), Pushed(1), Popped(1), Popped(2), Pushed(1)], {1, 2}))
  {
    hide Exec, Step, PopAlone, PushAlone;
    PopAloneEffect(Held, 1, false);
    var s4 := State(To(2), Held.next, map[1 := Idle, 0 := PopReady(1, To(2))],
                    [Pushed(2), Pushed(1), Popped(1)], {1, 2});
    assert Held.pcs[1 := Idle] == s4.pcs && Held.log + [Popped(1)] == s4.log;
    assert Exec(Held, PopAlone(1), false) == Some(s4);
    PopAloneEffect(s4, 1, false);
    var s5 := State(Null, Held.next, map[1 := Idle, 0 := PopReady(1, To(2))],
                    [Pushed(2), Pushed(1), Popped(1), Popped(2)], {1, 2});
    assert s4.pcs[1 := Idle] == s5.pcs && s4.log + [Popped(2)] == s5.log;
    assert Exec(s4, PopAlone(1), false) == Some(s5);
    PushAloneEffect(s5, 1, 1);
    assert s5.pcs[1 := Idle] == s5.pcs && s5.called + {1} == s5.called;
    assert s5.next[1 := Null] == map[2 := Null, 1 := Null];
    assert s5.log + [Pushed(1)] == [Pushed(2), Pushed(1), Popped(1), Popped(2), Pushed(1)];
    ExecConcat(s4, PopAlone(1), PushAlone(1, 1), false);
    ExecConcat(Held, PopAlone(1), PopAlone(1) + PushAlone(1, 1), false);
  }

  lemma LateSwap()
    ensures var r := Exec(Held, Meanwhile(), false);
      r.Some? && r.value.head == To(2) &&
      r.value.log == [Pushed(2), Pushed(1), Popped(1), Popped(2), Pushed(1), Popped(1)]
  {
    hide Exec;
    ReuseByOther();
    var others := PopAlone(1) + (PopAlone(1) + PushAlone(1, 1));
    var s6 := Exec(Held, others, false).value;
    ExecOne(s6, PopSwap(0), [], false);
    ExecNothing(Step(s6, PopSwap(0)).value, false);
    assert [PopSwap(0)] + [] == [PopSwap(0)];
    ExecConcat(Held, others, [PopSwap(0)], false);
  }

  lemma ReuseHistory()
    ensures Replay([Pushed(2), Pushed(1), Popped(1), Popped(2), Pushed(1), Popped(1)]) == Some([])
  {
    var e1 := [Pushed(2)];
    var e2 := [Pushed(2), Pushed(1)];
    var e3 := [Pushed(2), Pushed(1), Popped(1)];
    var e4 := [Pushed(2), Pushed(1), Popped(1), Popped(2)];
    var e5 := [Pushed(2), Pushed(1), Popped(1), Popped(2), Pushed(1)];
    assert [] + e1 == e1 && e1 + [Pushed(1)] == e2 && e2 + [Popped(1)] == e3 && e3 + [Popped(2)] == e4;
    ReplayOneMore([], Pushed(2));
    ReplayOneMore(e1, Pushed(1));
    ReplayOneMore(e2, Popped(1));
    ReplayOneMore(e3, Popped(2));
    assert Replay(e4) == Some([]);
    ReplayOneMore(e4, Pushed(1));
    assert e4 + [Pushed(1)] == e5;
    ReplayOneMore(e5, Popped(1));
    assert e5 + [Popped(1)] == [Pushed(2), Pushed(1), Popped(1), Popped(2), Pushed(1), Popped(1)];
  }

  /**
   Thread 0 is about to pop node 1 when thread 1 pops 1 and 2 and pushes 1 again:
   the swap of thread 0 succeeds and puts the popped node 2 back on top, although
   every pushed node has been popped.
   */
  lemma ReusedNodeBreaksTheStack()
    ensures var r := Exec(Init, Interrupted() + Meanwhile(), false);
      && r.Some? && r.value.head == To(2)
      && Replay(r.value.log) == Some([])
      && PushedNodes(r.value.log) == PoppedNodes(r.value.log)
  {
    hide Interrupted, Meanwhile, Step, Disciplined;
    InterruptedPop();
    LateSwap();
    ExecConcat(Init, Interrupted(), Meanwhile(), false);
    ReuseHistory();
    NothingLostOrDuplicated([Pushed(2), Pushed(1), Popped(1), Popped(2), Pushed(1), Popped(1)]);
  }
}
