/**
 The read-copy-update pointer (rcu_ptr/rcu_ptr.h) as a step system over a heap of
 reference-counted objects: addresses may be freed and reused, and the
 compare-and-swap compares addresses only.
 */
module RcuPointer {
  import opened Common

  type Ptr = nat

  /** Where a thread stands in Update. */
  datatype Pc<F> =
    | Idle
    | Copying(ticket: nat, f: F, expected: Ptr, at: nat)         // sp_copy loaded after at commits
    | Private(ticket: nat, f: F, expected: Ptr, at: nat, p: Ptr) // deep copy made at p
    | Applied(ticket: nat, f: F, expected: Ptr, at: nat, p: Ptr) // f applied to the copy
    | Swapped(ticket: nat)                                       // swap done, not yet returned
  {
    predicate Updating() {
      Copying? || Private? || Applied?
    }

    predicate HasCopy() {
      Private? || Applied?
    }
  }

  datatype Commit<T, F> = Set(value: T) | Upd(ticket: nat, f: F)

  datatype State<T, F> = State(
    heap: map<Ptr, T>, cell: Ptr, pcs: map<nat, Pc<F>>, loaded: map<nat, set<Ptr>>,
    log: seq<Commit<T, F>>, nextTicket: nat, committed: set<nat>, finished: set<nat>)
  {
    function Pc(t: nat): Pc<F> {
      if t in pcs then pcs[t] else Idle
    }

    function Loaded(t: nat): set<Ptr> {
      if t in loaded then loaded[t] else {}
    }

    function Goto(t: nat, pc: Pc<F>): State<T, F> {
      this.(pcs := pcs[t := pc])
    }

    /** Some shared pointer of thread t refers to p. */
    predicate Refers(t: nat, p: Ptr) {
      p in Loaded(t) || (Pc(t).Updating() && Pc(t).expected == p)
    }

    predicate Owns(t: nat, p: Ptr) {
      Pc(t).HasCopy() && Pc(t).p == p
    }
  }

  datatype Action<T, F> =
    | Load(t: nat)
    | Drop(t: nat, p: Ptr)
    | StoreNew(t: nat, value: T, p: Ptr)
    | StoreHeld(t: nat, p: Ptr)
    | CallUpdate(t: nat, f: F)
    | DeepCopy(t: nat, p: Ptr)
    | Modify(t: nat)
    | Swap(t: nat)
    | SwapFails(t: nat)
    | Return(t: nat)
    | Reclaim(p: Ptr)

  function Init<T, F>(value: T): State<T, F> {
    State(map[0 := value], 0, map[], map[], [], 0, {}, {})
  }

  ghost function Step<T, F>(apply: (F, T) -> T, s: State<T, F>, a: Action<T, F>): Option<State<T, F>> {
    match a
    case Load(t) =>
      Some(s.(loaded := s.loaded[t := s.Loaded(t) + {s.cell}]))
    case Drop(t, p) =>
      Some(s.(loaded := s.loaded[t := s.Loaded(t) - {p}]))
    case StoreNew(t, v, p) =>
      if p in s.heap then None
      else Some(s.(heap := s.heap[p := v], cell := p, log := s.log + [Set(v)]))
    case StoreHeld(t, p) =>
      if p !in s.Loaded(t) || p !in s.heap then None
      else Some(s.(cell := p, log := s.log + [Set(s.heap[p])]))
    case CallUpdate(t, f) =>
      if !s.Pc(t).Idle? then None
      else Some(s.Goto(t, Copying(s.nextTicket, f, s.cell, |s.log|)).(nextTicket := s.nextTicket + 1))
    case DeepCopy(t, p) =>
      if !s.Pc(t).Copying? || p in s.heap || s.Pc(t).expected !in s.heap then None
      else
        var Copying(k, f, e, at) := s.Pc(t);
        Some(s.Goto(t, Private(k, f, e, at, p)).(heap := s.heap[p := s.heap[e]]))
    case Modify(t) =>
      if !s.Pc(t).Private? || s.Pc(t).p !in s.heap then None
      else
        var Private(k, f, e, at, p) := s.Pc(t);
        Some(s.Goto(t, Applied(k, f, e, at, p)).(heap := s.heap[p := apply(f, s.heap[p])]))
    case Swap(t) =>
      if !s.Pc(t).Applied? || s.cell != s.Pc(t).expected then None
      else
        var Applied(k, f, e, at, p) := s.Pc(t);
        Some(s.Goto(t, Swapped(k)).(cell := p, log := s.log + [Upd(k, f)], committed := s.committed + {k}))
    case SwapFails(t) =>
      if !s.Pc(t).Applied? || s.cell == s.Pc(t).expected then None
      else
        var Applied(k, f, e, at, p) := s.Pc(t);
        Some(s.Goto(t, Copying(k, f, s.cell, |s.log|)).(heap := s.heap - {p}))
    case Return(t) =>
      if !s.Pc(t).Swapped? then None
      else Some(s.Goto(t, Idle).(finished := s.finished + {s.Pc(t).ticket}))
    case Reclaim(p) =>
      if p == s.cell || exists t :: s.Refers(t, p) || s.Owns(t, p) then None
      else Some(s.(heap := s.heap - {p}))
  }

  ghost function Exec<T, F>(apply: (F, T) -> T, s: State<T, F>, acts: seq<Action<T, F>>): Option<State<T, F>>
    decreases |acts|
  {
    if acts == [] then Some(s)
    else match Step(apply, s, acts[0])
      case None => None
      case Some(s') => Exec(apply, s', acts[1..])
  }

  /** The content after the committed operations, in commit order. */
  function Fold<T, F>(apply: (F, T) -> T, value: T, log: seq<Commit<T, F>>): T {
    if log == [] then value
    else match log[|log| - 1]
      case Set(v) => v
      case Upd(_, f) => apply(f, Fold(apply, value, log[..|log| - 1]))
  }

  lemma FoldOneMore<T, F>(apply: (F, T) -> T, value: T, log: seq<Commit<T, F>>, c: Commit<T, F>)
    ensures Fold(apply, value, log + [c])
         == if c.Set? then c.value else apply(c.f, Fold(apply, value, log))
  {
    assert (log + [c])[..|log|] == log;
  }

  /** How often the update with ticket k has been committed. */
  function Applications<T, F>(log: seq<Commit<T, F>>, k: nat): nat {
    if log == [] then 0
    else Applications(log[..|log| - 1], k) + (if log[|log| - 1].Upd? && log[|log| - 1].ticket == k then 1 else 0)
  }

  lemma ApplicationsOneMore<T, F>(log: seq<Commit<T, F>>, c: Commit<T, F>, k: nat)
    ensures Applications(log + [c], k) == Applications(log, k) + (if c.Upd? && c.ticket == k then 1 else 0)
  {
    assert (log + [c])[..|log|] == log;
  }

  // ---- Invariant ----

  ghost predicate ThreadRight<T, F>(apply: (F, T) -> T, s: State<T, F>, t: nat) {
    var pc := s.Pc(t);
    && (forall p | s.Refers(t, p) :: p in s.heap)
    && (pc.Updating() ==> pc.ticket < s.nextTicket && pc.ticket !in s.committed && pc.expected in s.heap)
    && (pc.Updating() ==> pc.at <= |s.log| && (pc.at == |s.log| ==> pc.expected == s.cell))
    && (pc.Swapped? ==> pc.ticket in s.committed)
    && (pc.HasCopy() ==> pc.p in s.heap && pc.p != s.cell)
    && (pc.Private? ==> s.heap[pc.p] == s.heap[pc.expected])
    && (pc.Applied? ==> s.heap[pc.p] == apply(pc.f, s.heap[pc.expected]))
  }

  /** A private copy is known to its thread alone, and no two threads work on one ticket. */
  ghost predicate Apart<T, F>(s: State<T, F>, t: nat, u: nat) {
    && (s.Pc(t).HasCopy() ==> !s.Refers(u, s.Pc(t).p) && (t != u ==> !s.Owns(u, s.Pc(t).p)))
    && (t != u && s.Pc(t).Updating() && s.Pc(u).Updating() ==> s.Pc(t).ticket != s.Pc(u).ticket)
  }

  ghost predicate CellRight<T, F>(apply: (F, T) -> T, value: T, s: State<T, F>) {
    s.cell in s.heap && s.heap[s.cell] == Fold(apply, value, s.log)
  }

  ghost predicate TicketRight<T, F>(s: State<T, F>, k: nat) {
    && Applications(s.log, k) == (if k in s.committed then 1 else 0)
    && (k in s.finished ==> k in s.committed)
    && (k in s.committed ==> k < s.nextTicket)
  }

  ghost predicate Inv<T(!new), F(!new)>(apply: (F, T) -> T, value: T, s: State<T, F>) {
    && CellRight(apply, value, s)
    && (forall t :: ThreadRight(apply, s, t))
    && (forall t, u :: Apart(s, t, u))
    && (forall k :: TicketRight(s, k))
  }

  lemma CellAfter<T, F>(apply: (F, T) -> T, value: T, s: State<T, F>, a: Action<T, F>)
    requires CellRight(apply, value, s) && Step(apply, s, a).Some? && (!a.Reclaim? ==> ThreadRight(apply, s, a.t))
    ensures CellRight(apply, value, Step(apply, s, a).value)
  {
    hide Fold;
    match a
    case StoreNew(t, v, p) => FoldOneMore(apply, value, s.log, Set(v));
    case StoreHeld(t, p) => FoldOneMore(apply, value, s.log, Set(s.heap[p]));
    case Swap(t) => FoldOneMore(apply, value, s.log, Upd(s.Pc(t).ticket, s.Pc(t).f));
    case _ =>
  }

  lemma StepKeepsCell<T(!new), F(!new)>(apply: (F, T) -> T, value: T, s: State<T, F>, a: Action<T, F>)
    requires Inv(apply, value, s) && Step(apply, s, a).Some?
    ensures CellRight(apply, value, Step(apply, s, a).value)
  {
    hide Step, CellRight, ThreadRight, Apart, TicketRight;
    if !a.Reclaim? {
      assert ThreadRight(apply, s, a.t);
    }
    CellAfter(apply, value, s, a);
  }

  lemma TicketAfter<T, F>(apply: (F, T) -> T, s: State<T, F>, a: Action<T, F>, k: nat)
    requires TicketRight(s, k) && Step(apply, s, a).Some?
    requires a.Swap? ==> s.Pc(a.t).ticket !in s.committed && s.Pc(a.t).ticket < s.nextTicket
    requires a.Return? ==> s.Pc(a.t).ticket in s.committed
    ensures TicketRight(Step(apply, s, a).value, k)
  {
    hide Applications;
    match a
    case StoreNew(t, v, p) => ApplicationsOneMore(s.log, Set(v), k);
    case StoreHeld(t, p) => ApplicationsOneMore(s.log, Set(s.heap[p]), k);
    case Swap(t) => ApplicationsOneMore(s.log, Upd(s.Pc(t).ticket, s.Pc(t).f), k);
    case _ =>
  }

  lemma StepKeepsTicket<T(!new), F(!new)>(apply: (F, T) -> T, value: T, s: State<T, F>, a: Action<T, F>, k: nat)
    requires Inv(apply, value, s) && Step(apply, s, a).Some?
    ensures TicketRight(Step(apply, s, a).value, k)
  {
    hide TicketRight, Apart, CellRight;
    if !a.Reclaim? {
      assert ThreadRight(apply, s, a.t);
    }
    TicketAfter(apply, s, a, k);
  }

  lemma StepKeepsApart<T(!new), F(!new)>(
    apply: (F, T) -> T, value: T, s: State<T, F>, a: Action<T, F>, t: nat, u: nat)
    requires Inv(apply, value, s) && Step(apply, s, a).Some?
    ensures Apart(Step(apply, s, a).value, t, u)
  {
    hide Step, Apart, CellRight, TicketRight;
    assert Apart(s, t, u) && Apart(s, u, t) && ThreadRight(apply, s, t) && ThreadRight(apply, s, u);
    if a.DeepCopy? || a.Modify? {
      CopyKeepsApart(apply, s, a, t, u);
    } else if a.Swap? || a.SwapFails? {
      SwapKeepsApart(apply, s, a, t, u);
    } else {
      OtherStepsKeepApart(apply, s, a, t, u);
    }
  }

  /** What keeping threads apart needs to know of one of them. */
  ghost predicate Grounded<T, F>(s: State<T, F>, t: nat) {
    var pc := s.Pc(t);
    && (forall p | s.Refers(t, p) :: p in s.heap)
    && (pc.Updating() ==> pc.ticket < s.nextTicket)
    && (pc.HasCopy() ==> pc.p in s.heap && pc.p != s.cell)
  }

  lemma CopyKeepsApart<T, F>(apply: (F, T) -> T, s: State<T, F>, a: Action<T, F>, t: nat, u: nat)
    requires Apart(s, t, u) && Apart(s, u, t) && Grounded(s, t) && Grounded(s, u)
    requires (a.DeepCopy? || a.Modify?) && Step(apply, s, a).Some?
    ensures Apart(Step(apply, s, a).value, t, u)
  {
  }

  lemma SwapKeepsApart<T, F>(apply: (F, T) -> T, s: State<T, F>, a: Action<T, F>, t: nat, u: nat)
    requires Apart(s, t, u) && Apart(s, u, t) && Grounded(s, t) && Grounded(s, u)
    requires (a.Swap? || a.SwapFails?) && Step(apply, s, a).Some?
    ensures Apart(Step(apply, s, a).value, t, u)
  {
  }

  lemma OtherStepsKeepApart<T, F>(apply: (F, T) -> T, s: State<T, F>, a: Action<T, F>, t: nat, u: nat)
    requires Apart(s, t, u) && Apart(s, u, t) && Grounded(s, t) && Grounded(s, u)
    requires !(a.DeepCopy? || a.Modify? || a.Swap? || a.SwapFails?) && Step(apply, s, a).Some?
    ensures Apart(Step(apply, s, a).value, t, u)
  {
  }

  /** The acting thread, or for Reclaim nobody in particular. */
  function Actor<T, F>(a: Action<T, F>): nat {
    if a.Reclaim? then 0 else a.t
  }

  /** The step is not about what thread t refers to or owns. */
  ghost predicate OthersApart<T, F>(apply: (F, T) -> T, s: State<T, F>, a: Action<T, F>, t: nat) {
    if a.Reclaim? then !s.Refers(t, a.p) && !s.Owns(t, a.p)
    else t != a.t && ThreadRight(apply, s, a.t) && Apart(s, a.t, t) && Apart(s, t, a.t)
  }

  lemma OtherAfterCopy<T, F>(apply: (F, T) -> T, s: State<T, F>, a: Action<T, F>, t: nat)
    requires OthersApart(apply, s, a, t) && ThreadRight(apply, s, t) && Step(apply, s, a).Some?
    requires a.DeepCopy? || a.Modify? || a.SwapFails?
    ensures ThreadRight(apply, Step(apply, s, a).value, t)
  {
  }

  lemma OtherAfterCommit<T, F>(apply: (F, T) -> T, s: State<T, F>, a: Action<T, F>, t: nat)
    requires OthersApart(apply, s, a, t) && ThreadRight(apply, s, t) && Step(apply, s, a).Some?
    requires a.StoreNew? || a.StoreHeld? || a.Swap?
    ensures ThreadRight(apply, Step(apply, s, a).value, t)
  {
  }

  lemma OtherAfterRest<T, F>(apply: (F, T) -> T, s: State<T, F>, a: Action<T, F>, t: nat)
    requires OthersApart(apply, s, a, t) && ThreadRight(apply, s, t) && Step(apply, s, a).Some?
    requires a.Load? || a.Drop? || a.CallUpdate? || a.Return? || a.Reclaim?
    ensures ThreadRight(apply, Step(apply, s, a).value, t)
  {
  }

  lemma OthersKeepThread<T(!new), F(!new)>(apply: (F, T) -> T, value: T, s: State<T, F>, a: Action<T, F>, t: nat)
    requires Inv(apply, value, s) && Step(apply, s, a).Some? && (a.Reclaim? || t != a.t)
    ensures ThreadRight(apply, Step(apply, s, a).value, t)
  {
    hide ThreadRight, Apart, TicketRight, Fold;
    assert ThreadRight(apply, s, t);
    if !a.Reclaim? {
      assert ThreadRight(apply, s, a.t) && Apart(s, a.t, t) && Apart(s, t, a.t);
    }
    if a.DeepCopy? || a.Modify? || a.SwapFails? {
      OtherAfterCopy(apply, s, a, t);
    } else if a.StoreNew? || a.StoreHeld? || a.Swap? {
      OtherAfterCommit(apply, s, a, t);
    } else {
      OtherAfterRest(apply, s, a, t);
    }
  }

  lemma ActorGetsThread<T(!new), F(!new)>(apply: (F, T) -> T, value: T, s: State<T, F>, a: Action<T, F>)
    requires Inv(apply, value, s) && !a.Reclaim? && Step(apply, s, a).Some?
    ensures ThreadRight(apply, Step(apply, s, a).value, a.t)
  {
    hide Fold, Applications;
    assert ThreadRight(apply, s, a.t) && TicketRight(s, s.nextTicket) && Apart(s, a.t, a.t);
  }

  lemma StepKeepsThread<T(!new), F(!new)>(apply: (F, T) -> T, value: T, s: State<T, F>, a: Action<T, F>, t: nat)
    requires Inv(apply, value, s) && Step(apply, s, a).Some?
    ensures ThreadRight(apply, Step(apply, s, a).value, t)
  {
    hide Step, Inv, ThreadRight;
    if a.Reclaim? || t != a.t {
      OthersKeepThread(apply, value, s, a, t);
    } else {
      ActorGetsThread(apply, value, s, a);
    }
  }

  /** Every step keeps the invariant. */
  lemma StepKeepsInv<T(!new), F(!new)>(apply: (F, T) -> T, value: T, s: State<T, F>, a: Action<T, F>)
    requires Inv(apply, value, s) && Step(apply, s, a).Some?
    ensures Inv(apply, value, Step(apply, s, a).value)
  {
    hide Step, CellRight, ThreadRight, Apart, TicketRight;
    var s' := Step(apply, s, a).value;
    StepKeepsCell(apply, value, s, a);
    forall t ensures ThreadRight(apply, s', t) { StepKeepsThread(apply, value, s, a, t); }
    forall t, u ensures Apart(s', t, u) { StepKeepsApart(apply, value, s, a, t, u); }
    forall k ensures TicketRight(s', k) { StepKeepsTicket(apply, value, s, a, k); }
  }

  // ---- Whole runs ----

  lemma {:induction false} ExecKeepsInv<T(!new), F(!new)>(
    apply: (F, T) -> T, value: T, s: State<T, F>, acts: seq<Action<T, F>>)
    requires Inv(apply, value, s) && Exec(apply, s, acts).Some?
    ensures Inv(apply, value, Exec(apply, s, acts).value)
    decreases |acts|
  {
    hide Inv, Step;
    if acts != [] {
      StepKeepsInv(apply, value, s, acts[0]);
      ExecKeepsInv(apply, value, Step(apply, s, acts[0]).value, acts[1..]);
    }
  }

  lemma InitInv<T(!new), F(!new)>(apply: (F, T) -> T, value: T)
    ensures Inv(apply, value, Init<T, F>(value))
  {
  }

  /** In every interleaving the cell holds the fold of the committed operations in commit order. */
  lemma CellIsFoldOfCommits<T(!new), F(!new)>(apply: (F, T) -> T, value: T, acts: seq<Action<T, F>>)
    requires Exec(apply, Init(value), acts).Some?
    ensures var s := Exec(apply, Init(value), acts).value;
      s.cell in s.heap && s.heap[s.cell] == Fold(apply, value, s.log)
  {
    InitInv<T, F>(apply, value);
    ExecKeepsInv(apply, value, Init(value), acts);
  }

  /** Every Update that has returned was applied exactly once, and none in progress has been. */
  lemma FinishedUpdatesAppliedOnce<T(!new), F(!new)>(
    apply: (F, T) -> T, value: T, acts: seq<Action<T, F>>, k: nat, t: nat)
    requires Exec(apply, Init(value), acts).Some?
    ensures var s := Exec(apply, Init(value), acts).value;
      && (k in s.finished ==> Applications(s.log, k) == 1)
      && Applications(s.log, k) <= 1
      && (s.Pc(t).Updating() ==> Applications(s.log, s.Pc(t).ticket) == 0)
  {
    InitInv<T, F>(apply, value);
    ExecKeepsInv(apply, value, Init(value), acts);
    var s := Exec(apply, Init(value), acts).value;
    assert TicketRight(s, k) && ThreadRight(apply, s, t);
    if s.Pc(t).Updating() {
      assert TicketRight(s, s.Pc(t).ticket);
    }
  }

  /** A swap fails only if some operation has committed since the attempt loaded the pointer. */
  lemma RetryMeansOthersCommitted<T(!new), F(!new)>(apply: (F, T) -> T, value: T, acts: seq<Action<T, F>>, t: nat)
    requires Exec(apply, Init(value), acts).Some?
    ensures var s := Exec(apply, Init(value), acts).value;
      Step(apply, s, SwapFails(t)).Some? ==> s.Pc(t).Applied? && s.Pc(t).at < |s.log|
  {
    InitInv<T, F>(apply, value);
    ExecKeepsInv(apply, value, Init(value), acts);
    assert ThreadRight(apply, Exec(apply, Init(value), acts).value, t);
  }

  lemma HeldVersionStep<T(!new), F(!new)>(
    apply: (F, T) -> T, value: T, s: State<T, F>, a: Action<T, F>, t: nat, p: Ptr)
    requires Inv(apply, value, s) && Step(apply, s, a).Some?
    requires p in s.Loaded(t) && a != Drop(t, p)
    ensures p in s.heap && p in Step(apply, s, a).value.Loaded(t)
    ensures p in Step(apply, s, a).value.heap && Step(apply, s, a).value.heap[p] == s.heap[p]
  {
    hide Fold, Applications;
    assert s.Refers(t, p);
    assert ThreadRight(apply, s, t) && Apart(s, Actor(a), t);
    assert ThreadRight(apply, s, Actor(a));
  }

  /** A version obtained by Load keeps its value until dropped, whatever is stored or freed meanwhile. */
  lemma {:induction false} LoadedVersionNeverChanges<T(!new), F(!new)>(
    apply: (F, T) -> T, value: T, s: State<T, F>, acts: seq<Action<T, F>>, t: nat, p: Ptr)
    requires Inv(apply, value, s) && Exec(apply, s, acts).Some?
    requires p in s.Loaded(t) && Drop(t, p) !in acts
    ensures p in s.heap && p in Exec(apply, s, acts).value.heap
    ensures Exec(apply, s, acts).value.heap[p] == s.heap[p]
    decreases |acts|
  {
    hide Step;
    if acts != [] {
      StepKeepsInv(apply, value, s, acts[0]);
      HeldVersionStep(apply, value, s, acts[0], t, p);
      LoadedVersionNeverChanges(apply, value, Step(apply, s, acts[0]).value, acts[1..], t, p);
    } else {
      assert s.Refers(t, p) && ThreadRight(apply, s, t);
    }
  }

  // ---- Calls and commits ----

  /** Both forms of Store publish the value they are given. */
  lemma StorePublishes<T(!new), F(!new)>(apply: (F, T) -> T, value: T, s: State<T, F>, t: nat, v: T, p: Ptr)
    requires Inv(apply, value, s)
    ensures var r := Step(apply, s, StoreNew(t, v, p));
      r.Some? ==> r.value.cell in r.value.heap && r.value.heap[r.value.cell] == v
    ensures var r := Step(apply, s, StoreHeld(t, p));
      r.Some? ==> p in s.heap && r.value.cell in r.value.heap && r.value.heap[r.value.cell] == s.heap[p]
    ensures Step(apply, s, StoreNew(t, v, p)).Some? <==> p !in s.heap
    ensures Step(apply, s, StoreHeld(t, p)).Some? <==> p in s.Loaded(t)
  {
    hide CellRight, Apart, TicketRight;
    assert ThreadRight(apply, s, t);
    if p in s.Loaded(t) {
      assert s.Refers(t, p);
    }
  }

  /** Load always succeeds and yields the version that all commits so far have led to. */
  lemma LoadYieldsCurrent<T(!new), F(!new)>(apply: (F, T) -> T, value: T, s: State<T, F>, t: nat)
    requires Inv(apply, value, s)
    ensures var r := Step(apply, s, Load(t));
      && r.Some? && s.cell in r.value.Loaded(t) && r.value.Loaded(t) - {s.cell} <= s.Loaded(t)
      && s.cell in r.value.heap && r.value.heap[s.cell] == Fold(apply, value, s.log)
  {
    hide Fold, ThreadRight, Apart, TicketRight;
  }

  /** Dropping a version forgets it and no other; a version can be freed exactly when nobody refers to it. */
  lemma FreedExactlyWhenUnused<T(!new), F(!new)>(apply: (F, T) -> T, s: State<T, F>, t: nat, u: nat, p: Ptr, q: Ptr)
    ensures var r := Step(apply, s, Drop(t, p));
      r.Some? && (q in r.value.Loaded(u) <==> q in s.Loaded(u) && (u, q) != (t, p))
    ensures var r := Step(apply, s, Reclaim(p));
      && (r.Some? <==> p != s.cell && forall v :: !s.Refers(v, p) && !s.Owns(v, p))
      && (r.Some? ==> r.value.heap == s.heap - {p} && r.value.cell == s.cell)
  {
  }

  /** The stores and successful swaps of a run, in order, with what they publish. */
  ghost function Commits<T, F>(apply: (F, T) -> T, s: State<T, F>, acts: seq<Action<T, F>>): seq<Commit<T, F>>
    requires Exec(apply, s, acts).Some?
    decreases |acts|
  {
    if acts == [] then []
    else CommitOf(s, acts[0]) + Commits(apply, Step(apply, s, acts[0]).value, acts[1..])
  }

  ghost function CommitOf<T, F>(s: State<T, F>, a: Action<T, F>): seq<Commit<T, F>> {
    match a
    case StoreNew(_, v, _) => [Set(v)]
    case StoreHeld(_, p) => if p in s.heap then [Set(s.heap[p])] else []
    case Swap(t) => if s.Pc(t).Applied? then [Upd(s.Pc(t).ticket, s.Pc(t).f)] else []
    case _ => []
  }

  lemma StepCommits<T, F>(apply: (F, T) -> T, s: State<T, F>, a: Action<T, F>)
    requires Step(apply, s, a).Some?
    ensures Step(apply, s, a).value.log == s.log + CommitOf(s, a)
  {
  }

  /** The log is exactly what the stores and swaps of the run committed, in their order. */
  lemma {:induction false} LogIsCommits<T, F>(apply: (F, T) -> T, s: State<T, F>, acts: seq<Action<T, F>>)
    requires Exec(apply, s, acts).Some?
    ensures Exec(apply, s, acts).value.log == s.log + Commits(apply, s, acts)
    decreases |acts|
  {
    hide Step;
    if acts != [] {
      StepCommits(apply, s, acts[0]);
      LogIsCommits(apply, Step(apply, s, acts[0]).value, acts[1..]);
    }
  }

  /** The functions given to the calls of Update, in call order; the k-th call has ticket k. */
  function UpdateCalls<T, F>(acts: seq<Action<T, F>>): seq<F> {
    if acts == [] then []
    else (if acts[0].CallUpdate? then [acts[0].f] else []) + UpdateCalls(acts[1..])
  }

  ghost predicate Working<T, F>(s: State<T, F>, t: nat, k: nat) {
    (s.Pc(t).Updating() || s.Pc(t).Swapped?) && s.Pc(t).ticket == k
  }

  ghost predicate FunctionRight<T, F>(s: State<T, F>, calls: seq<F>, t: nat) {
    s.Pc(t).Updating() ==> s.Pc(t).ticket < |calls| && s.Pc(t).f == calls[s.Pc(t).ticket]
  }

  /** Tickets are numbered in call order and stand for the function of their call. */
  ghost predicate FunctionsRight<T, F>(s: State<T, F>, calls: seq<F>) {
    && |calls| == s.nextTicket
    && (forall t :: FunctionRight(s, calls, t))
    && (forall i | 0 <= i < |s.log| && s.log[i].Upd? :: s.log[i].ticket < |calls| && s.log[i].f == calls[s.log[i].ticket])
  }

  lemma StepFunctions<T, F>(apply: (F, T) -> T, s: State<T, F>, a: Action<T, F>, calls: seq<F>)
    requires FunctionsRight(s, calls) && Step(apply, s, a).Some?
    ensures FunctionsRight(Step(apply, s, a).value, calls + (if a.CallUpdate? then [a.f] else []))
  {
    StepCommits(apply, s, a);
    var s', calls' := Step(apply, s, a).value, calls + (if a.CallUpdate? then [a.f] else []);
    forall t ensures FunctionRight(s', calls', t) {
      assert FunctionRight(s, calls, t);
    }
    if a.Swap? {
      assert FunctionRight(s, calls, a.t);
    }
  }

  lemma {:induction false} RunFunctions<T, F>(apply: (F, T) -> T, s: State<T, F>, acts: seq<Action<T, F>>, calls: seq<F>)
    requires FunctionsRight(s, calls) && Exec(apply, s, acts).Some?
    ensures FunctionsRight(Exec(apply, s, acts).value, calls + UpdateCalls(acts))
    decreases |acts|
  {
    hide Step, FunctionsRight;
    if acts == [] {
      assert calls + UpdateCalls(acts) == calls;
    } else {
      var one := if acts[0].CallUpdate? then [acts[0].f] else [];
      StepFunctions(apply, s, acts[0], calls);
      RunFunctions(apply, Step(apply, s, acts[0]).value, acts[1..], calls + one);
      assert calls + one + UpdateCalls(acts[1..]) == calls + UpdateCalls(acts);
    }
  }

  /** A call of Update has returned, or a thread is still at it. */
  ghost predicate Pending<T, F>(s: State<T, F>, k: nat) {
    k in s.finished || exists t :: Working(s, t, k)
  }

  lemma StepPending<T, F>(apply: (F, T) -> T, s: State<T, F>, a: Action<T, F>, k: nat)
    requires Step(apply, s, a).Some? && k < Step(apply, s, a).value.nextTicket
    requires k < s.nextTicket ==> Pending(s, k)
    ensures Pending(Step(apply, s, a).value, k)
  {
    var s' := Step(apply, s, a).value;
    if a.CallUpdate? && k == s.nextTicket {
      assert Working(s', a.t, k);
    } else if k !in s.finished {
      var t :| Working(s, t, k);
      assert Working(s', t, k) || (a == Return(t) && k in s'.finished);
    }
  }

  lemma {:induction false} RunPending<T, F>(apply: (F, T) -> T, s: State<T, F>, acts: seq<Action<T, F>>)
    requires (forall k: nat | k < s.nextTicket :: Pending(s, k)) && Exec(apply, s, acts).Some?
    ensures var s' := Exec(apply, s, acts).value; forall k: nat | k < s'.nextTicket :: Pending(s', k)
    decreases |acts|
  {
    hide Step, Pending;
    if acts != [] {
      var s1 := Step(apply, s, acts[0]).value;
      forall k: nat | k < s1.nextTicket ensures Pending(s1, k) {
        StepPending(apply, s, acts[0], k);
      }
      RunPending(apply, s1, acts[1..]);
    }
  }

  /**
   In every run the k-th call of Update has returned or a thread is still at it, and whatever
   was committed under its ticket is the function it was called with.
   */
  lemma NoUpdateIsLost<T(!new), F(!new)>(apply: (F, T) -> T, value: T, acts: seq<Action<T, F>>, k: nat)
    requires Exec(apply, Init(value), acts).Some? && k < |UpdateCalls(acts)|
    ensures var s := Exec(apply, Init(value), acts).value;
      && (k in s.finished || exists t :: Working(s, t, k))
      && (k in s.finished ==> Upd(k, UpdateCalls(acts)[k]) in s.log)
      && (forall f | Upd(k, f) in s.log :: f == UpdateCalls(acts)[k])
  {
    hide Exec, Applications;
    var s0: State<T, F>, calls := Init(value), UpdateCalls(acts);
    var s := Exec(apply, s0, acts).value;
    RunFunctions(apply, s0, acts, []);
    assert [] + calls == calls;
    RunPending(apply, s0, acts);
    assert Pending(s, k);
    if k in s.finished {
      FinishedUpdatesAppliedOnce(apply, value, acts, k, 0);
      AppliedIsLogged(s.log, k);
    }
  }

  lemma {:induction false} AppliedIsLogged<T, F>(log: seq<Commit<T, F>>, k: nat)
    requires Applications(log, k) > 0
    ensures exists i :: 0 <= i < |log| && log[i].Upd? && log[i].ticket == k
  {
    if !(log[|log| - 1].Upd? && log[|log| - 1].ticket == k) {
      AppliedIsLogged(log[..|log| - 1], k);
      var i :| 0 <= i < |log[..|log| - 1]| && log[..|log| - 1][i].Upd? && log[..|log| - 1][i].ticket == k;
      assert log[i].Upd? && log[i].ticket == k;
    }
  }

  // ---- Progress ----

  /** The call with ticket k can return by steps of thread t alone. */
  ghost predicate CanFinish<T(!new), F(!new)>(apply: (F, T) -> T, s: State<T, F>, t: nat, k: nat) {
    exists acts: seq<Action<T, F>> :: Finishes(apply, s, acts, t, k)
  }

  ghost predicate Finishes<T, F>(apply: (F, T) -> T, s: State<T, F>, acts: seq<Action<T, F>>, t: nat, k: nat) {
    && (forall a | a in acts :: !a.Reclaim? && a.t == t)
    && Exec(apply, s, acts).Some? && k in Exec(apply, s, acts).value.finished
  }

  lemma FinishesLater<T(!new), F(!new)>(apply: (F, T) -> T, s: State<T, F>, a: Action<T, F>, t: nat, k: nat)
    requires !a.Reclaim? && a.t == t && Step(apply, s, a).Some? && CanFinish(apply, Step(apply, s, a).value, t, k)
    ensures CanFinish(apply, s, t, k)
  {
    hide Step;
    var acts :| Finishes(apply, Step(apply, s, a).value, acts, t, k);
    assert ([a] + acts)[1..] == acts;
    assert Finishes(apply, s, [a] + acts, t, k);
  }

  lemma SwappedFinishes<T(!new), F(!new)>(apply: (F, T) -> T, s: State<T, F>, t: nat)
    requires s.Pc(t).Swapped?
    ensures CanFinish(apply, s, t, s.Pc(t).ticket)
  {
    var s1 := Step(apply, s, Return(t)).value;
    assert Finishes(apply, s1, [], t, s.Pc(t).ticket);
    FinishesLater(apply, s, Return(t), t, s.Pc(t).ticket);
  }

  lemma {:induction false} FreshPtr(used: set<Ptr>) returns (p: Ptr)
    ensures forall q | q in used :: q < p
  {
    if used == {} {
      p := 0;
    } else {
      var q :| q in used;
      p := FreshPtr(used - {q});
      p := if q < p then p else q + 1;
      assert forall x | x in used :: x == q || x in used - {q};
    }
  }

  /** How far an attempt is from its return; one that will fail has a whole attempt before it. */
  function Distance<T, F>(s: State<T, F>, t: nat): nat {
    var pc := s.Pc(t);
    (match pc
     case Copying(_, _, _, _) => 3
     case Private(_, _, _, _, _) => 2
     case Applied(_, _, _, _, _) => 1
     case _ => 0)
    + (if pc.Updating() && pc.expected != s.cell then 3 else 0)
  }

  /** Update never depends on others: run alone from any state, a call in progress returns. */
  lemma {:induction false} UpdateCanFinish<T(!new), F(!new)>(apply: (F, T) -> T, value: T, s: State<T, F>, t: nat)
    requires Inv(apply, value, s) && s.Pc(t).Updating()
    ensures CanFinish(apply, s, t, s.Pc(t).ticket)
    decreases Distance(s, t)
  {
    hide CanFinish, CellRight, Apart, TicketRight;
    assert ThreadRight(apply, s, t);
    var k, a := s.Pc(t).ticket, Modify(t);
    if s.Pc(t).Copying? {
      var p := FreshPtr(s.heap.Keys);
      a := DeepCopy(t, p);
    } else if s.Pc(t).Applied? {
      a := if s.cell == s.Pc(t).expected then Swap(t) else SwapFails(t);
    }
    StepKeepsInv(apply, value, s, a);
    var s1 := Step(apply, s, a).value;
    if s1.Pc(t).Swapped? {
      SwappedFinishes(apply, s1, t);
    } else {
      UpdateCanFinish(apply, value, s1, t);
    }
    FinishesLater(apply, s, a, t, k);
  }
}
