/**
 The thread pool (threadpool/threadpool.h) as a step system over the queue, the
 stop flag, the mutex, the sleeping workers, the callers of Enqueue and the
 destructor. Any interleaving of enabled actions is a run.
 */
module ThreadPool {
  import opened Common

  type Task = nat

  datatype Worker =
    | Ready               // wants the mutex: at the loop head or just woken
    | Locked              // holds the mutex, about to test the wait condition
    | Sleeping            // blocked in wait, mutex released
    | Running(task: Task) // outside the mutex
    | Exited

  datatype Client =
    | Outside
    | Wants(task: Task)   // in Enqueue, before the mutex
    | Holds(task: Task)   // holds the mutex
    | Notifies            // has queued its task, has not yet called notify_one

  datatype Destructor = NotStarted | WantsStop | HoldsStop | NotifiesAll | Joining(joined: nat) | Done

  datatype Holder = NoOne | OfWorker(w: nat) | OfClient(c: nat) | OfDestructor

  datatype State = State(
    queue: seq<Task>, stop: bool, lock: Holder,
    workers: seq<Worker>, clients: map<nat, Client>, dtor: Destructor,
    accepted: seq<Task>, taken: seq<Task>, takers: seq<nat>, finished: multiset<Task>)
  {
    function Client(c: nat): Client {
      if c in clients then clients[c] else Outside
    }

    function SetWorker(i: nat, w: Worker): State
      requires i < |workers|
    {
      this.(workers := workers[i := w])
    }

    function SetClient(c: nat, cl: Client): State {
      this.(clients := clients[c := cl])
    }
  }

  datatype Action =
    | WorkerLocks(i: nat)
    | WorkerDecides(i: nat)
    | WorkerFinishes(i: nat)
    | WakesSpuriously(i: nat)
    | CallEnqueue(c: nat, task: Task)
    | ClientLocks(c: nat)
    | ClientQueues(c: nat)
    | NotifyOne(c: nat, woken: Option<nat>)
    | CallDestructor
    | DestructorLocks
    | DestructorStops
    | NotifyAll
    | JoinNext

  function Init(n: nat): State {
    State([], false, NoOne, seq(n, _ => Ready), map[], NotStarted, [], [], [], multiset{})
  }

  function WakeAll(ws: seq<Worker>): seq<Worker> {
    seq(|ws|, i requires 0 <= i < |ws| => if ws[i].Sleeping? then Ready else ws[i])
  }

  /** The critical section of a worker: sleep, exit or take the front task. */
  function Decide(s: State, i: nat): State
    requires i < |s.workers|
  {
    if !s.stop && s.queue == [] then s.SetWorker(i, Sleeping).(lock := NoOne)
    else if s.stop && s.queue == [] then s.SetWorker(i, Exited).(lock := NoOne)
    else s.SetWorker(i, Running(s.queue[0])).(
      lock := NoOne, queue := s.queue[1..], taken := s.taken + [s.queue[0]], takers := s.takers + [i])
  }

  /** The critical section of Enqueue: refuse after stop, queue otherwise. */
  function Queue(s: State, c: nat, task: Task): State {
    if s.stop then s.SetClient(c, Outside).(lock := NoOne)
    else s.SetClient(c, Notifies).(lock := NoOne, queue := s.queue + [task], accepted := s.accepted + [task])
  }

  function Step(s: State, a: Action): Option<State> {
    match a
    case WorkerLocks(i) =>
      if i < |s.workers| && s.workers[i].Ready? && s.lock.NoOne?
      then Some(s.SetWorker(i, Locked).(lock := OfWorker(i))) else None
    case WorkerDecides(i) =>
      if i < |s.workers| && s.workers[i].Locked? then Some(Decide(s, i)) else None
    case WorkerFinishes(i) =>
      if i < |s.workers| && s.workers[i].Running?
      then Some(s.SetWorker(i, Ready).(finished := s.finished + multiset{s.workers[i].task})) else None
    case WakesSpuriously(i) =>
      if i < |s.workers| && s.workers[i].Sleeping? then Some(s.SetWorker(i, Ready)) else None
    case CallEnqueue(c, task) =>
      if s.Client(c).Outside? && !s.dtor.Done? then Some(s.SetClient(c, Wants(task))) else None
    case ClientLocks(c) =>
      if s.Client(c).Wants? && s.lock.NoOne?
      then Some(s.SetClient(c, Holds(s.Client(c).task)).(lock := OfClient(c))) else None
    case ClientQueues(c) =>
      if s.Client(c).Holds? then Some(Queue(s, c, s.Client(c).task)) else None
    case NotifyOne(c, woken) =>
      if !s.Client(c).Notifies? then None
      else (match woken
        case Some(i) =>
          if i < |s.workers| && s.workers[i].Sleeping?
          then Some(s.SetWorker(i, Ready).SetClient(c, Outside)) else None
        case None =>
          if Sleeping !in s.workers then Some(s.SetClient(c, Outside)) else None)
    case CallDestructor =>
      if s.dtor.NotStarted? then Some(s.(dtor := WantsStop)) else None
    case DestructorLocks =>
      if s.dtor.WantsStop? && s.lock.NoOne? then Some(s.(dtor := HoldsStop, lock := OfDestructor)) else None
    case DestructorStops =>
      if s.dtor.HoldsStop? then Some(s.(dtor := NotifiesAll, lock := NoOne, stop := true)) else None
    case NotifyAll =>
      if s.dtor.NotifiesAll? then Some(s.(dtor := Joining(0), workers := WakeAll(s.workers))) else None
    case JoinNext =>
      if !s.dtor.Joining? then None
      else if s.dtor.joined == |s.workers| then Some(s.(dtor := Done))
      else if s.dtor.joined < |s.workers| && s.workers[s.dtor.joined].Exited?
      then Some(s.(dtor := Joining(s.dtor.joined + 1)))
      else None
  }

  ghost function Exec(s: State, acts: seq<Action>): Option<State>
    decreases |acts|
  {
    if acts == [] then Some(s)
    else match Step(s, acts[0])
      case None => None
      case Some(s') => Exec(s', acts[1..])
  }

  // ---- Sums over the workers ----

  function Sum(ws: seq<Worker>, f: Worker -> int): int {
    if ws == [] then 0 else f(ws[0]) + Sum(ws[1..], f)
  }

  lemma {:induction false} SumUpdate(ws: seq<Worker>, f: Worker -> int, i: nat, w: Worker)
    requires i < |ws|
    ensures Sum(ws[i := w], f) == Sum(ws, f) - f(ws[i]) + f(w)
  {
    if i == 0 {
      assert ws[i := w][1..] == ws[1..];
    } else {
      assert ws[i := w][1..] == ws[1..][i - 1 := w];
      SumUpdate(ws[1..], f, i - 1, w);
    }
  }

  /** Workers on their way to testing the queue. */
  function Awake(w: Worker): int {
    if w.Ready? || w.Locked? then 1 else 0
  }

  /** Worker steps left before exit, if the queue stays empty. */
  function Rank(w: Worker): int {
    match w
    case Exited => 0
    case Locked => 1
    case Ready => 2
    case Sleeping => 2
    case Running(_) => 3
  }

  lemma {:induction false} SumNotNegative(ws: seq<Worker>, f: Worker -> int)
    requires forall w :: f(w) >= 0
    ensures Sum(ws, f) >= 0
  {
    if ws != [] {
      SumNotNegative(ws[1..], f);
    }
  }

  lemma {:induction false} SumZero(ws: seq<Worker>, f: Worker -> int)
    requires forall w | w in ws :: f(w) == 0
    ensures Sum(ws, f) == 0
  {
    if ws != [] {
      assert forall w | w in ws[1..] :: w in ws;
      SumZero(ws[1..], f);
    }
  }

  function Runs(w: Worker, task: Task): nat {
    if w == Running(task) then 1 else 0
  }

  /** The number of workers running a task. */
  function RunCount(ws: seq<Worker>, task: Task): nat {
    if ws == [] then 0 else Runs(ws[0], task) + RunCount(ws[1..], task)
  }

  lemma {:induction false} RunCountUpdate(ws: seq<Worker>, i: nat, w: Worker, task: Task)
    requires i < |ws|
    ensures RunCount(ws[i := w], task) == RunCount(ws, task) - Runs(ws[i], task) + Runs(w, task)
  {
    if i == 0 {
      assert ws[i := w][1..] == ws[1..];
    } else {
      assert ws[i := w][1..] == ws[1..][i - 1 := w];
      RunCountUpdate(ws[1..], i - 1, w, task);
    }
  }

  lemma {:induction false} WakeAllKeepsRunning(ws: seq<Worker>, task: Task)
    ensures RunCount(WakeAll(ws), task) == RunCount(ws, task)
  {
    if ws != [] {
      assert WakeAll(ws)[1..] == WakeAll(ws[1..]);
      WakeAllKeepsRunning(ws[1..], task);
    }
  }

  lemma {:induction false} NothingRunning(ws: seq<Worker>, task: Task)
    requires Running(task) !in ws
    ensures RunCount(ws, task) == 0
  {
    if ws != [] {
      NothingRunning(ws[1..], task);
    }
  }

  /** Callers that owe a notification. */
  ghost function Notifiers(s: State): set<nat> {
    set c | c in s.clients && s.clients[c].Notifies?
  }

  /** The task that worker i took last. */
  function LastTaken(taken: seq<Task>, takers: seq<nat>, i: nat): Option<Task>
    requires |taken| == |takers|
  {
    if taken == [] then None
    else if takers[|takers| - 1] == i then Some(taken[|taken| - 1])
    else LastTaken(taken[..|taken| - 1], takers[..|takers| - 1], i)
  }

  lemma LastTakenOneMore(taken: seq<Task>, takers: seq<nat>, task: Task, w: nat, i: nat)
    requires |taken| == |takers|
    ensures LastTaken(taken + [task], takers + [w], i) == if w == i then Some(task) else LastTaken(taken, takers, i)
  {
    assert (taken + [task])[..|taken|] == taken && (takers + [w])[..|takers|] == takers;
  }

  // ---- Invariant ----

  /** The mutex is held by exactly the party that is inside its critical section. */
  ghost predicate LockRight(s: State) {
    && (forall i | 0 <= i < |s.workers| :: s.workers[i].Locked? <==> s.lock == OfWorker(i))
    && (s.lock.OfWorker? ==> s.lock.w < |s.workers|)
    && (forall c :: s.Client(c).Holds? <==> s.lock == OfClient(c))
    && (s.dtor.HoldsStop? <==> s.lock == OfDestructor)
  }

  /** Every time a task was taken it is either still running or has finished. */
  ghost predicate TaskRight(s: State, t: Task) {
    multiset(s.taken)[t] == s.finished[t] + RunCount(s.workers, t)
  }

  /** Tasks leave in the order accepted and are taken once; what was taken is running or finished. */
  ghost predicate TasksRight(s: State) {
    && s.accepted == s.taken + s.queue
    && |s.takers| == |s.taken|
    && forall t :: TaskRight(s, t)
  }

  /** A worker runs what it took last. */
  ghost predicate TakerRight(s: State, i: nat)
    requires |s.takers| == |s.taken| && i < |s.workers|
  {
    s.workers[i].Running? ==> LastTaken(s.taken, s.takers, i) == Some(s.workers[i].task)
  }

  ghost predicate TakersRight(s: State) {
    && |s.takers| == |s.taken|
    && (forall i | 0 <= i < |s.workers| :: TakerRight(s, i))
    && forall j | 0 <= j < |s.takers| :: s.takers[j] < |s.workers|
  }

  /** The destructor's phase fits the stop flag, and nobody exits with work left. */
  ghost predicate PhaseRight(s: State) {
    && (s.stop <==> s.dtor.NotifiesAll? || s.dtor.Joining? || s.dtor.Done?)
    && (Exited in s.workers ==> s.stop && s.queue == [])
    && (s.dtor.Joining? || s.dtor.Done? ==> Sleeping !in s.workers)
    && (s.dtor.Joining? ==>
          s.dtor.joined <= |s.workers| && forall i | 0 <= i < s.dtor.joined :: s.workers[i].Exited?)
    && (s.dtor.Done? ==> forall i | 0 <= i < |s.workers| :: s.workers[i].Exited?)
  }

  /** While someone sleeps, every queued task has a worker or a notification of its own coming. */
  ghost predicate WakeupsRight(s: State) {
    Sleeping in s.workers ==> |s.queue| <= Sum(s.workers, Awake) + |Notifiers(s)|
  }

  ghost predicate Inv(s: State) {
    LockRight(s) && TasksRight(s) && TakersRight(s) && PhaseRight(s) && WakeupsRight(s)
  }

  lemma WorkerLockRight(s: State, a: Action)
    requires LockRight(s) && Step(s, a).Some?
    requires a.WorkerLocks? || a.WorkerDecides? || a.WorkerFinishes? || a.WakesSpuriously?
    ensures LockRight(Step(s, a).value)
  {
    var s' := Step(s, a).value;
    assert s.workers[a.i].Locked? <==> s.lock == OfWorker(a.i);
    forall c ensures s'.Client(c).Holds? <==> s'.lock == OfClient(c) {
      assert s'.Client(c) == s.Client(c);
    }
    assert a.WorkerDecides? ==> s.lock == OfWorker(a.i);
  }

  lemma ClientLockRight(s: State, a: Action)
    requires LockRight(s) && Step(s, a).Some?
    requires a.CallEnqueue? || a.ClientLocks? || a.ClientQueues? || a.NotifyOne?
    ensures LockRight(Step(s, a).value)
  {
    var s' := Step(s, a).value;
    assert s.Client(a.c).Holds? <==> s.lock == OfClient(a.c);
    forall i | 0 <= i < |s'.workers| ensures s'.workers[i].Locked? <==> s'.lock == OfWorker(i) {
      assert s.workers[i].Locked? <==> s.lock == OfWorker(i);
    }
    forall c ensures s'.Client(c).Holds? <==> s'.lock == OfClient(c) {
      assert c != a.c ==> s'.Client(c) == s.Client(c);
    }
  }

  lemma DestructorLockRight(s: State, a: Action)
    requires LockRight(s) && Step(s, a).Some?
    requires a.CallDestructor? || a.DestructorLocks? || a.DestructorStops? || a.NotifyAll? || a.JoinNext?
    ensures LockRight(Step(s, a).value)
  {
    var s' := Step(s, a).value;
    forall c ensures s'.Client(c).Holds? <==> s'.lock == OfClient(c) {
      assert s'.Client(c) == s.Client(c);
    }
    forall i | 0 <= i < |s'.workers| ensures s'.workers[i].Locked? <==> s'.lock == OfWorker(i) {
      assert s.workers[i].Locked? <==> s.lock == OfWorker(i);
    }
  }

  lemma DecideKeepsTask(s: State, i: nat, t: Task)
    requires TaskRight(s, t) && i < |s.workers| && s.workers[i].Locked?
    ensures TaskRight(Decide(s, i), t)
  {
    hide RunCount;
    RunCountUpdate(s.workers, i, Decide(s, i).workers[i], t);
  }

  lemma StepKeepsTask(s: State, a: Action, t: Task)
    requires TaskRight(s, t) && Step(s, a).Some?
    ensures TaskRight(Step(s, a).value, t)
  {
    hide RunCount, Decide, Queue, WakeAll;
    match a
    case WorkerLocks(i) => RunCountUpdate(s.workers, i, Locked, t);
    case WorkerDecides(i) => DecideKeepsTask(s, i, t);
    case WorkerFinishes(i) => FinishKeepsTask(s, i, t);
    case WakesSpuriously(i) => RunCountUpdate(s.workers, i, Ready, t);
    case NotifyOne(c, woken) =>
      if woken.Some? {
        RunCountUpdate(s.workers, woken.value, Ready, t);
      }
    case NotifyAll => WakeAllKeepsRunning(s.workers, t);
    case ClientQueues(c) => QueueKeepsTask(s, c, t);
    case _ =>
  }

  lemma FinishKeepsTask(s: State, i: nat, t: Task)
    requires TaskRight(s, t) && i < |s.workers| && s.workers[i].Running?
    ensures TaskRight(s.SetWorker(i, Ready).(finished := s.finished + multiset{s.workers[i].task}), t)
  {
    hide RunCount;
    RunCountUpdate(s.workers, i, Ready, t);
  }

  lemma QueueKeepsTask(s: State, c: nat, t: Task)
    requires TaskRight(s, t) && s.Client(c).Holds?
    ensures TaskRight(Queue(s, c, s.Client(c).task), t)
  {
  }

  lemma StepKeepsTasks(s: State, a: Action)
    requires TasksRight(s) && Step(s, a).Some?
    ensures TasksRight(Step(s, a).value)
  {
    hide TaskRight;
    forall t ensures TaskRight(Step(s, a).value, t) {
      StepKeepsTask(s, a, t);
    }
  }

  lemma StepKeepsTakers(s: State, a: Action)
    requires TakersRight(s) && Step(s, a).Some?
    ensures TakersRight(Step(s, a).value)
  {
    hide Decide;
    if a.WorkerDecides? {
      DecideKeepsTakers(s, a.i);
    } else {
      OthersKeepTakers(s, a);
    }
  }

  lemma DecideKeepsTakers(s: State, i: nat)
    requires TakersRight(s) && i < |s.workers|
    ensures TakersRight(Decide(s, i))
  {
    hide LastTaken;
    var s' := Decide(s, i);
    forall k | 0 <= k < |s'.workers| ensures |s'.takers| == |s'.taken| && TakerRight(s', k) {
      assert TakerRight(s, k);
      if s.queue != [] {
        LastTakenOneMore(s.taken, s.takers, s.queue[0], i, k);
      }
    }
  }

  lemma OthersKeepTakers(s: State, a: Action)
    requires TakersRight(s) && !a.WorkerDecides? && Step(s, a).Some?
    ensures TakersRight(Step(s, a).value)
  {
    hide LastTaken, Decide;
    var s' := Step(s, a).value;
    forall i | 0 <= i < |s'.workers| ensures TakerRight(s', i) {
      assert TakerRight(s, i);
    }
  }

  lemma WorkerKeepsPhase(s: State, a: Action)
    requires PhaseRight(s) && WorkerStep(a) && Step(s, a).Some?
    ensures PhaseRight(Step(s, a).value)
  {
  }

  lemma OthersKeepPhase(s: State, a: Action)
    requires PhaseRight(s) && !WorkerStep(a) && Step(s, a).Some?
    ensures PhaseRight(Step(s, a).value)
  {
  }

  lemma StepKeepsPhase(s: State, a: Action)
    requires PhaseRight(s) && Step(s, a).Some?
    ensures PhaseRight(Step(s, a).value)
  {
    hide PhaseRight, Step;
    if WorkerStep(a) {
      WorkerKeepsPhase(s, a);
    } else {
      OthersKeepPhase(s, a);
    }
  }

  /** A queued task brings a pending notification with it. */
  lemma QueueKeepsWakeups(s: State, c: nat)
    requires WakeupsRight(s) && s.Client(c).Holds?
    ensures WakeupsRight(Queue(s, c, s.Client(c).task))
  {
    var s' := Queue(s, c, s.Client(c).task);
    if s.stop {
      assert Notifiers(s') == Notifiers(s);
    } else {
      assert Notifiers(s') == Notifiers(s) + {c};
    }
  }

  lemma DecideKeepsWakeups(s: State, i: nat)
    requires WakeupsRight(s) && i < |s.workers| && s.workers[i].Locked?
    ensures WakeupsRight(Decide(s, i))
  {
    var s' := Decide(s, i);
    SumUpdate(s.workers, Awake, i, s'.workers[i]);
    assert Notifiers(s') == Notifiers(s);
    SumNotNegative(s'.workers, Awake);
  }

  /** A notification wakes a sleeper, or there is none to wake. */
  lemma NotifyKeepsWakeups(s: State, c: nat, woken: Option<nat>)
    requires WakeupsRight(s) && Step(s, NotifyOne(c, woken)).Some?
    ensures WakeupsRight(Step(s, NotifyOne(c, woken)).value)
  {
    hide Sum, Decide, Queue, WakeAll, Notifiers;
    if woken.Some? {
      NotifierDone(s, Step(s, NotifyOne(c, woken)).value, c);
      SumUpdate(s.workers, Awake, woken.value, Ready);
    }
  }

  lemma NotifierDone(s: State, s': State, c: nat)
    requires s.Client(c).Notifies? && s'.clients == s.clients[c := Outside]
    ensures |Notifiers(s')| == |Notifiers(s)| - 1
  {
    assert Notifiers(s') == Notifiers(s) - {c};
  }

  lemma WorkerKeepsWakeups(s: State, i: nat, w: Worker)
    requires WakeupsRight(s) && i < |s.workers| && Awake(s.workers[i]) <= Awake(w) && !w.Sleeping?
    ensures Sleeping in s.workers[i := w] ==> |s.queue| <= Sum(s.workers[i := w], Awake) + |Notifiers(s)|
  {
    SumUpdate(s.workers, Awake, i, w);
  }

  lemma StepKeepsWakeups(s: State, a: Action)
    requires WakeupsRight(s) && Step(s, a).Some?
    ensures WakeupsRight(Step(s, a).value)
  {
    var s' := Step(s, a).value;
    match a
    case WorkerLocks(i) =>
      WorkerKeepsWakeups(s, i, Locked);
      assert Notifiers(s') == Notifiers(s);
    case WorkerDecides(i) => DecideKeepsWakeups(s, i);
    case WorkerFinishes(i) =>
      WorkerKeepsWakeups(s, i, Ready);
      assert Notifiers(s') == Notifiers(s);
    case WakesSpuriously(i) =>
      WorkerKeepsWakeups(s, i, Ready);
      assert Notifiers(s') == Notifiers(s);
    case ClientQueues(c) => QueueKeepsWakeups(s, c);
    case NotifyOne(c, woken) => NotifyKeepsWakeups(s, c, woken);
    case NotifyAll => assert Sleeping !in WakeAll(s.workers);
    case _ => assert Notifiers(s') == Notifiers(s);
  }

  /** Every step of every party keeps the invariant. */
  lemma StepKeepsInv(s: State, a: Action)
    requires Inv(s) && Step(s, a).Some?
    ensures Inv(Step(s, a).value)
  {
    hide LockRight, TasksRight, TakersRight, PhaseRight, WakeupsRight, Step;
    StepKeepsTasks(s, a);
    StepKeepsTakers(s, a);
    StepKeepsPhase(s, a);
    StepKeepsWakeups(s, a);
    match a
    case WorkerLocks(_) => WorkerLockRight(s, a);
    case WorkerDecides(_) => WorkerLockRight(s, a);
    case WorkerFinishes(_) => WorkerLockRight(s, a);
    case WakesSpuriously(_) => WorkerLockRight(s, a);
    case CallEnqueue(_, _) => ClientLockRight(s, a);
    case ClientLocks(_) => ClientLockRight(s, a);
    case ClientQueues(_) => ClientLockRight(s, a);
    case NotifyOne(_, _) => ClientLockRight(s, a);
    case _ => DestructorLockRight(s, a);
  }

  // ---- Whole runs ----

  lemma StepKeepsWorkers(s: State, a: Action)
    requires Step(s, a).Some?
    ensures |Step(s, a).value.workers| == |s.workers|
  {
  }

  lemma {:induction false} ExecKeepsInv(s: State, acts: seq<Action>)
    requires Inv(s) && Exec(s, acts).Some?
    ensures Inv(Exec(s, acts).value)
    ensures |Exec(s, acts).value.workers| == |s.workers|
    decreases |acts|
  {
    hide Inv, Step;
    if acts != [] {
      StepKeepsWorkers(s, acts[0]);
      StepKeepsInv(s, acts[0]);
      ExecKeepsInv(Step(s, acts[0]).value, acts[1..]);
    }
  }

  lemma {:induction false} InitInv(n: nat)
    ensures Inv(Init(n))
  {
    assert Sleeping !in Init(n).workers && Exited !in Init(n).workers;
    forall t ensures TaskRight(Init(n), t) {
      NothingRunning(Init(n).workers, t);
    }
  }

  /** Tasks leave the queue in the order accepted, each to one worker, which is running what it took last. */
  lemma FirstAcceptedFirstTaken(n: nat, acts: seq<Action>, i: nat)
    requires Exec(Init(n), acts).Some? && i < n
    ensures var s := Exec(Init(n), acts).value;
      && s.accepted == s.taken + s.queue && |s.takers| == |s.taken| && |s.workers| == n
      && (s.workers[i].Running? ==> LastTaken(s.taken, s.takers, i) == Some(s.workers[i].task))
      && forall j | 0 <= j < |s.takers| :: s.takers[j] < n
  {
    InitInv(n);
    ExecKeepsInv(Init(n), acts);
    assert TakerRight(Exec(Init(n), acts).value, i);
  }

  /** Once stopped, a pool accepts nothing and stays stopped. */
  lemma {:induction false} NothingAcceptedAfterStop(s: State, acts: seq<Action>)
    requires s.stop && Exec(s, acts).Some?
    ensures Exec(s, acts).value.stop && Exec(s, acts).value.accepted == s.accepted
    decreases |acts|
  {
    if acts != [] {
      NothingAcceptedAfterStop(Step(s, acts[0]).value, acts[1..]);
    }
  }

  /**
   When the destructor's joins have returned, every accepted task has finished
   exactly as often as it was accepted, if and only if the pool had a worker or
   no work.
   */
  lemma AllFinishedWhenJoined(n: nat, acts: seq<Action>)
    requires Exec(Init(n), acts).Some? && Exec(Init(n), acts).value.dtor.Done?
    ensures var s := Exec(Init(n), acts).value;
      s.finished == multiset(s.accepted) <==> n > 0 || s.accepted == []
  {
    InitInv(n);
    ExecKeepsInv(Init(n), acts);
    var s := Exec(Init(n), acts).value;
    forall t ensures multiset(s.taken)[t] == s.finished[t] {
      assert TaskRight(s, t);
      NothingRunning(s.workers, t);
    }
    assert multiset(s.taken) == s.finished;
    if n > 0 {
      assert s.workers[0] == Exited;
      assert s.queue == [];
      assert s.accepted == s.taken;
    } else {
      NobodyTakes(acts);
    }
  }

  lemma NobodyTakesNow(s: State, a: Action)
    requires |s.workers| == 0 && s.taken == [] && Step(s, a).Some?
    ensures |Step(s, a).value.workers| == 0 && Step(s, a).value.taken == []
  {
  }

  lemma {:induction false} NobodyTakesFrom(s: State, acts: seq<Action>)
    requires |s.workers| == 0 && s.taken == [] && Exec(s, acts).Some?
    ensures Exec(s, acts).value.taken == []
    decreases |acts|
  {
    hide Step;
    if acts != [] {
      NobodyTakesNow(s, acts[0]);
      NobodyTakesFrom(Step(s, acts[0]).value, acts[1..]);
    }
  }

  /** A pool without workers takes nothing. */
  lemma NobodyTakes(acts: seq<Action>)
    requires Exec(Init(0), acts).Some?
    ensures Exec(Init(0), acts).value.taken == []
  {
    NobodyTakesFrom(Init(0), acts);
  }

  /** One task handed to a pool without workers, then the destructor from start to end. */
  function EnqueueAndDestroy(task: Task): seq<Action> {
    [CallEnqueue(0, task), ClientLocks(0), ClientQueues(0), NotifyOne(0, None),
     CallDestructor, DestructorLocks, DestructorStops, NotifyAll, JoinNext]
  }

  lemma ExecOne(s: State, s': State, acts: seq<Action>, i: nat)
    requires i < |acts| && Step(s, acts[i]) == Some(s')
    ensures Exec(s, acts[i..]) == Exec(s', acts[i + 1..])
  {
    hide Step;
    assert acts[i..][0] == acts[i] && acts[i..][1..] == acts[i + 1..];
  }

  /** A pool without workers ends with its task accepted and undone. */
  lemma NoWorkersNoWork(task: Task)
    ensures var r := Exec(Init(0), EnqueueAndDestroy(task));
      r.Some? && r.value.dtor.Done? && r.value.accepted == [task] && r.value.finished == multiset{}
  {
    hide Exec, Step;
    var acts := EnqueueAndDestroy(task);
    EnqueuedAlone(task);
    DestroyedAlone(Handed(task), acts);
    assert acts[0..] == acts;
    ExecNothing(Handed(task).(stop := true, dtor := Done), acts[9..]);
  }

  /** The pool without workers after one call of Enqueue. */
  function Handed(task: Task): State {
    Init(0).(clients := map[0 := Outside], queue := [task], accepted := [task])
  }

  lemma EnqueuedAlone(task: Task)
    ensures var acts := EnqueueAndDestroy(task);
      Exec(Init(0), acts[0..]) == Exec(Handed(task), acts[4..])
  {
    hide Exec;
    var acts := EnqueueAndDestroy(task);
    var s1 := Init(0).(clients := map[0 := Wants(task)]);
    var s2 := s1.(clients := map[0 := Holds(task)], lock := OfClient(0));
    var s3 := Handed(task).(clients := map[0 := Notifies]);
    assert Init(0).clients[0 := Wants(task)] == s1.clients && s1.clients[0 := Holds(task)] == s2.clients;
    assert s2.clients[0 := Notifies] == s3.clients && s3.clients[0 := Outside] == Handed(task).clients;
    assert s2.queue + [task] == [task] && s2.accepted + [task] == [task];
    ExecOne(Init(0), s1, acts, 0);
    ExecOne(s1, s2, acts, 1);
    ExecOne(s2, s3, acts, 2);
    ExecOne(s3, Handed(task), acts, 3);
  }

  lemma DestroyedAlone(s: State, acts: seq<Action>)
    requires s.workers == [] && s.dtor.NotStarted? && s.lock.NoOne? && |acts| == 9
    requires acts[4] == CallDestructor && acts[5] == DestructorLocks && acts[6] == DestructorStops
    requires acts[7] == NotifyAll && acts[8] == JoinNext
    ensures Exec(s, acts[4..]) == Exec(s.(stop := true, dtor := Done), acts[9..])
  {
    hide Exec;
    var s5 := s.(dtor := WantsStop);
    var s6 := s.(dtor := HoldsStop, lock := OfDestructor);
    var s7 := s.(dtor := NotifiesAll, stop := true);
    var s8 := s.(dtor := Joining(0), stop := true);
    ExecOne(s, s5, acts, 4);
    ExecOne(s5, s6, acts, 5);
    ExecOne(s6, s7, acts, 6);
    assert WakeAll(s.workers) == s.workers;
    ExecOne(s7, s8, acts, 7);
    ExecOne(s8, s.(stop := true, dtor := Done), acts, 8);
  }

  lemma ExecNothing(s: State, acts: seq<Action>)
    requires |acts| == 0
    ensures Exec(s, acts) == Some(s)
  {
  }

  ghost predicate IsAwake(w: Worker) {
    w.Ready? || w.Locked? || w.Running?
  }

  lemma {:induction false} SomeoneAwake(ws: seq<Worker>)
    requires Sum(ws, Awake) > 0
    ensures exists i :: 0 <= i < |ws| && IsAwake(ws[i])
  {
    if Awake(ws[0]) == 0 {
      SomeoneAwake(ws[1..]);
      var i :| 0 <= i < |ws[1..]| && IsAwake(ws[1..][i]);
      assert IsAwake(ws[i + 1]);
    } else {
      assert IsAwake(ws[0]);
    }
  }

  /** With work in the queue, some worker is awake or a notification is still to come. */
  lemma NoLostWakeup(n: nat, acts: seq<Action>)
    requires n > 0 && Exec(Init(n), acts).Some? && Exec(Init(n), acts).value.queue != []
    ensures var s := Exec(Init(n), acts).value;
      (exists i :: 0 <= i < |s.workers| && IsAwake(s.workers[i])) || Notifiers(s) != {}
  {
    hide LockRight, TasksRight, TakersRight, Exec, Sum;
    InitInv(n);
    ExecKeepsInv(Init(n), acts);
    var s := Exec(Init(n), acts).value;
    if Notifiers(s) == {} {
      if Sleeping in s.workers {
        SomeoneAwake(s.workers);
      } else {
        assert s.workers[0] in s.workers;
        assert IsAwake(s.workers[0]);
      }
    }
  }

  /** While any worker sleeps, queued tasks do not outnumber awake idle workers and pending notifications. */
  lemma EveryTaskHasAWakeup(n: nat, acts: seq<Action>)
    requires Exec(Init(n), acts).Some?
    ensures var s := Exec(Init(n), acts).value;
      Sleeping in s.workers ==> |s.queue| <= Sum(s.workers, Awake) + |Notifiers(s)|
  {
    InitInv(n);
    ExecKeepsInv(Init(n), acts);
  }

  // ---- Calls ----

  /** How often acts calls Enqueue with the task. */
  function EnqueueCalls(acts: seq<Action>, task: Task): nat {
    if acts == [] then 0 else (if acts[0].CallEnqueue? && acts[0].task == task then 1 else 0) + EnqueueCalls(acts[1..], task)
  }

  /** How often, along the run, a caller with the task comes through the mutex after stop. */
  ghost function Refusals(s: State, acts: seq<Action>, task: Task): nat
    requires Exec(s, acts).Some?
    decreases |acts|
  {
    if acts == [] then 0
    else
      var a := acts[0];
      (if a.ClientQueues? && s.stop && s.Client(a.c) == Holds(task) then 1 else 0)
      + Refusals(Step(s, a).value, acts[1..], task)
  }

  /** The callers on their way to queue the task. */
  ghost function Callers(s: State, task: Task): set<nat> {
    set c | c in s.clients && Calling(s.clients[c], task)
  }

  predicate Calling(cl: Client, task: Task) {
    cl == Wants(task) || cl == Holds(task)
  }

  lemma CallersUpdate(s: State, s': State, c: nat, task: Task)
    requires c in s'.clients && s'.clients == s.clients[c := s'.clients[c]]
    ensures |Callers(s', task)| == |Callers(s, task)|
      - (if Calling(s.Client(c), task) then 1 else 0) + (if Calling(s'.Client(c), task) then 1 else 0)
  {
    var rest := Callers(s, task) - {c};
    assert Callers(s, task) == if Calling(s.Client(c), task) then rest + {c} else rest;
    assert Callers(s', task) == if Calling(s'.Client(c), task) then rest + {c} else rest;
  }

  lemma CountOneMore(tasks: seq<Task>, x: Task, task: Task)
    ensures multiset(tasks + [x])[task] == multiset(tasks)[task] + (if x == task then 1 else 0)
  {
  }

  lemma QueueCallers(s: State, c: nat, task: Task)
    requires s.Client(c).Holds?
    ensures var s' := Queue(s, c, s.Client(c).task);
      |Callers(s', task)| + multiset(s'.accepted)[task] + (if s.stop && s.Client(c) == Holds(task) then 1 else 0)
      == |Callers(s, task)| + multiset(s.accepted)[task]
  {
    hide Callers;
    CallersUpdate(s, Queue(s, c, s.Client(c).task), c, task);
    CountOneMore(s.accepted, s.Client(c).task, task);
  }

  /** Steps outside the critical section of Enqueue accept nothing. */
  lemma AcceptsElsewhere(s: State, a: Action)
    requires Step(s, a).Some? && !a.ClientQueues?
    ensures Step(s, a).value.accepted == s.accepted
    ensures if a.CallEnqueue? || a.ClientLocks? || a.NotifyOne?
            then a.c in Step(s, a).value.clients &&
              Step(s, a).value.clients == s.clients[a.c := Step(s, a).value.clients[a.c]]
            else Step(s, a).value.clients == s.clients
    ensures a.CallEnqueue? ==> s.Client(a.c).Outside? && Step(s, a).value.Client(a.c) == Wants(a.task)
    ensures a.ClientLocks? ==> s.Client(a.c).Wants? && Step(s, a).value.Client(a.c) == Holds(s.Client(a.c).task)
    ensures a.NotifyOne? ==> s.Client(a.c).Notifies? && Step(s, a).value.Client(a.c).Outside?
  {
    hide Queue, WakeAll;
  }

  lemma CallersAfter(s: State, a: Action, task: Task)
    requires Step(s, a).Some?
    ensures var s' := Step(s, a).value;
      |Callers(s', task)| + multiset(s'.accepted)[task]
        + (if a.ClientQueues? && s.stop && s.Client(a.c) == Holds(task) then 1 else 0)
      == |Callers(s, task)| + multiset(s.accepted)[task] + (if a.CallEnqueue? && a.task == task then 1 else 0)
  {
    hide Callers, Queue, Decide, WakeAll;
    if a.ClientQueues? {
      QueueCallers(s, a.c, task);
    } else {
      AcceptsElsewhere(s, a);
      OtherCallers(s, a, task);
    }
  }

  lemma OtherCallers(s: State, a: Action, task: Task)
    requires Step(s, a).Some? && !a.ClientQueues?
    ensures |Callers(Step(s, a).value, task)| == |Callers(s, task)| + (if a.CallEnqueue? && a.task == task then 1 else 0)
  {
    hide Callers, Step;
    AcceptsElsewhere(s, a);
    if a.CallEnqueue? || a.ClientLocks? || a.NotifyOne? {
      CallersUpdate(s, Step(s, a).value, a.c, task);
    } else {
      SameCallers(s, Step(s, a).value, task);
    }
  }

  lemma SameCallers(s: State, s': State, task: Task)
    requires s'.clients == s.clients
    ensures Callers(s', task) == Callers(s, task)
  {
  }

  lemma {:induction false} CallsAccountedFrom(s: State, acts: seq<Action>, task: Task)
    requires Exec(s, acts).Some?
    ensures var s' := Exec(s, acts).value;
      |Callers(s', task)| + multiset(s'.accepted)[task] + Refusals(s, acts, task)
      == |Callers(s, task)| + multiset(s.accepted)[task] + EnqueueCalls(acts, task)
    ensures !Exec(s, acts).value.stop ==> Refusals(s, acts, task) == 0
    decreases |acts|
  {
    hide Step, Callers;
    if acts != [] {
      CallersAfter(s, acts[0], task);
      CallsAccountedFrom(Step(s, acts[0]).value, acts[1..], task);
      if s.stop {
        NothingAcceptedAfterStop(s, acts);
      }
    }
  }

  /**
   In every run each call of Enqueue has had its task accepted, is still on its way, or came
   after stop; as long as the pool runs, none is refused.
   */
  lemma EveryCallAccounted(n: nat, acts: seq<Action>, task: Task)
    requires Exec(Init(n), acts).Some?
    ensures var s := Exec(Init(n), acts).value;
      && EnqueueCalls(acts, task) == multiset(s.accepted)[task] + |Callers(s, task)| + Refusals(Init(n), acts, task)
      && (!s.stop ==> Refusals(Init(n), acts, task) == 0)
  {
    hide Exec;
    CallsAccountedFrom(Init(n), acts, task);
    assert Callers(Init(n), task) == {};
  }

  // ---- Progress ----

  /** Steps of parties already at work: no new call, and no wake-up without a cause. */
  predicate Ordinary(a: Action) {
    !a.CallEnqueue? && !a.CallDestructor? && !a.WakesSpuriously?
  }

  /** The run leads from s to a state in which the front task, and only it, has been taken. */
  ghost predicate TakesFront(s: State, acts: seq<Action>, taken: seq<Task>) {
    && (forall a | a in acts :: Ordinary(a))
    && Exec(s, acts).Some? && Exec(s, acts).value.taken == taken
  }

  lemma TakesFrontLater(s: State, a: Action, acts: seq<Action>, taken: seq<Task>)
    requires Ordinary(a) && Step(s, a).Some? && TakesFront(Step(s, a).value, acts, taken)
    ensures TakesFront(s, [a] + acts, taken)
  {
    hide Step, Ordinary;
    assert ([a] + acts)[1..] == acts;
  }

  lemma DeciderTakes(s: State, i: nat) returns (acts: seq<Action>)
    requires i < |s.workers| && s.workers[i].Locked? && s.queue != []
    ensures |acts| == 1 && TakesFront(s, acts, s.taken + [s.queue[0]])
  {
    acts := [WorkerDecides(i)] + [];
    ExecNothing(Decide(s, i), []);
    assert TakesFront(Decide(s, i), [], s.taken + [s.queue[0]]);
    TakesFrontLater(s, WorkerDecides(i), [], s.taken + [s.queue[0]]);
  }

  lemma ReadyTakes(s: State, i: nat) returns (acts: seq<Action>)
    requires i < |s.workers| && s.workers[i].Ready? && s.lock.NoOne? && s.queue != []
    ensures |acts| == 2 && TakesFront(s, acts, s.taken + [s.queue[0]])
  {
    hide TakesFront;
    var s1 := Step(s, WorkerLocks(i)).value;
    acts := DeciderTakes(s1, i);
    TakesFrontLater(s, WorkerLocks(i), acts, s.taken + [s.queue[0]]);
    acts := [WorkerLocks(i)] + acts;
  }

  lemma SleepersAreOwed(s: State) returns (c: nat)
    requires WakeupsRight(s) && s.workers != [] && s.queue != []
    requires forall w | w in s.workers :: w.Sleeping?
    ensures s.Client(c).Notifies?
  {
    hide Sum;
    assert s.workers[0] in s.workers;
    SumZero(s.workers, Awake);
    assert Notifiers(s) != {};
    c :| c in Notifiers(s);
  }

  /** With the mutex free, an idle worker is ready, is made ready by finishing, or is owed a notification. */
  lemma UnlockedTakes(s: State) returns (acts: seq<Action>)
    requires PhaseRight(s) && WakeupsRight(s) && LockRight(s) && s.lock.NoOne? && s.workers != [] && s.queue != []
    ensures |acts| <= 3 && TakesFront(s, acts, s.taken + [s.queue[0]])
  {
    hide TakesFront, WakeupsRight;
    var taken := s.taken + [s.queue[0]];
    if i :| 0 <= i < |s.workers| && s.workers[i].Ready? {
      acts := ReadyTakes(s, i);
    } else if i :| 0 <= i < |s.workers| && s.workers[i].Running? {
      acts := ReadyTakes(Step(s, WorkerFinishes(i)).value, i);
      TakesFrontLater(s, WorkerFinishes(i), acts, taken);
      acts := [WorkerFinishes(i)] + acts;
    } else {
      forall w | w in s.workers ensures w.Sleeping? {
        var i :| 0 <= i < |s.workers| && s.workers[i] == w;
        assert w.Locked? <==> s.lock == OfWorker(i);
      }
      var c := SleepersAreOwed(s);
      var notify := NotifyOne(c, Some(0));
      acts := ReadyTakes(Step(s, notify).value, 0);
      TakesFrontLater(s, notify, acts, taken);
      acts := [notify] + acts;
    }
  }

  /** The step of whoever holds the mutex. */
  function HolderStep(h: Holder): Action
    requires !h.NoOne?
  {
    match h
    case OfWorker(i) => WorkerDecides(i)
    case OfClient(c) => ClientQueues(c)
    case OfDestructor => DestructorStops
  }

  lemma HolderLeaves(s: State)
    requires LockRight(s) && !s.lock.NoOne? && !s.lock.OfWorker? && s.queue != []
    ensures var r := Step(s, HolderStep(s.lock));
      && r.Some? && r.value.lock.NoOne? && r.value.workers == s.workers && r.value.taken == s.taken
      && r.value.queue != [] && r.value.queue[0] == s.queue[0]
  {
    if s.lock.OfClient? {
      assert s.Client(s.lock.c).Holds? <==> s.lock == OfClient(s.lock.c);
    }
  }

  /** Whatever has happened, at most four steps of the parties at work take the front task. */
  lemma FrontCanBeTaken(s: State) returns (acts: seq<Action>)
    requires Inv(s) && s.workers != [] && s.queue != []
    ensures |acts| <= 4 && TakesFront(s, acts, s.taken + [s.queue[0]])
  {
    hide TakesFront, LockRight, PhaseRight, WakeupsRight, TasksRight, TakersRight, Step;
    if s.lock.NoOne? {
      acts := UnlockedTakes(s);
    } else if s.lock.OfWorker? {
      HolderDecides(s);
      acts := DeciderTakes(s, s.lock.w);
    } else {
      var a := HolderStep(s.lock);
      HolderLeaves(s);
      StepKeepsInv(s, a);
      acts := UnlockedTakes(Step(s, a).value);
      TakesFrontLater(s, a, acts, s.taken + [s.queue[0]]);
      acts := [a] + acts;
    }
  }

  lemma HolderDecides(s: State)
    requires LockRight(s) && s.lock.OfWorker?
    ensures s.lock.w < |s.workers| && s.workers[s.lock.w].Locked?
  {
  }

  /** In every run of a pool with workers, whenever there is work the front task can be taken. */
  lemma WorkCanAlwaysBeTaken(n: nat, acts: seq<Action>)
    requires n > 0 && Exec(Init(n), acts).Some? && Exec(Init(n), acts).value.queue != []
    ensures var s := Exec(Init(n), acts).value;
      exists more :: |more| <= 4 && TakesFront(s, more, s.taken + [s.queue[0]])
  {
    hide Inv, Exec, TakesFront;
    InitInv(n);
    ExecKeepsInv(Init(n), acts);
    var more := FrontCanBeTaken(Exec(Init(n), acts).value);
  }

  // ---- Callers ----

  /** With the mutex free a call of Enqueue goes straight through: accepted at the end, or refused after stop. */
  lemma EnqueueAlone(s: State, c: nat, task: Task)
    requires s.Client(c).Outside? && !s.dtor.Done? && s.lock.NoOne?
    ensures var r := Exec(s, [CallEnqueue(c, task), ClientLocks(c), ClientQueues(c)]);
      && r.Some?
      && r.value.accepted == (if s.stop then s.accepted else s.accepted + [task])
      && r.value.queue == (if s.stop then s.queue else s.queue + [task])
      && r.value.Client(c) == (if s.stop then Outside else Notifies)
  {
    hide Exec;
    var acts := [CallEnqueue(c, task), ClientLocks(c), ClientQueues(c)];
    var s1 := s.SetClient(c, Wants(task));
    var s2 := s1.SetClient(c, Holds(task)).(lock := OfClient(c));
    ExecOne(s, s1, acts, 0);
    ExecOne(s1, s2, acts, 1);
    ExecOne(s2, Queue(s2, c, task), acts, 2);
    ExecNothing(Queue(s2, c, task), acts[3..]);
    assert acts[0..] == acts;
  }

  /** The run brings caller c out of Enqueue. */
  ghost predicate Returns(s: State, acts: seq<Action>, c: nat) {
    && (forall a | a in acts :: Ordinary(a))
    && Exec(s, acts).Some? && Exec(s, acts).value.Client(c).Outside?
  }

  lemma ReturnsLater(s: State, a: Action, acts: seq<Action>, c: nat)
    requires Ordinary(a) && Step(s, a).Some? && Returns(Step(s, a).value, acts, c)
    ensures Returns(s, [a] + acts, c)
  {
    hide Step, Ordinary;
    assert ([a] + acts)[1..] == acts;
  }

  lemma NotifierReturns(s: State, c: nat) returns (acts: seq<Action>)
    requires s.Client(c).Notifies?
    ensures |acts| <= 1 && Returns(s, acts, c)
  {
    var a := NotifyOne(c, None);
    if i :| 0 <= i < |s.workers| && s.workers[i].Sleeping? {
      a := NotifyOne(c, Some(i));
    }
    var s1 := Step(s, a).value;
    ExecNothing(s1, []);
    assert Returns(s1, [], c);
    ReturnsLater(s, a, [], c);
    acts := [a] + [];
  }

  lemma HolderReturns(s: State, c: nat) returns (acts: seq<Action>)
    requires s.Client(c).Holds?
    ensures |acts| <= 2 && Returns(s, acts, c)
  {
    hide Returns;
    var s1 := Step(s, ClientQueues(c)).value;
    if s1.Client(c).Notifies? {
      acts := NotifierReturns(s1, c);
    } else {
      acts := [];
      OutsideReturns(s1, c);
    }
    ReturnsLater(s, ClientQueues(c), acts, c);
    acts := [ClientQueues(c)] + acts;
  }

  lemma OutsideReturns(s: State, c: nat)
    requires s.Client(c).Outside?
    ensures Returns(s, [], c)
  {
    ExecNothing(s, []);
  }

  lemma WaiterReturns(s: State, c: nat) returns (acts: seq<Action>)
    requires s.Client(c).Wants? && s.lock.NoOne?
    ensures |acts| <= 3 && Returns(s, acts, c)
  {
    hide Returns;
    var s1 := Step(s, ClientLocks(c)).value;
    acts := HolderReturns(s1, c);
    ReturnsLater(s, ClientLocks(c), acts, c);
    acts := [ClientLocks(c)] + acts;
  }

  lemma HolderStepsAside(s: State, c: nat)
    requires LockRight(s) && s.Client(c).Wants? && !s.lock.NoOne?
    ensures var r := Step(s, HolderStep(s.lock));
      Ordinary(HolderStep(s.lock)) && r.Some? && r.value.lock.NoOne? && r.value.Client(c) == s.Client(c)
  {
    if s.lock.OfClient? {
      assert s.Client(s.lock.c).Holds? <==> s.lock == OfClient(s.lock.c);
    }
  }

  /** A call of Enqueue never hangs: at most four steps of the parties at work bring it back. */
  lemma CallerCanReturn(s: State, c: nat) returns (acts: seq<Action>)
    requires Inv(s)
    ensures |acts| <= 4 && Returns(s, acts, c)
  {
    hide Returns, TasksRight, TakersRight, PhaseRight, WakeupsRight, Step;
    match s.Client(c)
    case Outside =>
      acts := [];
      OutsideReturns(s, c);
    case Notifies => acts := NotifierReturns(s, c);
    case Holds(_) => acts := HolderReturns(s, c);
    case Wants(_) =>
      if s.lock.NoOne? {
        acts := WaiterReturns(s, c);
      } else {
        HolderStepsAside(s, c);
        var a := HolderStep(s.lock);
        acts := WaiterReturns(Step(s, a).value, c);
        ReturnsLater(s, a, acts, c);
        acts := [a] + acts;
      }
  }

  // ---- Shutdown ----

  /** Worker steps left until all workers have exited. */
  function Remaining(s: State): int {
    |s.queue| + |s.queue| + |s.queue| + Sum(s.workers, Rank)
  }

  predicate WorkerStep(a: Action) {
    a.WorkerLocks? || a.WorkerDecides? || a.WorkerFinishes? || a.WakesSpuriously?
  }

  ghost predicate ShuttingDown(s: State) {
    s.dtor.Joining? || s.dtor.Done?
  }

  lemma WorkerBringsShutdownNearer(s: State, a: Action)
    requires PhaseRight(s) && ShuttingDown(s) && WorkerStep(a) && Step(s, a).Some?
    ensures Remaining(Step(s, a).value) == Remaining(s) - 1
  {
    SumUpdate(s.workers, Rank, a.i, Step(s, a).value.workers[a.i]);
  }

  lemma OthersKeepRemaining(s: State, a: Action)
    requires PhaseRight(s) && ShuttingDown(s) && !WorkerStep(a) && Step(s, a).Some?
    ensures Remaining(Step(s, a).value) == Remaining(s)
  {
  }

  function WorkerSteps(acts: seq<Action>): nat {
    if acts == [] then 0
    else (if WorkerStep(acts[0]) then 1 else 0) + WorkerSteps(acts[1..])
  }

  /** After notify_all nobody sleeps again, and the workers have only so many steps left in any run. */
  lemma {:induction false} ShutdownAdvances(s: State, acts: seq<Action>)
    requires Inv(s) && ShuttingDown(s) && Exec(s, acts).Some?
    ensures var s' := Exec(s, acts).value;
      && Sleeping !in s'.workers
      && ShuttingDown(s')
      && WorkerSteps(acts) + Remaining(s') == Remaining(s)
    decreases |acts|
  {
    hide Step, Remaining, LockRight, TasksRight, TakersRight, WakeupsRight;
    if acts != [] {
      StepKeepsInv(s, acts[0]);
      StaysShuttingDown(s, acts[0]);
      if WorkerStep(acts[0]) {
        WorkerBringsShutdownNearer(s, acts[0]);
      } else {
        OthersKeepRemaining(s, acts[0]);
      }
      ShutdownAdvances(Step(s, acts[0]).value, acts[1..]);
    }
  }

  lemma StaysShuttingDown(s: State, a: Action)
    requires ShuttingDown(s) && Step(s, a).Some?
    ensures ShuttingDown(Step(s, a).value)
  {
  }

  /** The party whose step is due: the holder of the mutex, or else a live worker. */
  ghost function Due(s: State): Option<Action> {
    if !s.lock.NoOne? then Some(HolderStep(s.lock))
    else if exists i :: 0 <= i < |s.workers| && !s.workers[i].Exited? then
      var i :| 0 <= i < |s.workers| && !s.workers[i].Exited?;
      Some(if s.workers[i].Running? then WorkerFinishes(i) else WorkerLocks(i))
    else None
  }

  /** During shutdown the due step can be taken until every worker has exited; then the destructor can end. */
  lemma ShutdownNeverStuck(s: State)
    requires Inv(s) && s.dtor.Joining?
    ensures Due(s).Some? ==> Step(s, Due(s).value).Some?
    ensures Due(s).None? ==> Step(s, JoinNext).Some? && (s.workers != [] ==> Remaining(s) == 0)
  {
    match s.lock
    case OfClient(c) =>
      assert s.Client(c).Holds? <==> s.lock == OfClient(c);
    case NoOne =>
      if Due(s).None? {
        forall w | w in s.workers ensures Rank(w) == 0 {
        }
        SumZero(s.workers, Rank);
        if s.workers != [] {
          assert s.workers[0].Exited? && Exited in s.workers;
        }
      }
    case _ =>
  }
}
