/**
 The static-initialisation guards of cxx_guards.cpp as interleaved steps, one per semaphore operation:
 one mutex, one counting semaphore shared by all guards, and the count of waiting tasks.
 Any number of tasks and guards; a task may hold several guards at once (nested initialisers).
 */
module Guards {
  import opened Wrappers

  type Task = nat
  type Guard = nat

  /** Capacity of the counting semaphore; a give beyond it is lost. */
  const INT_MAX := 0x7fff_ffff
  const SIZE_T := 0x1_0000_0000

  /** What callers observe: the value acquire returns, and completed releases and aborts. */
  datatype Event = Returned(t: Task, g: Guard, ret: nat) | Released(t: Task, g: Guard) | Aborted(t: Task, g: Guard)

  /** Where a task is inside the guard functions. */
  datatype Pc =
    | Running
    | AcquireEntry(g: Guard)             // about to take the mutex
    | AcquireBody(g: Guard)              // holds it, about to test pending
    | WaitSem(g: Guard)                  // registered, about to take the semaphore
    | WaitMutex(g: Guard)                // has its token, about to take the mutex
    | WaitCheck(g: Guard)                // holds it, about to test pending again
    | LeaveEntry(g: Guard, done: bool)   // release (done) or abort, about to take the mutex
    | LeaveBody(g: Guard, done: bool)    // holds it, about to clear pending
    | Signalling(left: nat)              // holds it, `left` gives still owed

  datatype State = State(
    pc: map<Task, Pc>,
    mutex: Option<Task>,
    sem: nat,
    waiting: nat,
    ready: set<Guard>,
    pending: set<Guard>,
    owner: map<Guard, Task>,   // which task got 1 for a pending guard: callers' bookkeeping, no code reads it
    log: seq<Event>)

  /** A running task calls one of the functions; a task inside one goes on. */
  datatype Action = CallAcquire(g: Guard) | CallRelease(g: Guard) | CallAbort(g: Guard) | Go

  /** Blocked: the task cannot take this step now. Crashed: an assert of the source fails. */
  datatype Outcome = Blocked | Crashed | Stepped(s: State)

  function Init(tasks: set<Task>): State {
    State(map t | t in tasks :: Running, None, 0, 0, {}, {}, map[], [])
  }

  function TakeMutex(s: State, t: Task, next: Pc): Outcome
    requires t in s.pc
  {
    if s.mutex.Some? then Blocked else Stepped(s.(mutex := Some(t), pc := s.pc[t := next]))
  }

  function GiveMutex(s: State, t: Task, next: Pc): Outcome
    requires t in s.pc
  {
    if s.mutex != Some(t) then Crashed else Stepped(s.(mutex := None, pc := s.pc[t := next]))
  }

  /** The end of __cxa_guard_acquire: 0 if the guard is ready, otherwise the caller initialises. */
  function Decide(s: State, t: Task, g: Guard): Outcome
    requires t in s.pc
  {
    if g in s.ready then
      GiveMutex(s.(log := s.log + [Returned(t, g, 0)]), t, Running)
    else
      GiveMutex(s.(pending := s.pending + {g}, owner := s.owner[g := t], log := s.log + [Returned(t, g, 1)]), t,
              Running)
  }

  /** The body of __cxa_guard_release (done) and __cxa_guard_abort up to the first give. */
  function Leave(s: State, t: Task, g: Guard, done: bool): Outcome
    requires t in s.pc
  {
    if g !in s.pending || (!done && g in s.ready) then Crashed
    else Stepped(s.(pending := s.pending - {g}, owner := s.owner - {g},
                    ready := if done then s.ready + {g} else s.ready,
                    log := s.log + [if done then Released(t, g) else Aborted(t, g)],
                    pc := s.pc[t := Signalling(s.waiting)]))
  }

  /** A call: only the task that got 1 for a guard may release or abort it. */
  function Call(s: State, t: Task, a: Action): Outcome
    requires t in s.pc
  {
    match a
    case CallAcquire(g) => Stepped(s.(pc := s.pc[t := AcquireEntry(g)]))
    case CallRelease(g) =>
      if g in s.owner && s.owner[g] == t then Stepped(s.(pc := s.pc[t := LeaveEntry(g, true)])) else Blocked
    case CallAbort(g) =>
      if g in s.owner && s.owner[g] == t then Stepped(s.(pc := s.pc[t := LeaveEntry(g, false)])) else Blocked
    case Go => Blocked
  }

  /** One step of task t inside a guard function. */
  function Continue(s: State, t: Task): Outcome
    requires t in s.pc
  {
    match s.pc[t]
    case Running => Blocked
    case AcquireEntry(g) => TakeMutex(s, t, AcquireBody(g))
    case AcquireBody(g) =>
      if g in s.pending then GiveMutex(s.(waiting := (s.waiting + 1) % SIZE_T), t, WaitSem(g))
      else Decide(s, t, g)
    case WaitSem(g) =>
      if s.sem == 0 then Blocked else Stepped(s.(sem := s.sem - 1, pc := s.pc[t := WaitMutex(g)]))
    case WaitMutex(g) => TakeMutex(s, t, WaitCheck(g))
    case WaitCheck(g) =>
      if g in s.pending then GiveMutex(s, t, WaitSem(g))
      else Decide(s.(waiting := (s.waiting + SIZE_T - 1) % SIZE_T), t, g)
    case LeaveEntry(g, done) => TakeMutex(s, t, LeaveBody(g, done))
    case LeaveBody(g, done) => Leave(s, t, g, done)
    case Signalling(left) =>
      if left == 0 then GiveMutex(s, t, Running)
      else Stepped(s.(sem := if s.sem < INT_MAX then s.sem + 1 else s.sem, pc := s.pc[t := Signalling(left - 1)]))
  }

  function Step(s: State, t: Task, a: Action): Outcome {
    if t !in s.pc then Blocked
    else if a.Go? then Continue(s, t)
    else if s.pc[t] == Running then Call(s, t, a)
    else Blocked
  }

  /** A schedule: which task does what next. Blocked and crashed steps stay visible in the outcome. */
  function Run(tasks: set<Task>, schedule: seq<(Task, Action)>): Outcome {
    if schedule == [] then Stepped(Init(tasks))
    else
      var before := Run(tasks, schedule[..|schedule| - 1]);
      var (t, a) := schedule[|schedule| - 1];
      if before.Stepped? then Step(before.s, t, a) else before
  }

  // ---------- invariants ----------

  predicate HoldsMutex(p: Pc) {
    p.AcquireBody? || p.WaitCheck? || p.LeaveBody? || p.Signalling?
  }

  predicate InWait(p: Pc) {
    p.WaitSem? || p.WaitMutex? || p.WaitCheck?
  }

  /** Tasks inside wait_for_guard_obj. */
  function Waiters(s: State): set<Task> {
    set t | t in s.pc && InWait(s.pc[t])
  }

  /** Tasks registered and without a token. */
  function Tokenless(s: State): set<Task> {
    set t | t in s.pc && s.pc[t].WaitSem?
  }

  /** Gives still owed by the task inside signal_waiting_tasks. */
  function Owed(s: State): nat {
    if s.mutex.Some? && s.mutex.value in s.pc && s.pc[s.mutex.value].Signalling? then s.pc[s.mutex.value].left else 0
  }

  predicate MutexOk(s: State) {
    && (s.mutex.Some? ==> s.mutex.value in s.pc)
    && forall t :: t in s.pc ==> (HoldsMutex(s.pc[t]) <==> s.mutex == Some(t))
  }

  predicate OwnersOk(s: State) {
    && s.owner.Keys == s.pending && s.ready !! s.pending
    && (forall g :: g in s.owner ==> s.owner[g] in s.pc)
    && (forall t :: t in s.pc && (s.pc[t].LeaveEntry? || s.pc[t].LeaveBody?) ==>
          s.pc[t].g in s.owner && s.owner[s.pc[t].g] == t)
  }

  /** The waiting count is exact, and when nothing is pending there is a token for every waiter without one. */
  predicate TokensOk(s: State) {
    && |s.pc| <= INT_MAX
    && s.waiting == |Waiters(s)|
    && (s.pending == {} ==> s.sem + Owed(s) >= |Tokenless(s)|)
  }

  /** Life of one guard as its events tell it. */
  datatype Phase = Fresh | Busy(t: Task) | Done | Illegal

  function Next(p: Phase, e: Event): Phase {
    match e
    case Returned(t, _, ret) =>
      if ret == 1 && p.Fresh? then Busy(t) else if ret == 0 && p.Done? then Done else Illegal
    case Released(t, _) => if p == Busy(t) then Done else Illegal
    case Aborted(t, _) => if p == Busy(t) then Fresh else Illegal
  }

  function PhaseOf(log: seq<Event>, g: Guard): Phase {
    if log == [] then Fresh
    else
      var e := log[|log| - 1];
      var p := PhaseOf(log[..|log| - 1], g);
      if e.g == g then Next(p, e) else p
  }

  function CurrentPhase(s: State, g: Guard): Phase {
    if g in s.owner then Busy(s.owner[g]) else if g in s.ready then Done else Fresh
  }

  ghost predicate LogOk(s: State) {
    forall g :: PhaseOf(s.log, g) == CurrentPhase(s, g)
  }

  ghost predicate Inv(s: State) {
    MutexOk(s) && OwnersOk(s) && TokensOk(s) && LogOk(s)
  }

  lemma SubsetCard<T>(a: set<T>, b: set<T>)
    requires a <= b
    ensures |a| <= |b|
  {
    assert b == a + (b - a);
  }

  lemma WaitersBounded(s: State)
    ensures |Waiters(s)| <= |s.pc| && |Tokenless(s)| <= |Waiters(s)|
  {
    SubsetCard(Waiters(s), s.pc.Keys);
    SubsetCard(Tokenless(s), Waiters(s));
    assert |s.pc.Keys| == |s.pc|;
  }

  lemma CardChange<T>(a: set<T>, b: set<T>, t: T)
    requires a - {t} == b - {t}
    ensures |b| == |a| - (if t in a then 1 else 0) + (if t in b then 1 else 0)
  {
    assert t in a ==> a == (a - {t}) + {t};
    assert t in b ==> b == (b - {t}) + {t};
    assert t !in a ==> a == a - {t};
    assert t !in b ==> b == b - {t};
  }

  /** The effect of one task's move on the two sets. */
  lemma Moved(s: State, s': State, t: Task, p: Pc)
    requires t in s.pc && s'.pc == s.pc[t := p]
    ensures |s'.pc| == |s.pc|
    ensures |Waiters(s')| == |Waiters(s)| - (if InWait(s.pc[t]) then 1 else 0) + (if InWait(p) then 1 else 0)
    ensures |Tokenless(s')| == |Tokenless(s)| - (if s.pc[t].WaitSem? then 1 else 0) + (if p.WaitSem? then 1 else 0)
  {
    assert s'.pc.Keys == s.pc.Keys;
    assert |s'.pc| == |s'.pc.Keys| == |s.pc.Keys| == |s.pc|;
    CardChange(Waiters(s), Waiters(s'), t);
    CardChange(Tokenless(s), Tokenless(s'), t);
  }

  lemma Logged(s: State, e: Event, g: Guard)
    ensures PhaseOf(s.log + [e], g) == if e.g == g then Next(PhaseOf(s.log, g), e) else PhaseOf(s.log, g)
  {
    assert (s.log + [e])[..|s.log|] == s.log;
  }

  lemma LoggedAll(s: State, e: Event)
    requires LogOk(s)
    ensures forall g :: PhaseOf(s.log + [e], g) == if e.g == g then Next(CurrentPhase(s, g), e) else CurrentPhase(s, g)
  {
    forall g ensures PhaseOf(s.log + [e], g) == if e.g == g then Next(CurrentPhase(s, g), e) else CurrentPhase(s, g) {
      Logged(s, e, g);
    }
  }

  lemma StepMutex(s: State, t: Task, a: Action)
    requires Inv(s)
    ensures !Step(s, t, a).Crashed?
    ensures Step(s, t, a).Stepped? ==> MutexOk(Step(s, t, a).s)
  {
    if t in s.pc && a.Go? {
      NoCrash(s, t);
      var r := Continue(s, t);
      if r.Stepped? {
        PcMoves(s, t);
        MovedMutex(s, r.s, t, r.s.pc[t]);
      }
    }
  }

  lemma NoCrash(s: State, t: Task)
    requires MutexOk(s) && OwnersOk(s) && t in s.pc
    ensures !Continue(s, t).Crashed?
  {
  }

  /** A step moves one task, which holds the mutex afterwards exactly when its new place says so. */
  lemma PcMoves(s: State, t: Task)
    requires t in s.pc && Continue(s, t).Stepped? && (HoldsMutex(s.pc[t]) <==> s.mutex == Some(t))
    ensures var s' := Continue(s, t).s;
            && t in s'.pc && s'.pc == s.pc[t := s'.pc[t]]
            && (s'.mutex == s.mutex || (s.mutex.None? && s'.mutex == Some(t)) || (s.mutex == Some(t) && s'.mutex.None?))
            && (HoldsMutex(s'.pc[t]) <==> s'.mutex == Some(t))
  {
  }

  lemma MovedMutex(s: State, s': State, t: Task, p: Pc)
    requires MutexOk(s) && t in s.pc && s'.pc == s.pc[t := p]
    requires s'.mutex == s.mutex || (s.mutex.None? && s'.mutex == Some(t)) || (s.mutex == Some(t) && s'.mutex.None?)
    requires HoldsMutex(p) <==> s'.mutex == Some(t)
    ensures MutexOk(s')
  {
  }

  lemma StepOwners(s: State, t: Task, a: Action)
    requires MutexOk(s) && OwnersOk(s)
    ensures Step(s, t, a).Stepped? ==> OwnersOk(Step(s, t, a).s)
  {
    if t in s.pc && a.Go? {
      ContinueOwners(s, t);
    }
  }

  lemma ContinueOwners(s: State, t: Task)
    requires MutexOk(s) && OwnersOk(s) && t in s.pc
    ensures Continue(s, t).Stepped? ==> OwnersOk(Continue(s, t).s)
  {
    match s.pc[t]
    case AcquireBody(g) => DecideOwners(s, t, g);
    case WaitCheck(g) => DecideOwners(s.(waiting := (s.waiting + SIZE_T - 1) % SIZE_T), t, g);
    case LeaveBody(g, done) => LeaveOwners(s, t, g, done);
    case _ =>
  }

  lemma DecideOwners(s: State, t: Task, g: Guard)
    requires OwnersOk(s) && t in s.pc && !s.pc[t].LeaveEntry? && !s.pc[t].LeaveBody?
    ensures g !in s.pending && Decide(s, t, g).Stepped? ==> OwnersOk(Decide(s, t, g).s)
  {
  }

  lemma LeaveOwners(s: State, t: Task, g: Guard, done: bool)
    requires OwnersOk(s) && t in s.pc && s.pc[t] == LeaveBody(g, done)
    ensures Leave(s, t, g, done).Stepped? ==> OwnersOk(Leave(s, t, g, done).s)
  {
  }

  lemma StepTokens(s: State, t: Task, a: Action)
    requires MutexOk(s) && OwnersOk(s) && TokensOk(s)
    ensures Step(s, t, a).Stepped? ==> TokensOk(Step(s, t, a).s)
  {
    var r := Step(s, t, a);
    if r.Stepped? {
      Moved(s, r.s, t, r.s.pc[t]);
      WaitersBounded(s);
      WaitersBounded(r.s);
      if a.Go? {
        assert s.pc[t].WaitCheck? ==> t in Waiters(s);
        StepCounts(s, t);
        if r.s.pending == {} {
          StepHandsOut(s, t);
        }
      }
    }
  }

  /** The waiting count moves with the task. */
  lemma StepCounts(s: State, t: Task)
    requires t in s.pc && Continue(s, t).Stepped? && s.waiting <= INT_MAX && (s.pc[t].WaitCheck? ==> s.waiting > 0)
    ensures var s' := Continue(s, t).s;
            s'.waiting == s.waiting - (if InWait(s.pc[t]) then 1 else 0) + (if InWait(s'.pc[t]) then 1 else 0)
  {
  }

  /** Tokens handed out, owed and missing, when nothing is pending afterwards. */
  lemma StepHandsOut(s: State, t: Task)
    requires MutexOk(s) && t in s.pc && Continue(s, t).Stepped? && Continue(s, t).s.pending == {}
    ensures var s' := Continue(s, t).s;
            || (s.pc[t].LeaveBody? && s'.sem + Owed(s') >= s.waiting && !s'.pc[t].WaitSem?)
            || (s.pending == {} && s'.sem >= INT_MAX)
            || (s.pending == {} && s'.sem + Owed(s') == s.sem + Owed(s) - (if s.pc[t].WaitSem? then 1 else 0)
               && !s'.pc[t].WaitSem?)
  {
  }

  lemma StepLog(s: State, t: Task, a: Action)
    requires MutexOk(s) && OwnersOk(s) && LogOk(s)
    ensures Step(s, t, a).Stepped? ==> LogOk(Step(s, t, a).s)
  {
    if t in s.pc && a.Go? && Continue(s, t).Stepped? {
      match s.pc[t]
      case AcquireBody(g) => DecideLog(s, t, g);
      case WaitCheck(g) => DecideLog(s.(waiting := (s.waiting + SIZE_T - 1) % SIZE_T), t, g);
      case LeaveBody(g, done) => LeaveLog(s, t, g, done);
      case _ =>
    }
  }

  lemma DecideLog(s: State, t: Task, g: Guard)
    requires OwnersOk(s) && LogOk(s) && t in s.pc
    ensures g !in s.pending && Decide(s, t, g).Stepped? ==> LogOk(Decide(s, t, g).s)
  {
    LoggedAll(s, Returned(t, g, 0));
    LoggedAll(s, Returned(t, g, 1));
  }

  lemma LeaveLog(s: State, t: Task, g: Guard, done: bool)
    requires OwnersOk(s) && LogOk(s) && t in s.pc && s.pc[t] == LeaveBody(g, done)
    ensures Leave(s, t, g, done).Stepped? ==> LogOk(Leave(s, t, g, done).s)
  {
    LoggedAll(s, if done then Released(t, g) else Aborted(t, g));
  }

  /** Every step of every task keeps the invariant, and no assert of the source fails. */
  lemma StepKeeps(s: State, t: Task, a: Action)
    requires Inv(s)
    ensures !Step(s, t, a).Crashed?
    ensures Step(s, t, a).Stepped? ==> Inv(Step(s, t, a).s)
  {
    StepMutex(s, t, a);
    StepOwners(s, t, a);
    StepTokens(s, t, a);
    StepLog(s, t, a);
  }

  /** Safety of every run: no assert fails and the invariant holds after every schedule. */
  lemma {:induction false} RunKeeps(tasks: set<Task>, schedule: seq<(Task, Action)>)
    requires |tasks| <= INT_MAX
    ensures !Run(tasks, schedule).Crashed?
    ensures Run(tasks, schedule).Stepped? ==> Inv(Run(tasks, schedule).s)
    decreases |schedule|
  {
    if schedule == [] {
      var s := Init(tasks);
      assert s.pc.Keys == tasks;
      assert |s.pc| == |s.pc.Keys|;
      assert Waiters(s) == {} && Tokenless(s) == {};
    } else {
      RunKeeps(tasks, schedule[..|schedule| - 1]);
      var before := Run(tasks, schedule[..|schedule| - 1]);
      if before.Stepped? {
        StepKeeps(before.s, schedule[|schedule| - 1].0, schedule[|schedule| - 1].1);
      }
    }
  }

  lemma {:induction false} RunPrefix(tasks: set<Task>, schedule: seq<(Task, Action)>, k: nat)
    requires k <= |schedule| && Run(tasks, schedule).Stepped?
    ensures Run(tasks, schedule[..k]).Stepped?
    decreases |schedule|
  {
    if k == |schedule| {
      assert schedule[..k] == schedule;
    } else {
      var front := schedule[..|schedule| - 1];
      assert front[..k] == schedule[..k];
      RunPrefix(tasks, front, k);
    }
  }

  /** No stranded waiter: a task can be left without a token and without anybody owing one only while
      some guard is still being initialised; and the count is the number of tasks inside the wait. */
  lemma NoStrandedWaiter(tasks: set<Task>, schedule: seq<(Task, Action)>)
    requires |tasks| <= INT_MAX && Run(tasks, schedule).Stepped?
    ensures var s := Run(tasks, schedule).s;
            && s.waiting == |Waiters(s)|
            && (s.pending == {} ==> s.sem + Owed(s) >= |Tokenless(s)|)
            && (Tokenless(s) != {} && s.sem == 0 && Owed(s) == 0 ==> s.pending != {})
  {
    RunKeeps(tasks, schedule);
    var s := Run(tasks, schedule).s;
    if Tokenless(s) != {} {
      var t :| t in Tokenless(s);
      SubsetCard({t}, Tokenless(s));
    }
  }

  // ---------- liveness ----------

  /** Inside __cxa_guard_acquire. */
  predicate IsAcquiring(p: Pc) {
    p.AcquireEntry? || p.AcquireBody? || InWait(p)
  }

  function Acquirers(s: State): set<Task> {
    set t | t in s.pc && IsAcquiring(s.pc[t])
  }

  /** Nobody is inside the guard functions and every guard was left. */
  predicate Idle(s: State) {
    s.pending == {} && forall t :: t in s.pc ==> s.pc[t] == Running
  }

  /** All tasks inside wait for a token, none is left, and whoever could leave a pending guard waits as well. */
  predicate Deadlocked(s: State) {
    && s.mutex.None? && s.sem == 0 && s.pending != {}
    && (forall t :: t in s.pc ==> s.pc[t] == Running || s.pc[t].WaitSem?)
    && (forall g :: g in s.pending ==> g in s.owner && s.owner[g] in s.pc && s.pc[s.owner[g]].WaitSem?)
  }

  /** Unless the state is idle or deadlocked, a task inside can go on, or an initialiser can leave its guard. */
  lemma Progress(s: State) returns (mover: Task, a: Action)
    requires Inv(s) && !Idle(s) && !Deadlocked(s)
    ensures !a.CallAcquire? && Step(s, mover, a).Stepped?
  {
    hide TokensOk, LogOk, Idle, Deadlocked;
    mover, a := 0, Go;
    if s.mutex.Some? {
      mover := s.mutex.value;
      StepMutex(s, mover, Go);
    } else if t :| t in s.pc && s.pc[t] != Running && !s.pc[t].WaitSem? {
      mover := t;
    } else if t :| t in s.pc && s.pc[t].WaitSem? && s.sem > 0 {
      mover := t;
    } else if g :| g in s.owner && s.pc[s.owner[g]] == Running {
      mover, a := s.owner[g], CallRelease(g);
    } else {
      NothingLeft(s);
    }
  }

  lemma NothingLeft(s: State)
    requires Inv(s) && s.mutex.None?
    requires forall t :: t in s.pc ==> s.pc[t] == Running || (s.pc[t].WaitSem? && s.sem == 0)
    requires forall g :: g in s.owner ==> s.pc[s.owner[g]] != Running
    ensures Idle(s) || Deadlocked(s)
  {
    if s.pending == {} {
      assert Tokenless(s) == {};
      forall t | t in s.pc ensures s.pc[t] == Running {
        assert t !in Tokenless(s);
      }
    } else {
      var g :| g in s.pending;
      assert s.pc[s.owner[g]].WaitSem?;
    }
  }

  /** The states in which, unless somebody calls acquire, nothing happens any more: exactly the idle and the
      deadlocked ones. */
  lemma StuckIff(s: State)
    requires Inv(s)
    ensures (forall t, a :: Step(s, t, a).Stepped? ==> a.CallAcquire?) <==> Idle(s) || Deadlocked(s)
  {
    if !Idle(s) && !Deadlocked(s) {
      var mover, a := Progress(s);
    }
  }

  /** Returns from acquire and departures from guards still ahead. */
  function Sessions(s: State): nat {
    2 * |Acquirers(s)| + |s.pending|
  }

  /** How far a task is from its next stop, at most 4. */
  function Distance(p: Pc): nat {
    match p
    case Signalling(_) => 4
    case Running => 3
    case AcquireEntry(_) => 2
    case WaitMutex(_) => 2
    case LeaveEntry(_, _) => 2
    case AcquireBody(_) => 1
    case WaitCheck(_) => 1
    case LeaveBody(_, _) => 1
    case WaitSem(_) => 0
  }

  function AtLeast(s: State, k: nat): set<Task> {
    set t | t in s.pc && Distance(s.pc[t]) >= k
  }

  function Distances(s: State): nat {
    |AtLeast(s, 1)| + |AtLeast(s, 2)| + |AtLeast(s, 3)| + |AtLeast(s, 4)|
  }

  /** Steps possible before the next return or departure: a token lets a waiter loop once. */
  function Work(s: State): nat {
    Distances(s) + 3 * s.sem + 4 * Owed(s)
  }

  predicate Below(s: State, t: State) {
    Sessions(s) < Sessions(t) || (Sessions(s) == Sessions(t) && Work(s) < Work(t))
  }

  /** Every step except a call of acquire lowers the measure, whatever is pending: waiters cannot loop for ever. */
  lemma WorkDecreases(s: State, t: Task, a: Action)
    requires Inv(s) && !a.CallAcquire? && Step(s, t, a).Stepped?
    ensures Below(Step(s, t, a).s, s)
  {
    var s' := Step(s, t, a).s;
    StepPc(s, t, a);
    CardChange(Acquirers(s), Acquirers(s'), t);
    DistancesMove(s, s', t);
    if !a.Go? {
      OwedStays(s, s', t);
    } else if s.pc[t].LeaveBody? || (IsAcquiring(s.pc[t]) && !IsAcquiring(s'.pc[t])) {
      PendingMoves(s, t);
    } else {
      PendingStays(s, t);
      OwedMoves(s, t);
    }
  }

  lemma StepPc(s: State, t: Task, a: Action)
    requires Step(s, t, a).Stepped?
    ensures var s' := Step(s, t, a).s;
            t in s.pc && t in s'.pc && s'.pc == s.pc[t := s'.pc[t]] && s'.pc.Keys == s.pc.Keys
  {
  }

  lemma DistancesMove(s: State, s': State, t: Task)
    requires t in s.pc && t in s'.pc && s'.pc == s.pc[t := s'.pc[t]]
    ensures Distances(s') == Distances(s) - Distance(s.pc[t]) + Distance(s'.pc[t])
  {
    CardChange(AtLeast(s, 1), AtLeast(s', 1), t);
    CardChange(AtLeast(s, 2), AtLeast(s', 2), t);
    CardChange(AtLeast(s, 3), AtLeast(s', 3), t);
    CardChange(AtLeast(s, 4), AtLeast(s', 4), t);
  }

  /** Leaving a guard takes it off the pending ones; returning from acquire adds at most one. */
  lemma PendingMoves(s: State, t: Task)
    requires MutexOk(s) && OwnersOk(s) && t in s.pc && Continue(s, t).Stepped?
    requires s.pc[t].LeaveBody? || (IsAcquiring(s.pc[t]) && !IsAcquiring(Continue(s, t).s.pc[t]))
    ensures var s' := Continue(s, t).s;
            if s.pc[t].LeaveBody? then |s'.pending| < |s.pending| && !IsAcquiring(s'.pc[t])
            else |s'.pending| <= |s.pending| + 1
  {
    var g := s.pc[t].g;
    var s' := Continue(s, t).s;
    if s.pc[t].LeaveBody? {
      assert g in s.pending && s'.pending == s.pending - {g};
    } else {
      assert s'.pending == s.pending || s'.pending == s.pending + {g};
    }
  }

  /** No other step changes them. */
  lemma PendingStays(s: State, t: Task)
    requires t in s.pc && Continue(s, t).Stepped?
    requires !s.pc[t].LeaveBody? && (IsAcquiring(s.pc[t]) ==> IsAcquiring(Continue(s, t).s.pc[t]))
    ensures var s' := Continue(s, t).s;
            s'.pending == s.pending && (!IsAcquiring(s.pc[t]) ==> !IsAcquiring(s'.pc[t]))
  {
  }

  lemma OwedMoves(s: State, t: Task)
    requires MutexOk(s) && OwnersOk(s) && t in s.pc && Continue(s, t).Stepped? && !s.pc[t].LeaveBody?
    requires IsAcquiring(s.pc[t]) ==> IsAcquiring(Continue(s, t).s.pc[t])
    ensures var s' := Continue(s, t).s;
            Distance(s'.pc[t]) + 3 * s'.sem + 4 * Owed(s') < Distance(s.pc[t]) + 3 * s.sem + 4 * Owed(s)
  {
  }

  lemma OwedStays(s: State, s': State, t: Task)
    requires MutexOk(s) && t in s.pc && s.pc[t] == Running && s' == s.(pc := s'.pc)
    requires t in s'.pc && s'.pc == s.pc[t := s'.pc[t]] && !HoldsMutex(s'.pc[t])
    ensures Owed(s') == Owed(s)
  {
  }

  /** A run in which nobody calls acquire. */
  ghost predicate GoesTo(s: State, moves: seq<(Task, Action)>, s': State)
    decreases |moves|
  {
    if moves == [] then s == s'
    else
      var (t, a) := moves[0];
      !a.CallAcquire? && Step(s, t, a).Stepped? && GoesTo(Step(s, t, a).s, moves[1..], s')
  }

  /** From every state the tasks inside drain out and every guard is left, or the run ends in a deadlock. */
  lemma {:induction false} Drains(s: State) returns (moves: seq<(Task, Action)>, s': State)
    requires Inv(s)
    ensures GoesTo(s, moves, s') && Inv(s') && (Idle(s') || Deadlocked(s'))
    decreases Sessions(s), Work(s)
  {
    if Idle(s) || Deadlocked(s) {
      moves, s' := [], s;
    } else {
      var mover, a := Progress(s);
      StepKeeps(s, mover, a);
      WorkDecreases(s, mover, a);
      var rest;
      rest, s' := Drains(Step(s, mover, a).s);
      moves := [(mover, a)] + rest;
      assert moves[1..] == rest;
    }
  }

  // ---------- initialisers that do not nest ----------

  /** Every guard t is initialising is related to g: its initialiser may ask for g. */
  predicate MayAsk(s: State, nest: set<(Guard, Guard)>, t: Task, g: Guard) {
    forall h :: h in s.owner && s.owner[h] == t ==> (h, g) in nest
  }

  /** Initialisers ask for guards only as `nest` says. */
  ghost predicate Respects(tasks: set<Task>, nest: set<(Guard, Guard)>, schedule: seq<(Task, Action)>) {
    schedule == [] ||
    var front, last := schedule[..|schedule| - 1], schedule[|schedule| - 1];
    && Respects(tasks, nest, front)
    && (last.1.CallAcquire? && Run(tasks, front).Stepped? ==>
          MayAsk(Run(tasks, front).s, nest, last.0, last.1.g))
  }

  /** No call of acquire by a task that is initialising a guard. */
  ghost predicate Flat(tasks: set<Task>, schedule: seq<(Task, Action)>) {
    Respects(tasks, {}, schedule)
  }

  predicate OwnersOutside(s: State) {
    forall g :: g in s.owner ==> s.owner[g] in s.pc && !IsAcquiring(s.pc[s.owner[g]])
  }

  lemma StepFlat(s: State, t: Task, a: Action)
    requires MutexOk(s) && OwnersOk(s) && OwnersOutside(s) && (a.CallAcquire? ==> MayAsk(s, {}, t, a.g))
    ensures Step(s, t, a).Stepped? ==> OwnersOutside(Step(s, t, a).s)
  {
    if Step(s, t, a).Stepped? {
      var s' := Step(s, t, a).s;
      StepPc(s, t, a);
      NewOwners(s, t, a);
      forall g | g in s'.owner ensures s'.owner[g] in s'.pc && !IsAcquiring(s'.pc[s'.owner[g]]) {
        if s'.owner[g] != t {
          assert g in s.owner && s.owner[g] == s'.owner[g];
        }
      }
    }
  }

  /** A task inside acquire after a step owns nothing new. */
  lemma NewOwners(s: State, t: Task, a: Action)
    requires Step(s, t, a).Stepped?
    ensures var s' := Step(s, t, a).s;
            && (forall g :: g in s'.owner ==> (g in s.owner && s.owner[g] == s'.owner[g]) || s'.owner[g] == t)
            && (IsAcquiring(s'.pc[t]) ==> s'.owner == s.owner && (IsAcquiring(s.pc[t]) || a.CallAcquire?))
  {
    StepPc(s, t, a);
  }

  /** In schedules without nested initialisers an initialiser is never itself inside acquire, so there is no
      deadlock. */
  lemma {:induction false} FlatRuns(tasks: set<Task>, schedule: seq<(Task, Action)>)
    requires |tasks| <= INT_MAX && Flat(tasks, schedule) && Run(tasks, schedule).Stepped?
    ensures OwnersOutside(Run(tasks, schedule).s) && !Deadlocked(Run(tasks, schedule).s)
    decreases |schedule|
  {
    RunKeeps(tasks, schedule);
    if schedule != [] {
      var front, last := schedule[..|schedule| - 1], schedule[|schedule| - 1];
      RunKeeps(tasks, front);
      FlatRuns(tasks, front);
      StepFlat(Run(tasks, front).s, last.0, last.1);
    }
  }

  lemma {:induction false} GoesFlat(s: State, moves: seq<(Task, Action)>, s': State)
    requires Inv(s) && OwnersOutside(s) && GoesTo(s, moves, s')
    ensures OwnersOutside(s')
    decreases |moves|
  {
    if moves != [] {
      var (t, a) := moves[0];
      StepFlat(s, t, a);
      StepKeeps(s, t, a);
      GoesFlat(Step(s, t, a).s, moves[1..], s');
    }
  }

  /** Liveness: after every schedule without nested initialisers, whatever is pending, all tasks can return and
      all guards be left; by WorkDecreases every run without further calls of acquire gets there. */
  lemma FlatDrains(tasks: set<Task>, schedule: seq<(Task, Action)>) returns (moves: seq<(Task, Action)>, s': State)
    requires |tasks| <= INT_MAX && Flat(tasks, schedule) && Run(tasks, schedule).Stepped?
    ensures GoesTo(Run(tasks, schedule).s, moves, s') && Idle(s')
  {
    RunKeeps(tasks, schedule);
    FlatRuns(tasks, schedule);
    moves, s' := Drains(Run(tasks, schedule).s);
    GoesFlat(Run(tasks, schedule).s, moves, s');
  }

  // ---------- initialise once ----------

  predicate IsReturn(e: Event, g: Guard, ret: nat) {
    e.Returned? && e.g == g && e.ret == ret
  }

  lemma {:induction false} LegalPrefix(log: seq<Event>, g: Guard, k: nat)
    requires k <= |log| && PhaseOf(log, g) != Illegal
    ensures PhaseOf(log[..k], g) != Illegal
    decreases |log|
  {
    if k < |log| {
      var front := log[..|log| - 1];
      LegalPrefix(front, g, k);
      assert front[..k] == log[..k];
    } else {
      assert log[..k] == log;
    }
  }

  lemma {:induction false} DoneWasReleased(log: seq<Event>, g: Guard) returns (j: nat)
    requires PhaseOf(log, g) == Done
    ensures j < |log| && IsRelease(log[j], g)
    decreases |log|
  {
    j := |log| - 1;
    if !(log[j].Released? && log[j].g == g) {
      j := DoneWasReleased(log[..|log| - 1], g);
    }
  }

  lemma {:induction false} ReleasedStaysDone(log: seq<Event>, g: Guard, j: nat)
    requires j < |log| && log[j].Released? && log[j].g == g && PhaseOf(log, g) != Illegal
    ensures PhaseOf(log, g) == Done
    decreases |log|
  {
    if j < |log| - 1 {
      LegalPrefix(log, g, |log| - 1);
      ReleasedStaysDone(log[..|log| - 1], g, j);
    }
  }

  /** After 1 was returned the guard stays with that task until it releases or aborts. */
  lemma {:induction false} BusyUntilLeft(log: seq<Event>, g: Guard, i: nat)
    requires i < |log| && IsReturn(log[i], g, 1) && PhaseOf(log, g) != Illegal
    requires forall j :: i < j < |log| ==> !(log[j].Aborted? && log[j].g == g && log[j].t == log[i].t)
    requires forall j :: i < j < |log| ==> !(log[j].Released? && log[j].g == g)
    ensures PhaseOf(log, g) == Busy(log[i].t)
    decreases |log|
  {
    var front := log[..|log| - 1];
    if i < |log| - 1 {
      LegalPrefix(log, g, |log| - 1);
      BusyUntilLeft(front, g, i);
    }
  }

  predicate IsRelease(e: Event, g: Guard) {
    e.Released? && e.g == g
  }

  predicate IsAbortBy(e: Event, g: Guard, t: Task) {
    e == Aborted(t, g)
  }

  lemma ZeroAfterRelease(log: seq<Event>, g: Guard, k: nat) returns (j: nat)
    requires PhaseOf(log, g) != Illegal && k < |log| && IsReturn(log[k], g, 0)
    ensures j < k && IsRelease(log[j], g)
  {
    LegalPrefix(log, g, k + 1);
    assert log[..k + 1][..k] == log[..k];
    j := DoneWasReleased(log[..k], g);
  }

  lemma NoInitAfterRelease(log: seq<Event>, g: Guard, i: nat, k: nat)
    requires PhaseOf(log, g) != Illegal && i < k < |log| && IsRelease(log[i], g)
    ensures !IsReturn(log[k], g, 1)
  {
    LegalPrefix(log, g, k);
    LegalPrefix(log, g, k + 1);
    assert log[..k + 1][..k] == log[..k];
    ReleasedStaysDone(log[..k], g, i);
  }

  lemma AbortBetweenInits(log: seq<Event>, g: Guard, i: nat, k: nat) returns (j: nat)
    requires PhaseOf(log, g) != Illegal && i < k < |log|
    requires IsReturn(log[i], g, 1) && IsReturn(log[k], g, 1)
    ensures i < j < k && IsAbortBy(log[j], g, log[i].t)
  {
    if m :| i < m < k && IsAbortBy(log[m], g, log[i].t) {
      j := m;
    } else {
      var before := log[..k];
      forall m | i < m < k ensures !IsRelease(log[m], g) {
        if IsRelease(log[m], g) {
          NoInitAfterRelease(log, g, m, k);
        }
      }
      LegalPrefix(log, g, k);
      LegalPrefix(log, g, k + 1);
      assert log[..k + 1][..k] == before;
      forall m | i < m < |before|
        ensures !(before[m].Aborted? && before[m].g == g && before[m].t == before[i].t)
        ensures !(before[m].Released? && before[m].g == g)
      {
        assert before[m] == log[m];
        assert !IsAbortBy(log[m], g, log[i].t) && !IsRelease(log[m], g);
      }
      BusyUntilLeft(before, g, i);
      assert false;
    }
  }

  /** Initialise once, in every interleaving: 0 is returned only after a release, 1 never after one, and
      two returns of 1 for a guard are separated by an abort of the first initialiser. */
  lemma InitialiseOnce(tasks: set<Task>, schedule: seq<(Task, Action)>, g: Guard)
    requires |tasks| <= INT_MAX && Run(tasks, schedule).Stepped?
    ensures var log := Run(tasks, schedule).s.log;
            && (forall k :: 0 <= k < |log| && IsReturn(log[k], g, 0) ==> exists j :: 0 <= j < k && IsRelease(log[j], g))
            && (forall i, k :: 0 <= i < k < |log| && IsRelease(log[i], g) ==> !IsReturn(log[k], g, 1))
            && (forall i, k :: 0 <= i < k < |log| && IsReturn(log[i], g, 1) && IsReturn(log[k], g, 1) ==>
                  exists j :: i < j < k && IsAbortBy(log[j], g, log[i].t))
  {
    RunKeeps(tasks, schedule);
    var log := Run(tasks, schedule).s.log;
    forall k | 0 <= k < |log| && IsReturn(log[k], g, 0) ensures exists j :: 0 <= j < k && IsRelease(log[j], g) {
      var j := ZeroAfterRelease(log, g, k);
    }
    forall i, k | 0 <= i < k < |log| && IsRelease(log[i], g) ensures !IsReturn(log[k], g, 1) {
      NoInitAfterRelease(log, g, i, k);
    }
    forall i, k | 0 <= i < k < |log| && IsReturn(log[i], g, 1) && IsReturn(log[k], g, 1)
      ensures exists j :: i < j < k && IsAbortBy(log[j], g, log[i].t)
    {
      var j := AbortBetweenInits(log, g, i, k);
    }
  }

  /** Clearing pending owes every waiting task one give, no more and no fewer; the gives are paid one by one
      and the mutex is given back with the last. */
  lemma LeaveOwesWaiters(s: State, t: Task)
    requires Inv(s) && t in s.pc && (s.pc[t].LeaveBody? || s.pc[t].Signalling?)
    ensures Continue(s, t).Stepped?
    ensures var s' := Continue(s, t).s;
            if s.pc[t].LeaveBody? then Owed(s') == |Waiters(s)| && s'.sem == s.sem
            else if Owed(s) == 0 then s'.mutex.None? && s'.sem == s.sem
            else Owed(s') == Owed(s) - 1 && s'.sem == s.sem + if s.sem < INT_MAX then 1 else 0
  {
    NoCrash(s, t);
    assert s.mutex == Some(t);
  }

  // ---------- what is called is what happens ----------

  /** The calls task t makes in a schedule. */
  function CallsOf(schedule: seq<(Task, Action)>, t: Task): seq<Action> {
    if schedule == [] then []
    else
      var (u, a) := schedule[|schedule| - 1];
      CallsOf(schedule[..|schedule| - 1], t) + if u == t && !a.Go? then [a] else []
  }

  /** The calls that the events of task t complete: an acquire returns, a release or abort has cleared pending. */
  function CallsCompleted(log: seq<Event>, t: Task): seq<Action> {
    if log == [] then []
    else
      var e := log[|log| - 1];
      CallsCompleted(log[..|log| - 1], t) + if e.t == t then [Completes(e)] else []
  }

  function Completes(e: Event): Action {
    match e
    case Returned(_, g, _) => CallAcquire(g)
    case Released(_, g) => CallRelease(g)
    case Aborted(_, g) => CallAbort(g)
  }

  /** The call a task inside one of the functions is still busy with. */
  function Outstanding(s: State, t: Task): seq<Action> {
    if t !in s.pc then []
    else
      match s.pc[t]
      case Running => []
      case Signalling(_) => []
      case LeaveEntry(g, done) => [if done then CallRelease(g) else CallAbort(g)]
      case LeaveBody(g, done) => [if done then CallRelease(g) else CallAbort(g)]
      case AcquireEntry(g) => [CallAcquire(g)]
      case AcquireBody(g) => [CallAcquire(g)]
      case WaitSem(g) => [CallAcquire(g)]
      case WaitMutex(g) => [CallAcquire(g)]
      case WaitCheck(g) => [CallAcquire(g)]
  }

  /** A task that goes on stays busy with its call, or completes it by one event. */
  lemma ContinueCalls(s: State, t: Task)
    requires t in s.pc && Continue(s, t).Stepped?
    ensures var s' := Continue(s, t).s;
            && t in s'.pc && s'.pc == s.pc[t := s'.pc[t]]
            && (|| (s'.log == s.log && Outstanding(s', t) == Outstanding(s, t))
                || (&& |s'.log| == |s.log| + 1 && s'.log[..|s.log|] == s.log && s'.log[|s.log|].t == t
                    && Outstanding(s, t) == [Completes(s'.log[|s.log|])] && Outstanding(s', t) == []))
  {
  }

  /** One step adds to what a task has called or moves the call it is busy with to the completed ones. */
  lemma StepCalls(s: State, t: Task, a: Action, u: Task)
    requires Step(s, t, a).Stepped?
    ensures CallsCompleted(Step(s, t, a).s.log, u) + Outstanding(Step(s, t, a).s, u)
         == CallsCompleted(s.log, u) + Outstanding(s, u) + if u == t && !a.Go? then [a] else []
  {
    if a.Go? {
      ContinueCalls(s, t);
      hide Continue;
    }
  }

  /** Every call a task makes is completed by its own kind of event, in the order of the calls, except
      the one the task is still busy with. */
  lemma {:induction false} CallsAnswered(tasks: set<Task>, schedule: seq<(Task, Action)>, t: Task)
    requires Run(tasks, schedule).Stepped?
    ensures var s := Run(tasks, schedule).s;
            CallsOf(schedule, t) == CallsCompleted(s.log, t) + Outstanding(s, t)
  {
    if schedule != [] {
      var front := schedule[..|schedule| - 1];
      var (u, a) := schedule[|schedule| - 1];
      CallsAnswered(tasks, front, t);
      StepCalls(Run(tasks, front).s, u, a, t);
    }
  }

  lemma {:induction false} CompletedAt(log: seq<Event>, k: nat)
    requires k < |log|
    ensures Completes(log[k]) in CallsCompleted(log, log[k].t)
  {
    if k < |log| - 1 {
      CompletedAt(log[..|log| - 1], k);
    }
  }

  lemma {:induction false} CalledAt(schedule: seq<(Task, Action)>, t: Task, a: Action)
    requires a in CallsOf(schedule, t)
    ensures (t, a) in schedule
  {
    if schedule[|schedule| - 1] != (t, a) {
      CalledAt(schedule[..|schedule| - 1], t, a);
    }
  }

  /** No event without its call: a release in the log was called as a release, an abort as an abort. */
  lemma EventsWereCalled(tasks: set<Task>, schedule: seq<(Task, Action)>, k: nat)
    requires Run(tasks, schedule).Stepped? && k < |Run(tasks, schedule).s.log|
    ensures var e := Run(tasks, schedule).s.log[k];
            && (e.Returned? ==> (e.t, CallAcquire(e.g)) in schedule)
            && (e.Released? ==> (e.t, CallRelease(e.g)) in schedule)
            && (e.Aborted? ==> (e.t, CallAbort(e.g)) in schedule)
  {
    var log := Run(tasks, schedule).s.log;
    CompletedAt(log, k);
    CallsAnswered(tasks, schedule, log[k].t);
    CalledAt(schedule, log[k].t, Completes(log[k]));
  }

  /** A guard nobody calls release for never becomes ready, however often it is aborted: every acquire
      that returns for it returns 1. */
  lemma NotReadyUnlessReleased(tasks: set<Task>, schedule: seq<(Task, Action)>, g: Guard)
    requires |tasks| <= INT_MAX && Run(tasks, schedule).Stepped?
    requires forall t :: (t, CallRelease(g)) !in schedule
    ensures var s := Run(tasks, schedule).s;
            g !in s.ready && forall k :: 0 <= k < |s.log| ==> !IsReturn(s.log[k], g, 0)
  {
    RunKeeps(tasks, schedule);
    var s := Run(tasks, schedule).s;
    assert PhaseOf(s.log, g) == CurrentPhase(s, g);
    if g in s.ready {
      var j := DoneWasReleased(s.log, g);
      EventsWereCalled(tasks, schedule, j);
    }
    forall k | 0 <= k < |s.log| ensures !IsReturn(s.log[k], g, 0) {
      if IsReturn(s.log[k], g, 0) {
        var j := ZeroAfterRelease(s.log, g, k);
        EventsWereCalled(tasks, schedule, j);
      }
    }
  }

  /** A guard with a completed release is ready for good, and one without is not. */
  lemma ReadyIff(tasks: set<Task>, schedule: seq<(Task, Action)>, g: Guard)
    requires |tasks| <= INT_MAX && Run(tasks, schedule).Stepped?
    ensures var s := Run(tasks, schedule).s;
            g in s.ready <==> exists t :: CallRelease(g) in CallsCompleted(s.log, t)
  {
    RunKeeps(tasks, schedule);
    var s := Run(tasks, schedule).s;
    assert PhaseOf(s.log, g) == CurrentPhase(s, g);
    if g in s.ready {
      var j := DoneWasReleased(s.log, g);
      CompletedAt(s.log, j);
      assert CallRelease(g) in CallsCompleted(s.log, s.log[j].t);
    }
    if t :| CallRelease(g) in CallsCompleted(s.log, t) {
      var j := CompletedRelease(s.log, t, g);
      ReleasedStaysDone(s.log, g, j);
    }
  }

  lemma {:induction false} CompletedRelease(log: seq<Event>, t: Task, g: Guard) returns (j: nat)
    requires CallRelease(g) in CallsCompleted(log, t)
    ensures j < |log| && log[j] == Released(t, g)
    decreases |log|
  {
    j := |log| - 1;
    if log[j] != Released(t, g) {
      j := CompletedRelease(log[..|log| - 1], t, g);
    }
  }

  // ---------- the shared objects, updated in place ----------

  /** The globals of cxx_guards.cpp, the guard objects and where each task is; every method is the stretch
      of code between two semaphore operations. */
  class Runtime {
    var pc: map<Task, Pc>
    var mutex: Option<Task>
    var sem: nat
    var waiting: nat
    var ready: set<Guard>
    var pending: set<Guard>
    ghost var owner: map<Guard, Task>
    ghost var log: seq<Event>

    ghost function View(): State
      reads this
    {
      State(pc, mutex, sem, waiting, ready, pending, owner, log)
    }

    constructor (tasks: set<Task>)
      requires |tasks| <= INT_MAX
      ensures View() == Init(tasks) && Inv(View())
    {
      pc := map t | t in tasks :: Running;
      mutex, sem, waiting, ready, pending := None, 0, 0, {}, {};
      owner, log := map[], [];
      new;
      RunKeeps(tasks, []);
    }

    /** Task t goes on, unless it has to wait; the asserts of the source hold. */
    method Advance(t: Task) returns (moved: bool)
      requires Inv(View()) && t in pc
      modifies this
      ensures Inv(View())
      ensures moved <==> Step(old(View()), t, Go).Stepped?
      ensures moved ==> View() == Step(old(View()), t, Go).s
      ensures !moved ==> unchanged(this)
    {
      StepKeeps(View(), t, Go);
      moved := Proceed(t);
    }

    /** Dispatches on where t is; the mutex facts come from the invariant. */
    method Proceed(t: Task) returns (moved: bool)
      requires t in pc && MutexOk(View()) && !Step(View(), t, Go).Crashed?
      modifies this
      ensures moved <==> Step(old(View()), t, Go).Stepped?
      ensures moved ==> View() == Step(old(View()), t, Go).s
      ensures !moved ==> unchanged(this)
    {
      match pc[t]
      case Running => moved := false;
      case AcquireEntry(g) => moved := Take(t, AcquireBody(g));
      case AcquireBody(g) => TestPending(t, g); moved := true;
      case WaitSem(g) => moved := TakeSem(t, g);
      case WaitMutex(g) => moved := Take(t, WaitCheck(g));
      case WaitCheck(g) => TestAgain(t, g); moved := true;
      case LeaveEntry(g, done) => moved := Take(t, LeaveBody(g, done));
      case LeaveBody(g, done) => ClearPending(t, g, done); moved := true;
      case Signalling(left) => Signal(t, left); moved := true;
    }

    method TestPending(t: Task, g: Guard)
      requires t in pc && pc[t] == AcquireBody(g) && mutex == Some(t)
      modifies this
      ensures Stepped(View()) == Continue(old(View()), t)
    {
      if g in pending {
        waiting := (waiting + 1) % SIZE_T;
        Give(t, WaitSem(g));
      } else {
        FinishAcquire(t, g);
      }
    }

    method TakeSem(t: Task, g: Guard) returns (moved: bool)
      requires t in pc && pc[t] == WaitSem(g)
      modifies this`sem, this`pc
      ensures moved <==> Continue(old(View()), t).Stepped?
      ensures moved ==> Stepped(View()) == Continue(old(View()), t)
      ensures !moved ==> unchanged(this)
    {
      moved := sem > 0;
      if moved {
        sem := sem - 1;
        pc := pc[t := WaitMutex(g)];
      }
    }

    method TestAgain(t: Task, g: Guard)
      requires t in pc && pc[t] == WaitCheck(g) && mutex == Some(t)
      modifies this
      ensures Stepped(View()) == Continue(old(View()), t)
    {
      if g in pending {
        Give(t, WaitSem(g));
      } else {
        waiting := (waiting + SIZE_T - 1) % SIZE_T;
        FinishAcquire(t, g);
      }
    }

    method ClearPending(t: Task, g: Guard, done: bool)
      requires t in pc && pc[t] == LeaveBody(g, done) && !Continue(View(), t).Crashed?
      modifies this
      ensures Stepped(View()) == Continue(old(View()), t)
    {
      assert done || g !in ready;
      assert g in pending;
      pending := pending - {g};
      owner := owner - {g};
      if done {
        ready := ready + {g};
      }
      log := log + [if done then Released(t, g) else Aborted(t, g)];
      pc := pc[t := Signalling(waiting)];
    }

    method Signal(t: Task, left: nat)
      requires t in pc && pc[t] == Signalling(left) && mutex == Some(t)
      modifies this
      ensures Stepped(View()) == Continue(old(View()), t)
    {
      if left == 0 {
        Give(t, Running);
      } else {
        if sem < INT_MAX {
          sem := sem + 1;
        }
        pc := pc[t := Signalling(left - 1)];
      }
    }

    /** A running task calls acquire, release or abort. */
    method Enter(t: Task, a: Action) returns (moved: bool)
      requires Inv(View()) && t in pc && pc[t] == Running && !a.Go?
      requires !a.CallAcquire? ==> a.g in owner && owner[a.g] == t
      modifies this`pc
      ensures Inv(View()) && moved && View() == Step(old(View()), t, a).s
    {
      StepKeeps(View(), t, a);
      match a
      case CallAcquire(g) => pc := pc[t := AcquireEntry(g)]; moved := true;
      case CallRelease(g) => pc := pc[t := LeaveEntry(g, true)]; moved := true;
      case CallAbort(g) => pc := pc[t := LeaveEntry(g, false)]; moved := true;
    }

    /** A whole schedule, executed in place, is a run of the model. */
    method Execute(ghost tasks: set<Task>, schedule: seq<(Task, Action)>)
      requires |tasks| <= INT_MAX && View() == Init(tasks) && Run(tasks, schedule).Stepped?
      modifies this
      ensures Stepped(View()) == Run(tasks, schedule) && Inv(View())
    {
      hide Inv, Continue;
      RunKeeps(tasks, []);
      for i := 0 to |schedule|
        invariant Inv(View()) && Stepped(View()) == Run(tasks, schedule[..i])
      {
        var (t, a) := schedule[i];
        RunPrefix(tasks, schedule, i + 1);
        assert schedule[..i + 1][..i] == schedule[..i];
        if a.Go? {
          var moved := Advance(t);
        } else {
          var moved := Enter(t, a);
        }
      }
      assert schedule[..|schedule|] == schedule;
    }

    method Take(t: Task, next: Pc) returns (ok: bool)
      requires t in pc
      modifies this`mutex, this`pc
      ensures ok <==> old(mutex).None?
      ensures ok ==> mutex == Some(t) && pc == old(pc)[t := next]
      ensures !ok ==> unchanged(this)
    {
      ok := mutex.None?;
      if ok {
        mutex, pc := Some(t), pc[t := next];
      }
    }

    /** Only the holder gives the mutex back, so the give succeeds. */
    method Give(t: Task, next: Pc)
      requires t in pc && mutex == Some(t)
      modifies this`mutex, this`pc
      ensures mutex.None? && pc == old(pc)[t := next]
    {
      mutex, pc := None, pc[t := next];
    }

    method FinishAcquire(t: Task, g: Guard)
      requires t in pc && mutex == Some(t)
      modifies this`mutex, this`pc, this`pending, this`owner, this`log
      ensures Stepped(View()) == Decide(old(View()), t, g)
    {
      if g in ready {
        log := log + [Returned(t, g, 0)];
      } else {
        pending := pending + {g};
        owner := owner[g := t];
        log := log + [Returned(t, g, 1)];
      }
      Give(t, Running);
    }
  }
}
