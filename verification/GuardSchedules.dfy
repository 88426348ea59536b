/**
 What the guards do not promise, as schedules: when a waiter can be stranded, and when initialisation can deadlock.
 */
module GuardSchedules {
  import opened Guards
  import opened Wrappers

  /** All calls are about these guards. */
  predicate Uses(schedule: seq<(Task, Action)>, guards: set<Guard>) {
    forall i :: 0 <= i < |schedule| && !schedule[i].1.Go? ==> schedule[i].1.g in guards
  }

  /** Who takes part, which guards there are, and which initialisers may ask for which guards. */
  datatype Setting = Setting(tasks: set<Task>, guards: set<Guard>, nest: set<(Guard, Guard)>)

  /** The schedule leads to s within the setting. */
  ghost predicate LeadsTo(x: Setting, schedule: seq<(Task, Action)>, s: State) {
    Run(x.tasks, schedule) == Stepped(s) && Uses(schedule, x.guards) && Respects(x.tasks, x.nest, schedule)
  }

  lemma Extend(x: Setting, schedule: seq<(Task, Action)>, s0: State, t: Task, a: Action)
    returns (longer: seq<(Task, Action)>, s: State)
    requires LeadsTo(x, schedule, s0) && Step(s0, t, a).Stepped? && (a.Go? || a.g in x.guards)
    requires a.CallAcquire? ==> MayAsk(s0, x.nest, t, a.g)
    ensures LeadsTo(x, longer, s) && Stepped(s) == Step(s0, t, a)
  {
    longer := schedule + [(t, a)];
    assert longer[..|schedule|] == schedule;
    s := Step(s0, t, a).s;
  }

  /** The schedule so far, and where it leads. */
  lemma Nothing(x: Setting)
    ensures LeadsTo(x, [], Init(x.tasks))
  {
  }

  /** Task t asks for guard g and gets it. */
  lemma Initialises(x: Setting, schedule: seq<(Task, Action)>, s0: State, t: Task, g: Guard)
    returns (longer: seq<(Task, Action)>, s: State)
    requires LeadsTo(x, schedule, s0) && g in x.guards && MayAsk(s0, x.nest, t, g)
    requires t in s0.pc && s0.pc[t] == Running && s0.mutex.None? && g !in s0.pending && g !in s0.ready
    ensures LeadsTo(x, longer, s)
    ensures s == s0.(pending := s0.pending + {g}, owner := s0.owner[g := t], log := s0.log + [Returned(t, g, 1)])
  {
    longer, s := Extend(x, schedule, s0, t, CallAcquire(g));
    longer, s := Extend(x, longer, s, t, Go);
    longer, s := Extend(x, longer, s, t, Go);
    assert s.pc == s0.pc;
  }

  /** Task t asks for a pending guard and waits. */
  lemma Waits(x: Setting, schedule: seq<(Task, Action)>, s0: State, t: Task, g: Guard)
    returns (longer: seq<(Task, Action)>, s: State)
    requires LeadsTo(x, schedule, s0) && g in x.guards && MayAsk(s0, x.nest, t, g)
    requires t in s0.pc && s0.pc[t] == Running && s0.mutex.None? && g in s0.pending && s0.waiting < 2
    ensures LeadsTo(x, longer, s)
    ensures s == s0.(pc := s0.pc[t := WaitSem(g)], waiting := s0.waiting + 1)
  {
    longer, s := Extend(x, schedule, s0, t, CallAcquire(g));
    longer, s := Extend(x, longer, s, t, Go);
    longer, s := Extend(x, longer, s, t, Go);
    assert s.pc == s0.pc[t := WaitSem(g)];
  }

  /** A waiter of a guard that is still pending takes a token, finds the guard pending and waits again. */
  lemma Loops(x: Setting, schedule: seq<(Task, Action)>, s0: State, t: Task, g: Guard)
    returns (longer: seq<(Task, Action)>, s: State)
    requires LeadsTo(x, schedule, s0)
    requires t in s0.pc && s0.pc[t] == WaitSem(g) && s0.mutex.None? && g in s0.pending && s0.sem > 0
    ensures LeadsTo(x, longer, s)
    ensures s == s0.(sem := s0.sem - 1)
  {
    longer, s := Extend(x, schedule, s0, t, Go);
    longer, s := Extend(x, longer, s, t, Go);
    longer, s := Extend(x, longer, s, t, Go);
    assert s.pc == s0.pc;
  }

  /** The initialiser clears its guard and is about to signal. */
  lemma Clears(x: Setting, schedule: seq<(Task, Action)>, s0: State, t: Task, g: Guard)
    returns (longer: seq<(Task, Action)>, s: State)
    requires LeadsTo(x, schedule, s0) && g in x.guards && t in s0.pc && s0.pc[t] == Running && s0.mutex.None?
    requires g in s0.pending && g in s0.owner && s0.owner[g] == t
    ensures LeadsTo(x, longer, s)
    ensures s == s0.(pending := s0.pending - {g}, owner := s0.owner - {g}, ready := s0.ready + {g},
                     pc := s0.pc[t := Signalling(s0.waiting)], mutex := Some(t), log := s0.log + [Released(t, g)])
  {
    longer, s := Extend(x, schedule, s0, t, CallRelease(g));
    longer, s := Extend(x, longer, s, t, Go);
    longer, s := Extend(x, longer, s, t, Go);
    assert s.pc == s0.pc[t := Signalling(s0.waiting)];
  }

  /** It gives one token and then the mutex. */
  lemma Signals(x: Setting, schedule: seq<(Task, Action)>, s0: State, t: Task)
    returns (longer: seq<(Task, Action)>, s: State)
    requires LeadsTo(x, schedule, s0)
    requires t in s0.pc && s0.pc[t] == Signalling(1) && s0.mutex == Some(t) && s0.sem == 0
    ensures LeadsTo(x, longer, s)
    ensures s == s0.(pc := s0.pc[t := Running], mutex := None, sem := 1)
  {
    longer, s := Extend(x, schedule, s0, t, Go);
    longer, s := Extend(x, longer, s, t, Go);
    assert s.pc == s0.pc[t := Running];
  }

  /** Task t releases g, for which one task waits; then it asks for h, which is pending, takes the token itself,
      finds h pending and waits. The waiter of g goes without. */
  lemma Robs(x: Setting, schedule: seq<(Task, Action)>, s0: State, t: Task, g: Guard, h: Guard)
    returns (longer: seq<(Task, Action)>, s: State)
    requires LeadsTo(x, schedule, s0) && g in x.guards && h in x.guards && g != h
    requires t in s0.pc && s0.pc[t] == Running && s0.mutex.None? && s0.sem == 0 && s0.waiting == 1
    requires g in s0.pending && h in s0.pending && g in s0.owner && s0.owner[g] == t
    requires forall i :: i in s0.owner && i != g ==> s0.owner[i] != t
    ensures LeadsTo(x, longer, s)
    ensures s.pc == s0.pc[t := WaitSem(h)] && s.mutex.None? && s.sem == 0
    ensures s.ready == s0.ready + {g} && s.pending == s0.pending - {g} && s.owner == s0.owner - {g}
  {
    longer, s := Clears(x, schedule, s0, t, g);
    longer, s := Signals(x, longer, s, t);
    assert MayAsk(s, x.nest, t, h);
    longer, s := Waits(x, longer, s, t, h);
    longer, s := Loops(x, longer, s, t, h);
    assert s.pc == s0.pc[t := WaitSem(h)];
  }

  // ---------- when initialisation can deadlock ----------

  /** Task t0 initialises guard g1 and, inside it, waits for g0, which t1 is initialising. Task t1 releases g0 and
      robs t0 of its token. Now t0 waits for a guard that is ready, and t1 for one that only t0 can leave. */
  lemma Nested(x: Setting, t0: Task, t1: Task, g0: Guard, g1: Guard)
    returns (schedule: seq<(Task, Action)>, s: State)
    requires t0 in x.tasks && t1 in x.tasks && t0 != t1
    requires g0 in x.guards && g1 in x.guards && g0 != g1 && (g1, g0) in x.nest
    ensures LeadsTo(x, schedule, s)
    ensures s.pc == Init(x.tasks).pc[t0 := WaitSem(g0)][t1 := WaitSem(g1)] && s.mutex.None? && s.sem == 0
    ensures s.ready == {g0} && s.pending == {g1} && s.owner == map[g1 := t0]
  {
    schedule, s := NestedWait(x, t0, t1, g0, g1);
    schedule, s := Robs(x, schedule, s, t1, g0, g1);
  }

  lemma NestedWait(x: Setting, t0: Task, t1: Task, g0: Guard, g1: Guard)
    returns (schedule: seq<(Task, Action)>, s: State)
    requires t0 in x.tasks && t1 in x.tasks && t0 != t1
    requires g0 in x.guards && g1 in x.guards && g0 != g1 && (g1, g0) in x.nest
    ensures LeadsTo(x, schedule, s)
    ensures s.pc == Init(x.tasks).pc[t0 := WaitSem(g0)] && s.mutex.None? && s.sem == 0 && s.waiting == 1
    ensures s.ready == {} && s.pending == {g0, g1} && s.owner == map[g1 := t0, g0 := t1]
  {
    Nothing(x);
    schedule, s := Initialises(x, [], Init(x.tasks), t0, g1);
    schedule, s := Initialises(x, schedule, s, t1, g0);
    schedule, s := Waits(x, schedule, s, t0, g0);
  }

  /** A task that asks for a guard it is initialising waits for itself. */
  lemma SelfNested(x: Setting, t: Task, g: Guard) returns (schedule: seq<(Task, Action)>, s: State)
    requires t in x.tasks && g in x.guards && (g, g) in x.nest
    ensures LeadsTo(x, schedule, s) && Deadlocked(s)
  {
    Nothing(x);
    schedule, s := Initialises(x, [], Init(x.tasks), t, g);
    schedule, s := Waits(x, schedule, s, t, g);
  }

  /** Nesting can deadlock two tasks: no step of any task is possible any more, although the dependencies between
      the two initialisers are acyclic. */
  lemma NestedDeadlocks() returns (schedule: seq<(Task, Action)>, s: State)
    ensures Run({0, 1}, schedule) == Stepped(s) && Respects({0, 1}, {(1, 0)}, schedule)
    ensures Deadlocked(s) && Stranded(s, 0)
    ensures s.pc[0] == WaitSem(0) && 0 in s.ready && s.pending == {1} && s.owner[1] == 0
    ensures forall t, a :: Step(s, t, a) == Blocked
  {
    schedule, s := Nested(Setting({0, 1}, {0, 1}, {(1, 0)}), 0, 1, 0, 1);
  }

  ghost predicate Deadlocks(tasks: set<Task>, nest: set<(Guard, Guard)>, schedule: seq<(Task, Action)>) {
    Respects(tasks, nest, schedule) && Run(tasks, schedule).Stepped? && Deadlocked(Run(tasks, schedule).s)
  }

  /** Exactly when initialisation can deadlock: some initialiser may ask for a guard. */
  lemma DeadlockIff(tasks: set<Task>, nest: set<(Guard, Guard)>)
    requires 2 <= |tasks| <= INT_MAX
    ensures (exists schedule :: Deadlocks(tasks, nest, schedule)) <==> nest != {}
  {
    forall schedule | Deadlocks(tasks, nest, schedule) ensures nest != {} {
      if nest == {} {
        FlatRuns(tasks, schedule);
      }
    }
    if p :| p in nest {
      NestDeadlocks(tasks, nest, p.0, p.1);
    }
  }

  lemma NestDeadlocks(tasks: set<Task>, nest: set<(Guard, Guard)>, g: Guard, h: Guard)
    requires |tasks| >= 2 && (g, h) in nest
    ensures exists schedule :: Deadlocks(tasks, nest, schedule)
  {
    var x := Setting(tasks, {g, h}, nest);
    var t0, t1 := Two(tasks);
    var schedule, s;
    if g == h {
      schedule, s := SelfNested(x, t0, g);
    } else {
      schedule, s := Nested(x, t0, t1, h, g);
    }
    assert Deadlocks(tasks, nest, schedule);
  }

  // ---------- when a waiter can be stranded ----------

  /** Task t waits for a guard that is not pending, with no token there or owed. */
  predicate Stranded(s: State, t: Task) {
    t in s.pc && s.pc[t].WaitSem? && s.pc[t].g !in s.pending && s.sem == 0 && Owed(s) == 0
  }

  ghost predicate Strands(tasks: set<Task>, guards: set<Guard>, schedule: seq<(Task, Action)>, t: Task) {
    Uses(schedule, guards) && Run(tasks, schedule).Stepped? && Stranded(Run(tasks, schedule).s, t)
  }

  predicate AllWithin(s: State, guards: set<Guard>) {
    && s.pending <= guards
    && forall t :: t in s.pc && s.pc[t] != Running && !s.pc[t].Signalling? ==> s.pc[t].g in guards
  }

  lemma StepWithin(s: State, guards: set<Guard>, t: Task, a: Action)
    requires AllWithin(s, guards) && Step(s, t, a).Stepped? && (a.Go? || a.g in guards)
    ensures AllWithin(Step(s, t, a).s, guards)
  {
    StepPc(s, t, a);
  }

  lemma {:induction false} UsedGuards(tasks: set<Task>, guards: set<Guard>, schedule: seq<(Task, Action)>)
    requires Uses(schedule, guards) && Run(tasks, schedule).Stepped?
    ensures AllWithin(Run(tasks, schedule).s, guards)
    decreases |schedule|
  {
    if schedule != [] {
      var front := schedule[..|schedule| - 1];
      var (t, a) := schedule[|schedule| - 1];
      UsedGuards(tasks, guards, front);
      assert a.Go? || a.g in guards;
      StepWithin(Run(tasks, front).s, guards, t, a);
    }
  }

  lemma {:induction false} PcKeys(tasks: set<Task>, schedule: seq<(Task, Action)>)
    requires Run(tasks, schedule).Stepped?
    ensures Run(tasks, schedule).s.pc.Keys == tasks
    decreases |schedule|
  {
    if schedule != [] {
      var front := schedule[..|schedule| - 1];
      var (t, a) := schedule[|schedule| - 1];
      PcKeys(tasks, front);
      StepPc(Run(tasks, front).s, t, a);
    }
  }

  /** A task that is alone waits only for a guard that is pending, its own. */
  lemma {:induction false} AloneWaits(tasks: set<Task>, schedule: seq<(Task, Action)>, t: Task)
    requires tasks == {t} && Run(tasks, schedule).Stepped?
    ensures var s := Run(tasks, schedule).s;
            s.pc.Keys == {t} && (InWait(s.pc[t]) ==> s.pc[t].g in s.pending)
    decreases |schedule|
  {
    if schedule != [] {
      var front := schedule[..|schedule| - 1];
      var (u, a) := schedule[|schedule| - 1];
      AloneWaits(tasks, front, t);
      AloneStep(Run(tasks, front).s, u, a);
    }
  }

  lemma AloneStep(s: State, t: Task, a: Action)
    requires Step(s, t, a).Stepped? && (InWait(s.pc[t]) ==> s.pc[t].g in s.pending)
    ensures var s' := Step(s, t, a).s;
            s'.pc.Keys == s.pc.Keys && (InWait(s'.pc[t]) ==> s'.pc[t].g in s'.pending)
  {
    StepPc(s, t, a);
  }

  lemma Same<T>(a: set<T>, x: T, y: T)
    requires x in a && y in a && |a| < 2
    ensures x == y
  {
    SubsetCard({x, y}, a);
  }

  lemma Two<T>(a: set<T>) returns (x: T, y: T)
    requires |a| >= 2
    ensures x in a && y in a && x != y
  {
    x :| x in a;
    assert |a - {x}| == |a| - 1;
    y :| y in a - {x};
  }

  lemma Three<T>(a: set<T>) returns (x: T, y: T, z: T)
    requires |a| >= 3
    ensures x in a && y in a && z in a && x != y && x != z && y != z
  {
    x :| x in a;
    assert |a - {x}| == |a| - 1;
    y, z := Two(a - {x});
  }

  lemma StrandingNeeds(tasks: set<Task>, guards: set<Guard>, schedule: seq<(Task, Action)>, t: Task)
    requires |tasks| <= INT_MAX && Strands(tasks, guards, schedule, t)
    ensures |tasks| >= 2 && |guards| >= 2
  {
    var s := Run(tasks, schedule).s;
    NoStrandedWaiter(tasks, schedule);
    UsedGuards(tasks, guards, schedule);
    assert t in Tokenless(s);
    var g :| g in s.pending;
    if |guards| < 2 {
      Same(guards, g, s.pc[t].g);
    }
    PcKeys(tasks, schedule);
    if |tasks| < 2 {
      forall u | u in tasks ensures u == t {
        Same(tasks, u, t);
      }
      assert tasks == {t};
      AloneWaits(tasks, schedule, t);
    }
  }

  /** Exactly when a waiter of a guard that is not pending can be stranded: there are two tasks and two guards. */
  lemma StrandedIff(tasks: set<Task>, guards: set<Guard>)
    requires |tasks| <= INT_MAX
    ensures (exists schedule, t :: Strands(tasks, guards, schedule, t)) <==> |tasks| >= 2 && |guards| >= 2
  {
    forall schedule, t | Strands(tasks, guards, schedule, t) ensures |tasks| >= 2 && |guards| >= 2 {
      StrandingNeeds(tasks, guards, schedule, t);
    }
    if |tasks| >= 2 && |guards| >= 2 {
      var t0, t1 := Two(tasks);
      var g0, g1 := Two(guards);
      var schedule, s := Nested(Setting(tasks, guards, {(g1, g0)}), t0, t1, g0, g1);
      assert Strands(tasks, guards, schedule, t0);
    }
  }

  // ---------- the same without nested initialisers ----------

  /** Task t0 initialises g0 and t1 initialises g1; t2 waits for g0. Task t0 releases g0 and robs t2 of its token. */
  lemma Robbed(x: Setting, t0: Task, t1: Task, t2: Task, g0: Guard, g1: Guard)
    returns (schedule: seq<(Task, Action)>, s: State)
    requires t0 in x.tasks && t1 in x.tasks && t2 in x.tasks && t0 != t1 && t0 != t2 && t1 != t2
    requires g0 in x.guards && g1 in x.guards && g0 != g1
    ensures LeadsTo(x, schedule, s)
    ensures s.pc == Init(x.tasks).pc[t2 := WaitSem(g0)][t0 := WaitSem(g1)] && s.mutex.None? && s.sem == 0
    ensures s.ready == {g0} && s.pending == {g1} && s.owner == map[g1 := t1]
  {
    schedule, s := Contended(x, t0, t1, t2, g0, g1);
    schedule, s := Robs(x, schedule, s, t0, g0, g1);
  }

  lemma Contended(x: Setting, t0: Task, t1: Task, t2: Task, g0: Guard, g1: Guard)
    returns (schedule: seq<(Task, Action)>, s: State)
    requires t0 in x.tasks && t1 in x.tasks && t2 in x.tasks && t0 != t1 && t0 != t2 && t1 != t2
    requires g0 in x.guards && g1 in x.guards && g0 != g1
    ensures LeadsTo(x, schedule, s)
    ensures s.pc == Init(x.tasks).pc[t2 := WaitSem(g0)] && s.mutex.None? && s.sem == 0 && s.waiting == 1
    ensures s.ready == {} && s.pending == {g0, g1} && s.owner == map[g0 := t0, g1 := t1]
  {
    Nothing(x);
    schedule, s := Initialises(x, [], Init(x.tasks), t0, g0);
    schedule, s := Initialises(x, schedule, s, t1, g1);
    schedule, s := Waits(x, schedule, s, t2, g0);
  }

  /** It is not true that every waiter of a released guard gets a token, not even without nested initialisers:
      task 2 is left blocked on guard 0, which is ready, with no token there or owed. */
  lemma TokensCanBeTaken() returns (schedule: seq<(Task, Action)>, s: State)
    ensures Run({0, 1, 2}, schedule) == Stepped(s) && Flat({0, 1, 2}, schedule)
    ensures Stranded(s, 2) && s.pc[2] == WaitSem(0) && 0 in s.ready && s.pending == {1}
  {
    schedule, s := Robbed(Setting({0, 1, 2}, {0, 1}, {}), 0, 1, 2, 0, 1);
  }

  /** At most one task waits, and a waiter of a guard that is not pending has a token coming. */
  predicate Paired(s: State) {
    && (forall t, u :: t in s.pc && u in s.pc && InWait(s.pc[t]) && InWait(s.pc[u]) ==> t == u)
    && (forall t :: t in s.pc && s.pc[t].WaitSem? && s.pc[t].g !in s.pending ==> s.sem + Owed(s) >= 1)
  }

  lemma StepPaired(s: State, t: Task, a: Action)
    requires Inv(s) && OwnersOutside(s) && |s.pc| <= 2 && Paired(s) && Step(s, t, a).Stepped?
    ensures Paired(Step(s, t, a).s)
  {
    hide Inv, Leave, Decide, OwnersOutside, Owed;
    var s' := Step(s, t, a).s;
    StepPc(s, t, a);
    if InWait(s'.pc[t]) && !InWait(s.pc[t]) {
      EntersWait(s, t);
    }
    forall u | u in s'.pc && s'.pc[u].WaitSem? && s'.pc[u].g !in s'.pending ensures s'.sem + Owed(s') >= 1 {
      if u == t {
        WaitsForPending(s, t);
      } else {
        OtherWaits(s, t, a, u);
      }
    }
  }

  /** A task that starts to wait does so for a guard of another task, which is outside. */
  lemma EntersWait(s: State, t: Task)
    requires Inv(s) && OwnersOutside(s) && |s.pc| <= 2 && t in s.pc && Continue(s, t).Stepped?
    requires InWait(Continue(s, t).s.pc[t]) && !InWait(s.pc[t])
    ensures forall u :: u in s.pc && InWait(s.pc[u]) ==> u == t
  {
    var o := s.owner[s.pc[t].g];
    assert |s.pc.Keys| == |s.pc|;
    forall u | u in s.pc && InWait(s.pc[u]) ensures u == t {
      if u != t {
        SubsetCard({o, t, u}, s.pc.Keys);
      }
    }
  }

  lemma WaitsForPending(s: State, t: Task)
    requires t in s.pc && Continue(s, t).Stepped? && Continue(s, t).s.pc[t].WaitSem?
    ensures var s' := Continue(s, t).s; s'.pc[t].g in s'.pending
  {
  }

  /** The other task's step keeps the token of the waiter u, or owes it one. */
  lemma OtherWaits(s: State, t: Task, a: Action, u: Task)
    requires Inv(s) && Paired(s) && Step(s, t, a).Stepped? && u in s.pc && u != t && s.pc[u].WaitSem?
    requires s.pc[u].g !in Step(s, t, a).s.pending
    ensures var s' := Step(s, t, a).s; s'.sem + Owed(s') >= 1
  {
    assert u in Waiters(s);
    SubsetCard({u}, Waiters(s));
    if a.Go? {
      OtherContinues(s, t, u);
    }
  }

  lemma OtherContinues(s: State, t: Task, u: Task)
    requires MutexOk(s) && Paired(s) && s.waiting >= 1 && t in s.pc && Continue(s, t).Stepped?
    requires u in s.pc && u != t && s.pc[u].WaitSem? && s.pc[u].g !in Continue(s, t).s.pending
    ensures var s' := Continue(s, t).s; s'.sem + Owed(s') >= 1
  {
  }

  lemma {:induction false} PairedRuns(tasks: set<Task>, schedule: seq<(Task, Action)>)
    requires |tasks| <= 2 && Flat(tasks, schedule) && Run(tasks, schedule).Stepped?
    ensures Paired(Run(tasks, schedule).s)
    decreases |schedule|
  {
    if schedule != [] {
      var front := schedule[..|schedule| - 1];
      var (t, a) := schedule[|schedule| - 1];
      PairedRuns(tasks, front);
      RunKeeps(tasks, front);
      FlatRuns(tasks, front);
      PcKeys(tasks, front);
      assert |Run(tasks, front).s.pc.Keys| == |Run(tasks, front).s.pc|;
      StepPaired(Run(tasks, front).s, t, a);
    }
  }

  /** Exactly when a waiter can be stranded although no initialisers nest: there are three tasks and two guards. */
  lemma FlatStrandedIff(tasks: set<Task>, guards: set<Guard>)
    requires |tasks| <= INT_MAX
    ensures (exists schedule, t :: Flat(tasks, schedule) && Strands(tasks, guards, schedule, t))
            <==> |tasks| >= 3 && |guards| >= 2
  {
    forall schedule, t | Flat(tasks, schedule) && Strands(tasks, guards, schedule, t)
      ensures |tasks| >= 3 && |guards| >= 2
    {
      StrandingNeeds(tasks, guards, schedule, t);
      if |tasks| <= 2 {
        PairedRuns(tasks, schedule);
      }
    }
    if |tasks| >= 3 && |guards| >= 2 {
      var t0, t1, t2 := Three(tasks);
      var g0, g1 := Two(guards);
      var schedule, s := Robbed(Setting(tasks, guards, {}), t0, t1, t2, g0, g1);
      assert Flat(tasks, schedule) && Strands(tasks, guards, schedule, t2);
    }
  }
}
