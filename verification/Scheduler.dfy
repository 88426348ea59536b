/**
 The dependency loop of execute_tasks in idf.py: it reorders the list of requested tasks in place and
 creates the dependencies nobody asked for.
 */
module Scheduler {
  import opened Modular
  import opened Seqs
  import opened Wrappers

  type Name = string

  datatype Command = Command(deps: seq<Name>, orderDeps: seq<Name>)
  type Table = map<Name, Command>

  /** A task object; `id` is its identity, two tasks of one name differ in it. */
  datatype Task = Task(name: Name, id: nat)

  /** The list being worked on, the next fresh identity, and whether this round moved anything. */
  datatype Queue = Queue(tasks: seq<Task>, next: nat, moved: bool)

  function Names(ts: seq<Task>): set<Name> {
    set t | t in ts :: t.name
  }

  /** dict([(t.name, t) for t in tasks]): the last task of each name. */
  function ByName(ts: seq<Task>): (m: map<Name, Task>)
    ensures m.Keys == Names(ts)
    ensures forall n :: n in m ==> m[n] in ts && m[n].name == n
  {
    if ts == [] then map[]
    else
      var last := ts[|ts| - 1];
      assert Names(ts) == Names(ts[..|ts| - 1]) + {last.name} by {
        assert ts == ts[..|ts| - 1] + [last];
      }
      ByName(ts[..|ts| - 1])[last.name := last]
  }

  /** tasks.pop(tasks.index(t)) */
  function Without(ts: seq<Task>, t: Task): (r: seq<Task>)
    requires t in ts
    ensures |r| == |ts| - 1
    ensures forall x :: x in ts <==> x in r || x == t
  {
    if ts[0] == t then
      assert ts == [t] + ts[1..];
      ts[1..]
    else
      assert ts == [ts[0]] + ts[1..];
      [ts[0]] + Without(ts[1..], t)
  }

  function ToFront(ts: seq<Task>, t: Task): (r: seq<Task>)
    requires t in ts
    ensures |r| == |ts| && r[0] == t
    ensures forall x :: x in ts <==> x in r
  {
    [t] + Without(ts, t)
  }

  predicate Covers(q: Queue, dict: map<Name, Task>) {
    forall n :: n in dict ==> dict[n] in q.tasks && dict[n].name == n
  }

  /** One turn of the loop over the dependencies. */
  function AfterDep(d: Name, dict: map<Name, Task>, ran: set<Name>, q: Queue): Queue
    requires Covers(q, dict)
  {
    if d in ran then q
    else if d in dict then Queue(ToFront(q.tasks, dict[d]), q.next, true)
    else Queue([Task(d, q.next)] + q.tasks, q.next + 1, true)
  }

  function AfterDeps(deps: seq<Name>, dict: map<Name, Task>, ran: set<Name>, q: Queue): (r: Queue)
    requires Covers(q, dict)
    ensures Covers(r, dict)
  {
    if deps == [] then q
    else AfterDep(deps[|deps| - 1], dict, ran, AfterDeps(deps[..|deps| - 1], dict, ran, q))
  }

  /** One turn of the loop over the order-only dependencies. */
  function AfterOrderDep(d: Name, dict: map<Name, Task>, ran: set<Name>, q: Queue): Queue
    requires Covers(q, dict)
  {
    if d in dict && d !in ran then Queue(ToFront(q.tasks, dict[d]), q.next, true) else q
  }

  function AfterOrderDeps(deps: seq<Name>, dict: map<Name, Task>, ran: set<Name>, q: Queue): (r: Queue)
    requires Covers(q, dict)
    ensures Covers(r, dict)
  {
    if deps == [] then q
    else AfterOrderDep(deps[|deps| - 1], dict, ran, AfterOrderDeps(deps[..|deps| - 1], dict, ran, q))
  }

  /** The list after both loops have looked at its first task. */
  function Reordered(table: Table, ran: set<Name>, tasks: seq<Task>, next: nat): Queue
    requires tasks != [] && tasks[0].name in table
  {
    var c := table[tasks[0].name];
    var dict := ByName(tasks);
    AfterOrderDeps(c.orderDeps, dict, ran, AfterDeps(c.deps, dict, ran, Queue(tasks, next, false)))
  }

  // ---------- what a command table promises ----------

  ghost predicate ClosedTable(table: Table) {
    forall n, d :: n in table && d in table[n].deps ==> d in table
  }

  /** A topological rank: the union of both kinds of dependencies is acyclic. */
  ghost predicate Ranked(table: Table, rank: map<Name, nat>) {
    && rank.Keys == table.Keys
    && (forall n, d :: n in table && d in table[n].deps && d in table ==> rank[d] < rank[n])
    && (forall n, d :: n in table && d in table[n].orderDeps && d in table ==> rank[d] < rank[n])
  }

  ghost predicate ClosedUnder(table: Table, s: set<Name>) {
    forall n, d :: n in s && n in table && d in table[n].deps ==> d in s
  }

  ghost predicate IsLeastClosure(table: Table, requested: set<Name>, s: set<Name>) {
    && requested <= s && ClosedUnder(table, s)
    && forall c :: requested <= c && ClosedUnder(table, c) ==> s <= c
  }

  // ---------- one round ----------

  /** What the two loops do to the list: nothing, or they put a lower-ranked dependency in front, and either
      keep the tasks or add names not seen before. */
  ghost predicate RoundOk(table: Table, rank: map<Name, nat>, ran: set<Name>, tasks: seq<Task>, q: Queue)
    requires tasks != [] && tasks[0].name in table
  {
    && Names(tasks) <= Names(q.tasks) <= table.Keys
    && (!q.moved ==> q.tasks == tasks)
    && (q.moved ==>
          && q.tasks != [] && q.tasks[0].name in rank && tasks[0].name in rank
          && rank[q.tasks[0].name] < rank[tasks[0].name])
    && (Names(q.tasks) + ran == Names(tasks) + ran ==> |q.tasks| == |tasks|)
    && (forall c :: Names(tasks) <= c && ClosedUnder(table, c) ==> Names(q.tasks) <= c)
    && (forall t :: t in q.tasks ==> t in tasks || (t.name !in Names(tasks) && t.name !in ran))
  }

  lemma NamesToFront(ts: seq<Task>, t: Task)
    requires t in ts
    ensures Names(ToFront(ts, t)) == Names(ts)
  {
    var r := ToFront(ts, t);
    forall n | n in Names(ts) ensures n in Names(r) {
      var x :| x in ts && x.name == n;
      assert x in r;
    }
    forall n | n in Names(r) ensures n in Names(ts) {
      var x :| x in r && x.name == n;
      assert x in ts;
    }
  }

  lemma NamesCons(t: Task, ts: seq<Task>)
    ensures Names([t] + ts) == {t.name} + Names(ts)
  {
    forall n | n in {t.name} + Names(ts) ensures n in Names([t] + ts) {
      if n == t.name {
        assert ([t] + ts)[0] == t;
      } else {
        var x :| x in ts && x.name == n;
        assert x in [t] + ts;
      }
    }
  }

  /** Moving a waiting dependency to the front. */
  lemma MoveRound(table: Table, rank: map<Name, nat>, ran: set<Name>, tasks: seq<Task>, q: Queue, t: Task)
    requires tasks != [] && tasks[0].name in table && RoundOk(table, rank, ran, tasks, q) && t in q.tasks
    requires t.name in rank && tasks[0].name in rank && rank[t.name] < rank[tasks[0].name]
    ensures RoundOk(table, rank, ran, tasks, Queue(ToFront(q.tasks, t), q.next, true))
  {
    NamesToFront(q.tasks, t);
  }

  /** Creating a dependency nobody asked for. */
  lemma CreateRound(table: Table, rank: map<Name, nat>, ran: set<Name>, tasks: seq<Task>, q: Queue, d: Name)
    requires tasks != [] && tasks[0].name in table && RoundOk(table, rank, ran, tasks, q)
    requires d in table && d in table[tasks[0].name].deps && d !in ran && d !in Names(tasks)
    requires rank.Keys == table.Keys && rank[d] < rank[tasks[0].name]
    ensures RoundOk(table, rank, ran, tasks, Queue([Task(d, q.next)] + q.tasks, q.next + 1, true))
  {
    var r := [Task(d, q.next)] + q.tasks;
    NamesCons(Task(d, q.next), q.tasks);
    assert d in Names(r) + ran && d !in Names(tasks) + ran;
    forall c | Names(tasks) <= c && ClosedUnder(table, c) ensures Names(r) <= c {
      assert tasks[0].name in Names(tasks);
    }
  }

  lemma {:induction false} DepsRound(table: Table, rank: map<Name, nat>, ran: set<Name>, tasks: seq<Task>, next: nat,
                                     deps: seq<Name>)
    requires ClosedTable(table) && Ranked(table, rank) && tasks != [] && Names(tasks) <= table.Keys
            && tasks[0].name in table
    requires forall d :: d in deps ==> d in table[tasks[0].name].deps
    ensures var q := AfterDeps(deps, ByName(tasks), ran, Queue(tasks, next, false));
            RoundOk(table, rank, ran, tasks, q) && (!q.moved <==> forall d :: d in deps ==> d in ran)
    decreases |deps|
  {
    if deps != [] {
      var front, d := deps[..|deps| - 1], deps[|deps| - 1];
      assert deps == front + [d];
      DepsRound(table, rank, ran, tasks, next, front);
      var dict := ByName(tasks);
      var q := AfterDeps(front, dict, ran, Queue(tasks, next, false));
      assert d in table[tasks[0].name].deps && d in table;
      if d !in ran {
        if d in dict {
          MoveRound(table, rank, ran, tasks, q, dict[d]);
        } else {
          CreateRound(table, rank, ran, tasks, q, d);
        }
      }
    }
  }

  lemma {:induction false} OrderRound(table: Table, rank: map<Name, nat>, ran: set<Name>, tasks: seq<Task>,
                                      q0: Queue, deps: seq<Name>)
    requires Ranked(table, rank) && tasks != [] && Names(tasks) <= table.Keys && tasks[0].name in table
    requires forall d :: d in deps ==> d in table[tasks[0].name].orderDeps
    requires RoundOk(table, rank, ran, tasks, q0) && Covers(q0, ByName(tasks))
    ensures RoundOk(table, rank, ran, tasks, AfterOrderDeps(deps, ByName(tasks), ran, q0))
    decreases |deps|
  {
    if deps != [] {
      var front, d := deps[..|deps| - 1], deps[|deps| - 1];
      assert deps == front + [d];
      OrderRound(table, rank, ran, tasks, q0, front);
      var dict := ByName(tasks);
      var q := AfterOrderDeps(front, dict, ran, q0);
      if d in dict && d !in ran {
        OrderDepFacts(table, rank, tasks[0].name, d);
        MoveRound(table, rank, ran, tasks, q, dict[d]);
      }
    }
  }

  lemma {:induction false} OrderMoved(dict: map<Name, Task>, ran: set<Name>, q0: Queue, deps: seq<Name>)
    requires Covers(q0, dict)
    ensures !AfterOrderDeps(deps, dict, ran, q0).moved <==> !q0.moved && forall d :: d in deps && d in dict ==> d in ran
    decreases |deps|
  {
    if deps != [] {
      var front, d := deps[..|deps| - 1], deps[|deps| - 1];
      assert deps == front + [d];
      OrderMoved(dict, ran, q0, front);
    }
  }

  lemma OrderDepFacts(table: Table, rank: map<Name, nat>, n: Name, d: Name)
    requires Ranked(table, rank) && n in table && d in table && d in table[n].orderDeps
    ensures n in rank && d in rank && rank[d] < rank[n]
  {
  }

  /** Every dependency, and every order-only dependency that is listed, has run. */
  ghost predicate Served(c: Command, ran: set<Name>, listed: set<Name>) {
    && (forall d :: d in c.deps ==> d in ran)
    && (forall d :: d in c.orderDeps && d in listed ==> d in ran)
  }

  /** One round: the list stays within the closure, and if nothing moved, every dependency and every listed
      order-only dependency of the first task has run. */
  lemma Round(table: Table, rank: map<Name, nat>, ran: set<Name>, tasks: seq<Task>, next: nat)
    requires ClosedTable(table) && Ranked(table, rank) && tasks != [] && Names(tasks) <= table.Keys
            && tasks[0].name in table
    ensures var q, c := Reordered(table, ran, tasks, next), table[tasks[0].name];
            && RoundOk(table, rank, ran, tasks, q)
            && (!q.moved <==> Served(c, ran, Names(tasks)))
  {
    var c := table[tasks[0].name];
    DepsRound(table, rank, ran, tasks, next, c.deps);
    var q := AfterDeps(c.deps, ByName(tasks), ran, Queue(tasks, next, false));
    OrderRound(table, rank, ran, tasks, q, c.orderDeps);
    OrderMoved(ByName(tasks), ran, q, c.orderDeps);
  }

  /** The names that are still to be looked at. */
  function Pending(deps: seq<Name>, ran: set<Name>): (r: seq<Name>)
    ensures forall n :: n in r <==> n in deps && n !in ran
  {
    if deps == [] then []
    else
      assert deps == deps[..|deps| - 1] + [deps[|deps| - 1]];
      Pending(deps[..|deps| - 1], ran) + if deps[|deps| - 1] in ran then [] else [deps[|deps| - 1]]
  }

  /** The list starts with tasks of these names, the last name first. */
  predicate Leads(ts: seq<Task>, ns: seq<Name>) {
    |ns| <= |ts| && forall k :: 0 <= k < |ns| ==> ts[k].name == ns[|ns| - 1 - k]
  }

  lemma {:induction false} WithoutKeeps(ts: seq<Task>, t: Task, n: nat)
    requires t in ts && n <= |ts| && forall k :: 0 <= k < n ==> ts[k] != t
    ensures n < |ts| && Without(ts, t)[..n] == ts[..n]
    decreases n
  {
    if n > 0 {
      assert ts == [ts[0]] + ts[1..];
      WithoutKeeps(ts[1..], t, n - 1);
      assert Without(ts, t)[..n] == [ts[0]] + Without(ts[1..], t)[..n - 1];
    }
  }

  lemma PulledLeads(ts: seq<Task>, ns: seq<Name>, t: Task)
    requires Leads(ts, ns) && t in ts && t.name !in ns
    ensures Leads(ToFront(ts, t), ns + [t.name])
  {
    WithoutKeeps(ts, t, |ns|);
    var r := ToFront(ts, t);
    assert forall k :: 0 < k <= |ns| ==> r[k] == Without(ts, t)[..|ns|][k - 1];
  }

  /** The dependencies that have not run end up in front, pulled up or created, the last one foremost. */
  lemma {:induction false} PulledInReverse(deps: seq<Name>, dict: map<Name, Task>, ran: set<Name>, q: Queue)
    requires Covers(q, dict) && Distinct(deps)
    ensures Leads(AfterDeps(deps, dict, ran, q).tasks, Pending(deps, ran))
    decreases |deps|
  {
    if deps != [] {
      var front, d := deps[..|deps| - 1], deps[|deps| - 1];
      PulledInReverse(front, dict, ran, q);
      assert d !in front;
      if d !in ran && d in dict {
        PulledLeads(AfterDeps(front, dict, ran, q).tasks, Pending(front, ran), dict[d]);
      }
    }
  }

  /** So do the listed order-only dependencies that have not run; `skip` are the others. */
  lemma {:induction false} OrderPulledInReverse(deps: seq<Name>, dict: map<Name, Task>, ran: set<Name>, q: Queue,
                                                skip: set<Name>)
    requires Covers(q, dict) && Distinct(deps)
    requires forall d :: d in deps ==> (d in skip <==> d !in dict || d in ran)
    ensures Leads(AfterOrderDeps(deps, dict, ran, q).tasks, Pending(deps, skip))
    decreases |deps|
  {
    if deps != [] {
      var front, d := deps[..|deps| - 1], deps[|deps| - 1];
      OrderPulledInReverse(front, dict, ran, q, skip);
      assert d !in front;
      if d !in skip {
        PulledLeads(AfterOrderDeps(front, dict, ran, q).tasks, Pending(front, skip), dict[d]);
      }
    }
  }

  // ---------- the whole loop ----------

  /** Each name once, and every task behind all its dependencies. */
  ghost predicate RunOk(table: Table, run: seq<Task>) {
    && Names(run) <= table.Keys
    && (forall i, j :: 0 <= i < j < |run| ==> run[i].name != run[j].name)
    && (forall i, d :: 0 <= i < |run| && d in table[run[i].name].deps ==> d in Names(run[..i]))
  }

  /** Every task behind those of its order-only dependencies that were asked for. */
  ghost predicate OrderOk(table: Table, requested: set<Name>, run: seq<Task>)
    requires Names(run) <= table.Keys
  {
    forall i, d :: 0 <= i < |run| && run[i].name in table && d in table[run[i].name].orderDeps && d in requested ==>
                     d in Names(run[..i])
  }

  /** The list needs no reordering. */
  ghost predicate AlreadyOrdered(table: Table, ts: seq<Task>) {
    && (forall i, j :: 0 <= i < j < |ts| ==> ts[i].name != ts[j].name)
    && (forall i :: 0 <= i < |ts| && ts[i].name in table ==> Served(table[ts[i].name], Names(ts[..i]), Names(ts)))
  }

  function FreshId(ts: seq<Task>): (n: nat)
    ensures forall t :: t in ts ==> t.id < n
  {
    if ts == [] then 0
    else
      var n := FreshId(ts[1..]);
      assert forall t :: t in ts ==> t == ts[0] || t in ts[1..];
      if ts[0].id < n then n else ts[0].id + 1
  }

  /** The variables of the loop: what is to be run so far, the list, and the next fresh identity. */
  datatype Loop = Loop(run: seq<Task>, tasks: seq<Task>, next: nat)

  function Start(requested: seq<Task>): Loop {
    Loop([], requested, FreshId(requested))
  }

  /** One turn of the loop. */
  function Turn(table: Table, l: Loop): Loop {
    if l.tasks == [] || l.tasks[0].name !in table then l
    else
      var q := Reordered(table, Names(l.run), l.tasks, l.next);
      if q.moved then Loop(l.run, q.tasks, q.next)
      else Loop(if l.tasks[0].name in Names(l.run) then l.run else l.run + [l.tasks[0]], l.tasks[1..], q.next)
  }

  lemma TurnIs(table: Table, l: Loop)
    requires l.tasks != [] && l.tasks[0].name in table
    ensures var q := Reordered(table, Names(l.run), l.tasks, l.next);
            Turn(table, l) ==
              if q.moved then Loop(l.run, q.tasks, q.next)
              else Loop(if l.tasks[0].name in Names(l.run) then l.run else l.run + [l.tasks[0]], l.tasks[1..], q.next)
  {
    hide Reordered;
  }

  lemma TurnsIs(table: Table, l: Loop, k: nat)
    ensures Turns(table, l, 0) == l
    ensures k > 0 ==> Turns(table, l, k) == Turn(table, Turns(table, l, k - 1))
  {
    hide Turn;
  }

  function Turns(table: Table, l: Loop, k: nat): Loop {
    if k == 0 then l else Turn(table, Turns(table, l, k - 1))
  }

  lemma RunGrows(table: Table, requested: set<Name>, run: seq<Task>, t: Task, listed: set<Name>)
    requires RunOk(table, run) && OrderOk(table, requested, run) && t.name in table && t.name !in Names(run)
    requires Served(table[t.name], Names(run), listed) && requested <= listed + Names(run)
    ensures RunOk(table, run + [t]) && OrderOk(table, requested, run + [t])
    ensures Names(run + [t]) == Names(run) + {t.name}
  {
    var r := run + [t];
    assert r[..|run|] == run;
    forall i | 0 <= i < |run| ensures r[..i] == run[..i] {
    }
    forall n | n in Names(run) + {t.name} ensures n in Names(r) {
      if n == t.name {
        assert r[|run|] == t;
      } else {
        var x :| x in run && x.name == n;
        assert x in r;
      }
    }
    forall i, j | 0 <= i < j < |r| ensures r[i].name != r[j].name {
      if j == |run| {
        assert run[i] in run;
      }
    }
  }

  lemma CardDrops<T>(a: set<T>, b: set<T>)
    requires a < b
    ensures |a| < |b|
  {
    assert b == a + (b - a);
    assert b - a != {};
  }

  /** Inner loops: the first task's dependencies, then its order-only dependencies. */
  method Reorder(table: Table, ran: set<Name>, tasks: seq<Task>, next: nat) returns (q: Queue)
    requires tasks != [] && tasks[0].name in table
    ensures q == Reordered(table, ran, tasks, next)
  {
    var c := table[tasks[0].name];
    var dict := ByName(tasks);
    q := MoveDeps(c.deps, dict, ran, Queue(tasks, next, false));
    q := MoveOrderDeps(c.orderDeps, dict, ran, q);
  }

  method MoveDeps(deps: seq<Name>, dict: map<Name, Task>, ran: set<Name>, q0: Queue) returns (q: Queue)
    requires Covers(q0, dict)
    ensures q == AfterDeps(deps, dict, ran, q0)
  {
    q := q0;
    for i := 0 to |deps|
      invariant Covers(q, dict) && q == AfterDeps(deps[..i], dict, ran, q0)
    {
      var d := deps[i];
      assert deps[..i + 1][..i] == deps[..i];
      if d !in ran {
        if d in dict {
          q := Queue([dict[d]] + Without(q.tasks, dict[d]), q.next, true);
        } else {
          q := Queue([Task(d, q.next)] + q.tasks, q.next + 1, true);
        }
      }
    }
    assert deps[..|deps|] == deps;
  }

  method MoveOrderDeps(deps: seq<Name>, dict: map<Name, Task>, ran: set<Name>, q0: Queue) returns (q: Queue)
    requires Covers(q0, dict)
    ensures q == AfterOrderDeps(deps, dict, ran, q0)
  {
    q := q0;
    for i := 0 to |deps|
      invariant Covers(q, dict) && q == AfterOrderDeps(deps[..i], dict, ran, q0)
    {
      var d := deps[i];
      assert deps[..i + 1][..i] == deps[..i];
      if d in dict && d !in ran {
        q := Queue([dict[d]] + Without(q.tasks, dict[d]), q.next, true);
      }
    }
    assert deps[..|deps|] == deps;
  }

  /** Termination measure: names not seen yet, names not run yet, length of the list, rank of its first task. */
  function Measure(table: Table, rank: map<Name, nat>, run: seq<Task>, tasks: seq<Task>): (nat, nat, nat, nat) {
    (|table.Keys - (Names(tasks) + Names(run))|, |table.Keys - Names(run)|, |tasks|,
     if tasks != [] && tasks[0].name in rank then rank[tasks[0].name] else 0)
  }

  predicate Less(a: (nat, nat, nat, nat), b: (nat, nat, nat, nat)) {
    || a.0 < b.0
    || (a.0 == b.0 && a.1 < b.1)
    || (a.0 == b.0 && a.1 == b.1 && a.2 < b.2)
    || (a.0 == b.0 && a.1 == b.1 && a.2 == b.2 && a.3 < b.3)
  }

  ghost predicate LoopOk(table: Table, requested: seq<Task>, run: seq<Task>, tasks: seq<Task>) {
    && Names(tasks) <= table.Keys && Names(requested) <= Names(tasks) + Names(run)
    && RunOk(table, run) && OrderOk(table, Names(requested), run)
    && (forall c :: Names(requested) <= c && ClosedUnder(table, c) ==> Names(tasks) <= c && Names(run) <= c)
    && (forall t :: (t in tasks || t in run) && t.name in Names(requested) ==> t in requested)
  }

  /** A round that moved something: a name appears, or a lower-ranked task comes to the front. */
  lemma MovedRound(table: Table, rank: map<Name, nat>, requested: seq<Task>, run: seq<Task>, tasks: seq<Task>, q: Queue)
    requires LoopOk(table, requested, run, tasks) && tasks != [] && tasks[0].name in table
    requires RoundOk(table, rank, Names(run), tasks, q) && q.moved
    ensures LoopOk(table, requested, run, q.tasks)
    ensures Less(Measure(table, rank, run, q.tasks), Measure(table, rank, run, tasks))
  {
    var before, after := Names(tasks) + Names(run), Names(q.tasks) + Names(run);
    if before == after {
      assert table.Keys - before == table.Keys - after;
    } else {
      var n :| n in after && n !in before;
      CardDrops(table.Keys - after, table.Keys - before);
    }
  }

  /** A round that moved nothing: the first task joins the run, or goes because its name has run. */
  lemma PoppedRound(table: Table, rank: map<Name, nat>, requested: seq<Task>, run: seq<Task>, tasks: seq<Task>)
    requires LoopOk(table, requested, run, tasks) && tasks != [] && tasks[0].name in table
    requires Served(table[tasks[0].name], Names(run), Names(tasks))
    ensures var run' := if tasks[0].name in Names(run) then run else run + [tasks[0]];
            && LoopOk(table, requested, run', tasks[1..])
            && Less(Measure(table, rank, run', tasks[1..]), Measure(table, rank, run, tasks))
  {
    PopFirst(tasks);
    var n := tasks[0].name;
    if n in Names(run) {
      assert Names(tasks[1..]) + Names(run) == Names(tasks) + Names(run);
    } else {
      var run' := run + [tasks[0]];
      RunGrows(table, Names(requested), run, tasks[0], Names(tasks));
      assert Names(tasks[1..]) + Names(run') == Names(tasks) + Names(run);
      CardDrops(table.Keys - Names(run'), table.Keys - Names(run));
    }
  }

  /** An ordered list is consumed front to back. */
  lemma OrderedRound(table: Table, requested: seq<Task>, run: seq<Task>, tasks: seq<Task>)
    requires AlreadyOrdered(table, requested) && run + tasks == requested && tasks != [] && tasks[0].name in table
    ensures Served(table[tasks[0].name], Names(run), Names(tasks)) && tasks[0].name !in Names(run)
    ensures run + [tasks[0]] + tasks[1..] == requested
  {
    var i := |run|;
    assert requested[i] == tasks[0] && requested[..i] == run;
    forall n | n in Names(tasks) ensures n in Names(requested) {
      var x :| x in tasks && x.name == n;
      assert x in requested;
    }
    forall k | 0 <= k < |run| ensures run[k].name != tasks[0].name {
      assert requested[k] == run[k];
    }
  }

  lemma Started(table: Table, requested: seq<Task>)
    requires Names(requested) <= table.Keys
    ensures LoopOk(table, requested, [], requested) && [] + requested == requested
  {
  }

  lemma Finished(table: Table, requested: seq<Task>, run: seq<Task>)
    requires LoopOk(table, requested, run, [])
    ensures RunOk(table, run) && OrderOk(table, Names(requested), run)
    ensures IsLeastClosure(table, Names(requested), Names(run))
    ensures forall t :: t in run && t.name in Names(requested) ==> t in requested
  {
    assert Names([]) == {};
    forall n, d | n in Names(run) && n in table && d in table[n].deps ensures d in Names(run) {
      var x :| x in run && x.name == n;
      var i :| 0 <= i < |run| && run[i] == x;
      assert d in Names(run[..i]);
      var y :| y in run[..i] && y.name == d;
      assert y in run;
    }
  }

  // ---------- which of several tasks of one name is run ----------

  predicate Mentions(table: Table, x: Name, d: Name) {
    x in table && (d in table[x].deps || d in table[x].orderDeps)
  }

  ghost predicate IsPath(table: Table, p: seq<Name>) {
    p != [] && forall i :: 0 <= i < |p| - 1 ==> Mentions(table, p[i], p[i + 1])
  }

  /** x is n or leads to n through dependencies of either kind. */
  ghost predicate Reaches(table: Table, x: Name, n: Name) {
    exists p :: IsPath(table, p) && p[0] == x && p[|p| - 1] == n
  }

  /** No task before number i reaches its name; so it is the first of that name. */
  ghost predicate Unreached(table: Table, ts: seq<Task>, i: nat)
    requires i < |ts|
  {
    forall j :: 0 <= j < i ==> !Reaches(table, ts[j].name, ts[i].name)
  }

  lemma ReachesSelf(table: Table, n: Name)
    ensures Reaches(table, n, n)
  {
    assert IsPath(table, [n]);
  }

  lemma ReachesFurther(table: Table, x: Name, d: Name, n: Name)
    requires Mentions(table, x, d) && Reaches(table, d, n)
    ensures Reaches(table, x, n)
  {
    var p :| IsPath(table, p) && p[0] == d && p[|p| - 1] == n;
    var longer := [x] + p;
    forall i | 0 <= i < |longer| - 1 ensures Mentions(table, longer[i], longer[i + 1]) {
      if i > 0 {
        assert longer[i] == p[i - 1] && longer[i + 1] == p[i];
      }
    }
    assert IsPath(table, longer);
  }

  lemma {:induction false} PathRank(table: Table, rank: map<Name, nat>, p: seq<Name>)
    requires Ranked(table, rank) && IsPath(table, p) && p[|p| - 1] in table
    ensures p[0] in rank && p[|p| - 1] in rank
    ensures if |p| == 1 then true else rank[p[0]] > rank[p[|p| - 1]]
    decreases |p|
  {
    if |p| > 1 {
      var rest := p[1..];
      forall i | 0 <= i < |rest| - 1 ensures Mentions(table, rest[i], rest[i + 1]) {
        assert rest[i] == p[i + 1] && rest[i + 1] == p[i + 2];
      }
      PathRank(table, rank, rest);
      assert Mentions(table, p[0], p[1]);
    }
  }

  lemma NoWayBack(table: Table, rank: map<Name, nat>, n: Name, d: Name)
    requires Ranked(table, rank) && Mentions(table, n, d)
    ensures !Reaches(table, d, n)
  {
    if p :| IsPath(table, p) && p[0] == d && p[|p| - 1] == n {
      PathRank(table, rank, p);
    }
  }

  /** t is listed, and no task before it reaches its name. */
  ghost predicate FirstOf(table: Table, ts: seq<Task>, t: Task) {
    ts != [] && (ts[0] == t || (!Reaches(table, ts[0].name, t.name) && FirstOf(table, ts[1..], t)))
  }

  lemma {:induction false} FirstAt(table: Table, ts: seq<Task>, i: nat)
    requires i < |ts| && Unreached(table, ts, i)
    ensures FirstOf(table, ts, ts[i])
    decreases i
  {
    if i > 0 {
      assert forall j :: 0 <= j < i - 1 ==> ts[1..][j] == ts[j + 1];
      FirstAt(table, ts[1..], i - 1);
    }
  }

  lemma {:induction false} FirstWithout(table: Table, ts: seq<Task>, t: Task, u: Task)
    requires FirstOf(table, ts, t) && u in ts && u != t
    ensures FirstOf(table, Without(ts, u), t)
    decreases |ts|
  {
    if ts[0] != u {
      assert ts == [ts[0]] + ts[1..];
      var r := Without(ts[1..], u);
      assert Without(ts, u) == [ts[0]] + r && ([ts[0]] + r)[1..] == r;
      if ts[0] != t {
        FirstWithout(table, ts[1..], t, u);
      }
    }
  }

  lemma FirstBehind(table: Table, ts: seq<Task>, t: Task, u: Task)
    requires FirstOf(table, ts, t) && !Reaches(table, u.name, t.name)
    ensures FirstOf(table, [u] + ts, t)
    ensures u in ts ==> FirstOf(table, ToFront(ts, u), t)
  {
    ReachesSelf(table, t.name);
    assert ([u] + ts)[1..] == ts;
    if u in ts {
      FirstWithout(table, ts, t, u);
      assert ToFront(ts, u)[1..] == Without(ts, u);
    }
  }

  lemma {:induction false} DepsFirst(table: Table, deps: seq<Name>, dict: map<Name, Task>, ran: set<Name>, q: Queue,
                                     t: Task)
    requires Covers(q, dict) && FirstOf(table, q.tasks, t)
    requires forall d :: d in deps ==> !Reaches(table, d, t.name)
    ensures FirstOf(table, AfterDeps(deps, dict, ran, q).tasks, t)
    decreases |deps|
  {
    if deps != [] {
      var front, d := deps[..|deps| - 1], deps[|deps| - 1];
      DepsFirst(table, front, dict, ran, q, t);
      var r := AfterDeps(front, dict, ran, q);
      FirstBehind(table, r.tasks, t, if d in dict then dict[d] else Task(d, r.next));
    }
  }

  lemma {:induction false} OrderDepsFirst(table: Table, deps: seq<Name>, dict: map<Name, Task>, ran: set<Name>,
                                          q: Queue, t: Task)
    requires Covers(q, dict) && FirstOf(table, q.tasks, t)
    requires forall d :: d in deps ==> !Reaches(table, d, t.name)
    ensures FirstOf(table, AfterOrderDeps(deps, dict, ran, q).tasks, t)
    decreases |deps|
  {
    if deps != [] {
      var front, d := deps[..|deps| - 1], deps[|deps| - 1];
      OrderDepsFirst(table, front, dict, ran, q, t);
      if d in dict {
        FirstBehind(table, AfterOrderDeps(front, dict, ran, q).tasks, t, dict[d]);
      }
    }
  }

  /** A turn keeps t first of its name, until it is run. */
  lemma TurnFirst(table: Table, rank: map<Name, nat>, l: Loop, t: Task)
    requires Ranked(table, rank) && FirstOf(table, l.tasks, t) && t.name !in Names(l.run)
    ensures var l' := Turn(table, l); t in l'.run || (FirstOf(table, l'.tasks, t) && t.name !in Names(l'.run))
  {
    var x := l.tasks[0];
    if x.name in table {
      forall d | Mentions(table, x.name, d) ensures !Reaches(table, d, t.name) {
        if x == t {
          NoWayBack(table, rank, t.name, d);
        } else if Reaches(table, d, t.name) {
          ReachesFurther(table, x.name, d, t.name);
        }
      }
      var dict, q := ByName(l.tasks), Queue(l.tasks, l.next, false);
      DepsFirst(table, table[x.name].deps, dict, Names(l.run), q, t);
      var r := AfterDeps(table[x.name].deps, dict, Names(l.run), q);
      OrderDepsFirst(table, table[x.name].orderDeps, dict, Names(l.run), r, t);
      ReachesSelf(table, t.name);
      NamesSnoc(l.run, x);
    }
  }

  lemma NamesSnoc(ts: seq<Task>, t: Task)
    ensures Names(ts + [t]) == Names(ts) + {t.name}
  {
    forall n | n in Names(ts) + {t.name} ensures n in Names(ts + [t]) {
      if n == t.name {
        assert (ts + [t])[|ts|] == t;
      } else {
        var x :| x in ts && x.name == n;
        assert x in ts + [t];
      }
    }
  }

  lemma {:induction false} TurnsFirst(table: Table, rank: map<Name, nat>, l: Loop, t: Task, k: nat)
    requires Ranked(table, rank) && FirstOf(table, l.tasks, t) && t.name !in Names(l.run)
    ensures var l' := Turns(table, l, k); t in l'.run || (FirstOf(table, l'.tasks, t) && t.name !in Names(l'.run))
    decreases k
  {
    hide *;
    TurnsIs(table, l, k);
    if k > 0 {
      TurnsFirst(table, rank, l, t, k - 1);
      var before := Turns(table, l, k - 1);
      RunStays(table, before);
      if t !in before.run {
        TurnFirst(table, rank, before, t);
      }
    }
  }

  lemma RunStays(table: Table, l: Loop)
    ensures l.run <= Turn(table, l).run
  {
  }

  /** The warning of idf.py is right about a task that no task before it reaches: it is the one that is run. */
  lemma FirstRuns(table: Table, rank: map<Name, nat>, requested: seq<Task>, i: nat, k: nat)
    requires Ranked(table, rank) && i < |requested| && Unreached(table, requested, i)
    requires Turns(table, Start(requested), k).tasks == []
    ensures requested[i] in Turns(table, Start(requested), k).run
  {
    FirstAt(table, requested, i);
    TurnsFirst(table, rank, Start(requested), requested[i], k);
  }

  lemma FirstOnesRun(table: Table, rank: map<Name, nat>, requested: seq<Task>, k: nat)
    requires Ranked(table, rank) && Turns(table, Start(requested), k).tasks == []
    ensures forall i :: 0 <= i < |requested| && Unreached(table, requested, i) ==>
                          requested[i] in Turns(table, Start(requested), k).run
  {
    forall i | 0 <= i < |requested| && Unreached(table, requested, i)
      ensures requested[i] in Turns(table, Start(requested), k).run
    {
      FirstRuns(table, rank, requested, i, k);
    }
  }

  // ---------- exactly which one ----------

  /** The tasks of one name, in order. */
  function Occurrences(ts: seq<Task>, n: Name): seq<Task> {
    if ts == [] then []
    else (if ts[0].name == n then [ts[0]] else []) + Occurrences(ts[1..], n)
  }

  function Rotated<T>(s: seq<T>): (r: seq<T>)
    ensures |r| == |s|
  {
    if s == [] then [] else [s[|s| - 1]] + s[..|s| - 1]
  }

  function RotatedBy<T>(s: seq<T>, m: nat): (r: seq<T>)
    ensures |r| == |s|
  {
    if m == 0 then s else Rotated(RotatedBy(s, m - 1))
  }

  predicate Distinct<T(==)>(s: seq<T>) {
    forall i, j :: 0 <= i < j < |s| ==> s[i] != s[j]
  }

  lemma {:induction false} OccurrencesSnoc(ts: seq<Task>, t: Task, n: Name)
    ensures Occurrences(ts + [t], n) == Occurrences(ts, n) + (if t.name == n then [t] else [])
    decreases |ts|
  {
    if ts == [] {
      assert ([] + [t])[1..] == [];
      assert ts + [t] == [t];
    } else {
      assert (ts + [t])[1..] == ts[1..] + [t] && (ts + [t])[0] == ts[0];
      OccurrencesSnoc(ts[1..], t, n);
      AppendAssoc(if ts[0].name == n then [ts[0]] else [], Occurrences(ts[1..], n), if t.name == n then [t] else []);
    }
  }

  lemma {:induction false} OccurrencesIn(ts: seq<Task>, n: Name)
    ensures forall t :: t in Occurrences(ts, n) <==> t in ts && t.name == n
    decreases |ts|
  {
    if ts != [] {
      assert ts == [ts[0]] + ts[1..];
      OccurrencesIn(ts[1..], n);
    }
  }

  lemma {:induction false} OccurrencesDistinct(ts: seq<Task>, n: Name)
    requires Distinct(ts)
    ensures Distinct(Occurrences(ts, n))
    decreases |ts|
  {
    if ts != [] {
      OccurrencesDistinct(ts[1..], n);
      OccurrencesIn(ts[1..], n);
      assert ts[0] !in ts[1..];
      var o, rest := Occurrences(ts, n), Occurrences(ts[1..], n);
      forall i, j | 0 <= i < j < |o| ensures o[i] != o[j] {
        if ts[0].name == n {
          assert o[j] == rest[j - 1] && o[j] in rest;
        }
      }
    }
  }

  /** The dictionary holds the last. */
  lemma {:induction false} ByNameIsLast(ts: seq<Task>, n: Name)
    requires n in Names(ts)
    ensures var o := Occurrences(ts, n); o != [] && ByName(ts)[n] == o[|o| - 1]
    decreases |ts|
  {
    var front, t := ts[..|ts| - 1], ts[|ts| - 1];
    assert ts == front + [t];
    OccurrencesSnoc(front, t, n);
    if t.name != n {
      NamesSnoc(front, t);
      ByNameIsLast(front, n);
    }
  }

  lemma {:induction false} WithoutOther(ts: seq<Task>, t: Task, n: Name)
    requires t in ts && t.name != n
    ensures Occurrences(Without(ts, t), n) == Occurrences(ts, n)
    decreases |ts|
  {
    if ts[0] != t {
      assert ts == [ts[0]] + ts[1..];
      var r := Without(ts[1..], t);
      assert ([ts[0]] + r)[1..] == r;
      WithoutOther(ts[1..], t, n);
    }
  }

  lemma {:induction false} WithoutFirst(ts: seq<Task>, n: Name)
    requires Occurrences(ts, n) != []
    ensures Occurrences(ts, n)[0] in ts
    ensures Occurrences(Without(ts, Occurrences(ts, n)[0]), n) == Occurrences(ts, n)[1..]
    decreases |ts|
  {
    OccurrencesIn(ts, n);
    var t := Occurrences(ts, n)[0];
    assert t in Occurrences(ts, n);
    if ts[0] != t {
      assert ts == [ts[0]] + ts[1..];
      assert ts[0].name != n;
      var r := Without(ts[1..], t);
      assert ([ts[0]] + r)[1..] == r;
      WithoutFirst(ts[1..], n);
    }
  }

  lemma {:induction false} LastIn(ts: seq<Task>, n: Name)
    requires Occurrences(ts, n) != []
    ensures var o := Occurrences(ts, n); o[|o| - 1] in ts && o[|o| - 1].name == n
    decreases |ts|
  {
    if Occurrences(ts[1..], n) != [] {
      LastIn(ts[1..], n);
    }
  }

  lemma DistinctTail(t: Task, rest: seq<Task>)
    requires Distinct([t] + rest)
    ensures Distinct(rest) && (rest != [] ==> rest[|rest| - 1] != t)
  {
    var o := [t] + rest;
    assert forall i :: 0 <= i < |rest| ==> rest[i] == o[i + 1];
    assert o[0] == t;
  }

  lemma {:induction false} WithoutLast(ts: seq<Task>, n: Name)
    requires Occurrences(ts, n) != [] && Distinct(Occurrences(ts, n))
    ensures var o := Occurrences(ts, n);
            o[|o| - 1] in ts && Occurrences(Without(ts, o[|o| - 1]), n) == o[..|o| - 1]
    decreases |ts|
  {
    LastIn(ts, n);
    var o, rest := Occurrences(ts, n), Occurrences(ts[1..], n);
    var t := o[|o| - 1];
    if ts[0].name == n {
      DistinctTail(ts[0], rest);
    } else {
      assert o == rest;
    }
    if rest == [] {
      assert ts[0] == t;
    } else {
      assert t == rest[|rest| - 1];
      WithoutLast(ts[1..], n);
      var r := Without(ts[1..], t);
      assert ts[0] != t;
      assert Without(ts, t) == [ts[0]] + r && ([ts[0]] + r)[1..] == r;
    }
  }

  /** Moving the last task of a name to the front rotates the tasks of that name; moving it again changes nothing. */
  lemma FrontLast(ts: seq<Task>, n: Name, o: seq<Task>)
    requires o != [] && Distinct(o) && (Occurrences(ts, n) == o || Occurrences(ts, n) == Rotated(o))
    ensures var t := o[|o| - 1]; t in ts && t.name == n && Occurrences(ToFront(ts, t), n) == Rotated(o)
  {
    var t := o[|o| - 1];
    OccurrencesIn(ts, n);
    assert t in Occurrences(ts, n) by {
      assert Rotated(o)[0] == t;
    }
    if Occurrences(ts, n) == o {
      WithoutLast(ts, n);
    } else {
      WithoutFirst(ts, n);
    }
    assert ToFront(ts, t)[1..] == Without(ts, t);
  }

  lemma FrontOther(ts: seq<Task>, u: Task, n: Name)
    requires u.name != n
    ensures Occurrences([u] + ts, n) == Occurrences(ts, n)
    ensures u in ts ==> Occurrences(ToFront(ts, u), n) == Occurrences(ts, n)
  {
    assert ([u] + ts)[1..] == ts;
    if u in ts {
      WithoutOther(ts, u, n);
      assert ToFront(ts, u)[1..] == Without(ts, u);
    }
  }

  ghost predicate Turning(dict: map<Name, Task>, ran: set<Name>, q: Queue, n: Name, o: seq<Task>) {
    && Covers(q, dict) && n in dict && n !in ran && o != [] && Distinct(o) && dict[n] == o[|o| - 1]
    && (Occurrences(q.tasks, n) == o || Occurrences(q.tasks, n) == Rotated(o))
  }

  lemma MoveTurn(d: Name, dict: map<Name, Task>, ran: set<Name>, q: Queue, n: Name, o: seq<Task>)
    requires Turning(dict, ran, q, n, o) && d in dict
    ensures var r := Queue(ToFront(q.tasks, dict[d]), q.next, true);
            && Turning(dict, ran, r, n, o)
            && Occurrences(r.tasks, n) == if d == n then Rotated(o) else Occurrences(q.tasks, n)
  {
    if d == n {
      FrontLast(q.tasks, n, o);
    } else {
      FrontOther(q.tasks, dict[d], n);
    }
  }

  ghost predicate Turned(dict: map<Name, Task>, ran: set<Name>, q: Queue, r: Queue, n: Name, o: seq<Task>,
                         pulled: bool) {
    && Turning(dict, ran, r, n, o) && (pulled || q.moved ==> r.moved)
    && Occurrences(r.tasks, n) == if pulled then Rotated(o) else Occurrences(q.tasks, n)
  }

  lemma DepTurn(d: Name, dict: map<Name, Task>, ran: set<Name>, q: Queue, n: Name, o: seq<Task>)
    requires Turning(dict, ran, q, n, o)
    ensures Turned(dict, ran, q, AfterDep(d, dict, ran, q), n, o, d == n)
  {
    if d in dict {
      MoveTurn(d, dict, ran, q, n, o);
    } else {
      FrontOther(q.tasks, Task(d, q.next), n);
    }
  }

  lemma OrderDepTurn(d: Name, dict: map<Name, Task>, ran: set<Name>, q: Queue, n: Name, o: seq<Task>)
    requires Turning(dict, ran, q, n, o)
    ensures Turned(dict, ran, q, AfterOrderDep(d, dict, ran, q), n, o, d == n)
  {
    if d in dict {
      MoveTurn(d, dict, ran, q, n, o);
    }
  }

  lemma BothTurn(dict: map<Name, Task>, ran: set<Name>, q: Queue, r: Queue, r': Queue, n: Name, o: seq<Task>,
                 a: bool, b: bool)
    requires Turned(dict, ran, q, r, n, o, a) && Turned(dict, ran, r, r', n, o, b)
    ensures Turned(dict, ran, q, r', n, o, a || b)
  {
  }

  lemma {:induction false} DepsTurn(deps: seq<Name>, dict: map<Name, Task>, ran: set<Name>, q: Queue, n: Name,
                                    o: seq<Task>)
    requires Turning(dict, ran, q, n, o)
    ensures Turned(dict, ran, q, AfterDeps(deps, dict, ran, q), n, o, n in deps)
    decreases |deps|
  {
    if deps != [] {
      var front, d := deps[..|deps| - 1], deps[|deps| - 1];
      DepsTurn(front, dict, ran, q, n, o);
      var r := AfterDeps(front, dict, ran, q);
      DepTurn(d, dict, ran, r, n, o);
      BothTurn(dict, ran, q, r, AfterDep(d, dict, ran, r), n, o, n in front, d == n);
      InSnoc(deps, n);
    }
  }

  lemma {:induction false} OrderDepsTurn(deps: seq<Name>, dict: map<Name, Task>, ran: set<Name>, q: Queue, n: Name,
                                         o: seq<Task>)
    requires Turning(dict, ran, q, n, o)
    ensures Turned(dict, ran, q, AfterOrderDeps(deps, dict, ran, q), n, o, n in deps)
    decreases |deps|
  {
    if deps != [] {
      var front, d := deps[..|deps| - 1], deps[|deps| - 1];
      OrderDepsTurn(front, dict, ran, q, n, o);
      var r := AfterOrderDeps(front, dict, ran, q);
      OrderDepTurn(d, dict, ran, r, n, o);
      BothTurn(dict, ran, q, r, AfterOrderDep(d, dict, ran, r), n, o, n in front, d == n);
      InSnoc(deps, n);
    }
  }

  lemma InSnoc(deps: seq<Name>, n: Name)
    requires deps != []
    ensures n in deps <==> n in deps[..|deps| - 1] || n == deps[|deps| - 1]
  {
    assert deps == deps[..|deps| - 1] + [deps[|deps| - 1]];
  }

  /** The list of the round: rotated if the first task mentions n. */
  lemma ReorderedTurn(table: Table, ran: set<Name>, tasks: seq<Task>, next: nat, n: Name)
    requires tasks != [] && tasks[0].name in table && n in Names(tasks) && n !in ran
    requires Distinct(Occurrences(tasks, n))
    ensures var o, q := Occurrences(tasks, n), Reordered(table, ran, tasks, next);
            && Occurrences(q.tasks, n) == (if Mentions(table, tasks[0].name, n) then Rotated(o) else o)
            && (Mentions(table, tasks[0].name, n) ==> q.moved)
  {
    var c, dict, q := table[tasks[0].name], ByName(tasks), Queue(tasks, next, false);
    var o := Occurrences(tasks, n);
    ByNameIsLast(tasks, n);
    DepsTurn(c.deps, dict, ran, q, n, o);
    OrderDepsTurn(c.orderDeps, dict, ran, AfterDeps(c.deps, dict, ran, q), n, o);
  }

  /** The turn pulls n forward: it has not run, and the first task mentions it. */
  predicate Pulls(table: Table, l: Loop, n: Name) {
    l.tasks != [] && n !in Names(l.run) && Mentions(table, l.tasks[0].name, n)
  }

  /** The first of `o` is run, or the tasks of the name are `o` and none has run. */
  ghost predicate Holds(l: Loop, n: Name, o: seq<Task>) {
    && o != [] && Distinct(o) && (forall t :: t in o ==> t.name == n)
    && (o[0] in l.run || (n !in Names(l.run) && Occurrences(l.tasks, n) == o))
  }

  /** One turn rotates the tasks of a name if it pulls that name forward, else runs the first one or leaves them. */
  lemma TurnRotates(table: Table, l: Loop, n: Name, o: seq<Task>)
    requires Holds(l, n, o) && !Mentions(table, n, n)
    ensures Holds(Turn(table, l), n, if Pulls(table, l, n) then Rotated(o) else o)
  {
    RunStays(table, l);
    if o[0] in l.run {
      assert o[0].name == n;
    } else {
      OccurrencesIn(l.tasks, n);
      assert o[0] in l.tasks && o[0].name == n;
      if l.tasks[0].name in table {
        ReorderedTurn(table, Names(l.run), l.tasks, l.next, n);
        var q := Reordered(table, Names(l.run), l.tasks, l.next);
        if Pulls(table, l, n) {
          RotatedDistinct(o);
          MovedTurn(l, n, o, Rotated(o), q);
        } else if q.moved {
          MovedTurn(l, n, o, o, q);
        } else {
          PoppedTurn(l, n, o, q.next);
        }
      }
    }
  }

  lemma MovedTurn(l: Loop, n: Name, o: seq<Task>, o': seq<Task>, q: Queue)
    requires Holds(l, n, o) && o[0] !in l.run && Occurrences(q.tasks, n) == o'
    requires o' != [] && Distinct(o') && forall t :: t in o' <==> t in o
    ensures Holds(Loop(l.run, q.tasks, q.next), n, o')
  {
  }

  lemma PoppedTurn(l: Loop, n: Name, o: seq<Task>, next: nat)
    requires Holds(l, n, o) && o[0] !in l.run && l.tasks != []
    ensures Holds(Loop(if l.tasks[0].name in Names(l.run) then l.run else l.run + [l.tasks[0]], l.tasks[1..], next),
            n, o)
  {
    NamesSnoc(l.run, l.tasks[0]);
    if l.tasks[0].name == n {
      assert o[0] == l.tasks[0];
    }
  }

  lemma RotatedDistinct<T>(s: seq<T>)
    requires Distinct(s)
    ensures Distinct(Rotated(s)) && forall x :: x in Rotated(s) <==> x in s
  {
    if s != [] {
      assert s == s[..|s| - 1] + [s[|s| - 1]];
    }
  }

  /** How many of the first k turns pull n forward. */
  function Pulled(table: Table, l: Loop, n: Name, k: nat): nat {
    if k == 0 then 0
    else Pulled(table, l, n, k - 1) + (if Pulls(table, Turns(table, l, k - 1), n) then 1 else 0)
  }

  lemma PulledIs(table: Table, l: Loop, n: Name, k: nat)
    ensures Pulled(table, l, n, 0) == 0
    ensures k > 0 ==>
              Pulled(table, l, n, k)
              == Pulled(table, l, n, k - 1) + (if Pulls(table, Turns(table, l, k - 1), n) then 1 else 0)
  {
    hide Turns, Pulls;
  }

  /** After any number of turns the tasks of a name are rotated as often as it was pulled forward, or the first
      of them in that order is run. */
  lemma {:induction false} TurnsRotate(table: Table, l: Loop, n: Name, o: seq<Task>, k: nat)
    requires Holds(l, n, o) && !Mentions(table, n, n)
    ensures Holds(Turns(table, l, k), n, RotatedBy(o, Pulled(table, l, n, k)))
    decreases k
  {
    hide *;
    TurnsIs(table, l, k);
    PulledIs(table, l, n, k);
    if k > 0 {
      TurnsRotate(table, l, n, o, k - 1);
      TurnRotates(table, Turns(table, l, k - 1), n, RotatedBy(o, Pulled(table, l, n, k - 1)));
    }
    RotatedByIs(o, Pulled(table, l, n, k));
  }

  lemma RotatedByIs<T>(s: seq<T>, m: nat)
    ensures RotatedBy(s, 0) == s && RotatedBy(s, m + 1) == Rotated(RotatedBy(s, m))
    ensures m > 0 ==> RotatedBy(s, m) == Rotated(RotatedBy(s, m - 1))
  {
    hide Rotated;
  }

  /** Where the first element of m rotations came from. */
  function Head(m: nat, count: nat): (h: nat)
    requires count > 0
    ensures h < count
  {
    if m == 0 then 0 else if Head(m - 1, count) == 0 then count - 1 else Head(m - 1, count) - 1
  }

  lemma {:induction false} HeadIs(m: nat, count: nat)
    requires count > 0
    ensures Head(m, count) == if m % count == 0 then 0 else count - m % count
    decreases m
  {
    if m == 0 {
      ModSmall(0, count);
    } else {
      HeadIs(m - 1, count);
      ModSucc(m - 1, count);
    }
  }

  lemma {:induction false} RotatedIs<T>(s: seq<T>, m: nat)
    requires s != []
    ensures var h := Head(m, |s|); RotatedBy(s, m) == s[h..] + s[..h]
    decreases m
  {
    if m == 0 {
      assert s[0..] + s[..0] == s;
    } else {
      var h, r := Head(m - 1, |s|), RotatedBy(s, m - 1);
      RotatedIs(s, m - 1);
      assert r == s[h..] + s[..h];
      RotateOnce(s, h);
      assert RotatedBy(s, m) == Rotated(r);
    }
  }

  lemma RotateOnce<T>(s: seq<T>, h: nat)
    requires h < |s|
    ensures var h' := if h == 0 then |s| - 1 else h - 1; Rotated(s[h..] + s[..h]) == s[h'..] + s[..h']
  {
    var r := s[h..] + s[..h];
    if h > 0 {
      assert r[|r| - 1] == s[h - 1] && r[..|r| - 1] == s[h..] + s[..h - 1];
      assert s[h - 1..] == [s[h - 1]] + s[h..];
      assert Rotated(r) == [s[h - 1]] + (s[h..] + s[..h - 1]);
    } else {
      assert r == s;
    }
  }

  predicate OncePerName(run: seq<Task>) {
    forall i, j :: 0 <= i < j < |run| ==> run[i].name != run[j].name
  }

  lemma {:induction false} RunDistinct(table: Table, l: Loop, k: nat)
    requires OncePerName(l.run)
    ensures OncePerName(Turns(table, l, k).run)
    decreases k
  {
    if k > 0 {
      RunDistinct(table, l, k - 1);
      OneMore(table, Turns(table, l, k - 1));
    }
  }

  lemma OneMore(table: Table, l: Loop)
    requires OncePerName(l.run)
    ensures OncePerName(Turn(table, l).run)
  {
    forall i | 0 <= i < |l.run| ensures l.run[i].name in Names(l.run) {
      assert l.run[i] in l.run;
    }
  }

  /** Exactly which task is run for a requested name: counting back from the first one, cyclically, as many
      places as there were turns that pulled the name forward. So the first one is run exactly when the number of
      those turns is a multiple of the number of tasks of that name. */
  lemma WhichRuns(table: Table, rank: map<Name, nat>, requested: seq<Task>, n: Name, k: nat)
    requires Ranked(table, rank) && Distinct(requested) && n in Names(requested)
    requires Turns(table, Start(requested), k).tasks == []
    ensures var o, m := Occurrences(requested, n), Pulled(table, Start(requested), n, k);
            var run := Turns(table, Start(requested), k).run;
            && |o| > 0 && o[Head(m, |o|)] in run
            && (o[0] in run <==> m % |o| == 0)
  {
    hide *;
    var o, m := Occurrences(requested, n), Pulled(table, Start(requested), n, k);
    var end := Turns(table, Start(requested), k);
    OccurrencesDistinct(requested, n);
    HoldsAtStart(requested, n);
    NotItself(table, rank, n);
    TurnsRotate(table, Start(requested), n, o, k);
    HoldsAtEnd(end, n, RotatedBy(o, m));
    RotatedIs(o, m);
    HeadIs(m, |o|);
    RunDistinct(table, Start(requested), k);
    FirstInRun(end.run, o, Head(m, |o|));
  }

  lemma HoldsAtStart(requested: seq<Task>, n: Name)
    requires n in Names(requested) && Distinct(Occurrences(requested, n))
    ensures Holds(Start(requested), n, Occurrences(requested, n)) && OncePerName(Start(requested).run)
    ensures var o := Occurrences(requested, n); o != [] && forall t :: t in o ==> t.name == o[0].name
  {
    ByNameIsLast(requested, n);
    OccurrencesIn(requested, n);
    var o := Occurrences(requested, n);
    assert o[0] in o && forall t :: t in o ==> t.name == n;
  }

  lemma HoldsAtEnd(l: Loop, n: Name, o: seq<Task>)
    requires Holds(l, n, o) && l.tasks == []
    ensures o != [] && o[0] in l.run
  {
  }

  lemma NotItself(table: Table, rank: map<Name, nat>, n: Name)
    requires Ranked(table, rank)
    ensures !Mentions(table, n, n)
  {
  }

  /** Of distinct tasks of one name only one is run. */
  lemma FirstInRun(run: seq<Task>, o: seq<Task>, h: nat)
    requires h < |o| && Distinct(o) && o[h] in run && (forall t :: t in o ==> t.name == o[0].name)
    requires OncePerName(run)
    ensures o[0] in run <==> h == 0
  {
  }

  // ---------- the number of pulls, read off the table and the list ----------

  ghost predicate NoOrderDeps(table: Table) {
    forall x :: x in table ==> table[x].orderDeps == []
  }

  ghost predicate SomeReaches(table: Table, deps: seq<Name>, n: Name) {
    exists d :: d in deps && Reaches(table, d, n)
  }

  ghost function LastReaching(table: Table, deps: seq<Name>, n: Name): (d: Name)
    requires SomeReaches(table, deps, n)
    ensures d in deps && Reaches(table, d, n)
  {
    var d := deps[|deps| - 1];
    if Reaches(table, d, n) then d
    else
      assert deps == deps[..|deps| - 1] + [d];
      LastReaching(table, deps[..|deps| - 1], n)
  }

  /** A command that needs n pulls it forward once if it mentions it; the rest is up to the last of its
      dependencies that needs n. */
  ghost function PullsFrom(table: Table, rank: map<Name, nat>, x: Name, n: Name): nat
    requires ClosedTable(table) && Ranked(table, rank) && x in table
    decreases rank[x]
  {
    var deps := table[x].deps;
    if x == n || !SomeReaches(table, deps, n) then 0
    else (if n in deps then 1 else 0) + PullsFrom(table, rank, LastReaching(table, deps, n), n)
  }

  /** The name of the first task listed that needs n. */
  ghost function Leader(table: Table, ts: seq<Task>, n: Name): Option<Name> {
    if ts == [] then None
    else if Reaches(table, ts[0].name, n) then Some(ts[0].name)
    else Leader(table, ts[1..], n)
  }

  lemma {:induction false} LeaderExists(table: Table, ts: seq<Task>, n: Name)
    requires n in Names(ts)
    ensures Leader(table, ts, n).Some? && Leader(table, ts, n).value in Names(ts)
    ensures Reaches(table, Leader(table, ts, n).value, n)
    decreases |ts|
  {
    ReachesSelf(table, n);
    PopFirst(ts);
    if !Reaches(table, ts[0].name, n) {
      LeaderExists(table, ts[1..], n);
    }
  }

  lemma {:induction false} LeaderWithout(table: Table, ts: seq<Task>, u: Task, n: Name)
    requires u in ts && !Reaches(table, u.name, n)
    ensures Leader(table, Without(ts, u), n) == Leader(table, ts, n)
    decreases |ts|
  {
    if ts[0] != u {
      assert ts == [ts[0]] + ts[1..];
      var r := Without(ts[1..], u);
      assert Without(ts, u) == [ts[0]] + r && ([ts[0]] + r)[1..] == r;
      LeaderWithout(table, ts[1..], u, n);
    }
  }

  lemma LeaderFront(table: Table, ts: seq<Task>, u: Task, n: Name)
    ensures Leader(table, [u] + ts, n) == if Reaches(table, u.name, n) then Some(u.name) else Leader(table, ts, n)
    ensures u in ts ==>
              Leader(table, ToFront(ts, u), n)
              == if Reaches(table, u.name, n) then Some(u.name) else Leader(table, ts, n)
  {
    assert ([u] + ts)[1..] == ts;
    if u in ts {
      assert ToFront(ts, u)[1..] == Without(ts, u);
      if !Reaches(table, u.name, n) {
        LeaderWithout(table, ts, u, n);
      }
    }
  }

  lemma {:induction false} DepsLead(table: Table, deps: seq<Name>, dict: map<Name, Task>, ran: set<Name>, q: Queue,
                                    n: Name)
    requires Covers(q, dict) && forall d :: d in deps && Reaches(table, d, n) ==> d !in ran
    ensures Leader(table, AfterDeps(deps, dict, ran, q).tasks, n)
         == if SomeReaches(table, deps, n) then Some(LastReaching(table, deps, n)) else Leader(table, q.tasks, n)
    decreases |deps|
  {
    if deps != [] {
      hide Reaches;
      var front, d := deps[..|deps| - 1], deps[|deps| - 1];
      assert deps == front + [d];
      DepsLead(table, front, dict, ran, q, n);
      var r := AfterDeps(front, dict, ran, q);
      LeaderFront(table, r.tasks, if d in dict then dict[d] else Task(d, r.next), n);
      SomeReachesSnoc(table, deps, n);
    }
  }

  lemma SomeReachesSnoc(table: Table, deps: seq<Name>, n: Name)
    requires deps != []
    ensures SomeReaches(table, deps, n)
            <==> Reaches(table, deps[|deps| - 1], n) || SomeReaches(table, deps[..|deps| - 1], n)
  {
    hide Reaches;
    assert deps == deps[..|deps| - 1] + [deps[|deps| - 1]];
  }

  /** A command that needs n and is not n needs it through a dependency. */
  lemma ReachesByDep(table: Table, x: Name, n: Name)
    requires NoOrderDeps(table) && Reaches(table, x, n) && x != n
    ensures x in table && SomeReaches(table, table[x].deps, n)
  {
    var p :| IsPath(table, p) && p[0] == x && p[|p| - 1] == n;
    var rest := p[1..];
    assert Mentions(table, p[0], p[0 + 1]);
    forall i | 0 <= i < |rest| - 1 ensures Mentions(table, rest[i], rest[i + 1]) {
      assert rest[i] == p[i + 1] && rest[i + 1] == p[i + 1 + 1];
    }
    assert IsPath(table, rest) && rest[0] == p[1] && rest[|rest| - 1] == n;
    assert Reaches(table, p[1], n);
  }

  /** Nothing that needs n has run before n. */
  lemma {:induction false} RanReaches(table: Table, ran: set<Name>, p: seq<Name>)
    requires NoOrderDeps(table) && ClosedUnder(table, ran) && IsPath(table, p) && p[0] in ran
    ensures p[|p| - 1] in ran
    decreases |p|
  {
    if |p| > 1 {
      var rest := p[1..];
      assert Mentions(table, p[0], p[0 + 1]);
      forall i | 0 <= i < |rest| - 1 ensures Mentions(table, rest[i], rest[i + 1]) {
        assert rest[i] == p[i + 1] && rest[i + 1] == p[i + 1 + 1];
      }
      RanReaches(table, ran, rest);
    }
  }

  lemma NotRan(table: Table, ran: set<Name>, n: Name)
    requires NoOrderDeps(table) && ClosedUnder(table, ran) && n !in ran
    ensures forall d :: Reaches(table, d, n) ==> d !in ran
  {
    forall d | Reaches(table, d, n) ensures d !in ran {
      var p :| IsPath(table, p) && p[0] == d && p[|p| - 1] == n;
      if d in ran {
        RanReaches(table, ran, p);
      }
    }
  }

  ghost predicate Underway(table: Table, l: Loop) {
    ClosedUnder(table, Names(l.run)) && Names(l.tasks) <= table.Keys
  }

  /** The reordered list when there are no order-only dependencies. */
  lemma ReorderedLeads(table: Table, rank: map<Name, nat>, l: Loop, n: Name)
    requires ClosedTable(table) && Ranked(table, rank) && NoOrderDeps(table) && Underway(table, l)
    requires l.tasks != [] && l.tasks[0].name in table && n !in Names(l.run)
    ensures var deps, q := table[l.tasks[0].name].deps, Reordered(table, Names(l.run), l.tasks, l.next);
            && Names(q.tasks) <= table.Keys && (!q.moved ==> q.tasks == l.tasks)
            && (!q.moved <==> forall d :: d in deps ==> d in Names(l.run))
            && Leader(table, q.tasks, n)
               == if SomeReaches(table, deps, n) then Some(LastReaching(table, deps, n)) else Leader(table, l.tasks, n)
  {
    var c, ran := table[l.tasks[0].name], Names(l.run);
    Round(table, rank, ran, l.tasks, l.next);
    NotRan(table, ran, n);
    var dict, q := ByName(l.tasks), Queue(l.tasks, l.next, false);
    DepsLead(table, c.deps, dict, ran, q, n);
    var r := AfterDeps(c.deps, dict, ran, q);
    assert c.orderDeps == [] && AfterOrderDeps([], dict, ran, r) == r;
  }

  /** A turn keeps the list underway. */
  lemma StaysUnderway(table: Table, rank: map<Name, nat>, l: Loop, n: Name)
    requires ClosedTable(table) && Ranked(table, rank) && NoOrderDeps(table) && Underway(table, l)
    requires n !in Names(l.run)
    ensures Underway(table, Turn(table, l))
  {
    if l.tasks != [] && l.tasks[0].name in table {
      hide Turn, Reordered;
      TurnIs(table, l);
      ReorderedLeads(table, rank, l, n);
      NamesSnoc(l.run, l.tasks[0]);
      PopFirst(l.tasks);
    }
  }

  /** What a turn does to the first task that needs n: nothing if another task is at the front; ... */
  lemma LeaderStays(table: Table, rank: map<Name, nat>, l: Loop, n: Name)
    requires ClosedTable(table) && Ranked(table, rank) && NoOrderDeps(table) && Underway(table, l)
    requires n !in Names(l.run) && l.tasks != [] && l.tasks[0].name in table && !Reaches(table, l.tasks[0].name, n)
    ensures var l' := Turn(table, l);
            n !in Names(l'.run) && Leader(table, l'.tasks, n) == Leader(table, l.tasks, n) && !Pulls(table, l, n)
  {
    hide Turn, Reordered;
    var x := l.tasks[0];
    TurnIs(table, l);
    ReorderedLeads(table, rank, l, n);
    NamesSnoc(l.run, x);
    ReachesSelf(table, n);
    NothingFrom(table, x.name, n);
  }

  /** ... its last dependency that needs n takes its place if it is at the front; ... */
  lemma LeaderGivesWay(table: Table, rank: map<Name, nat>, l: Loop, n: Name)
    requires ClosedTable(table) && Ranked(table, rank) && NoOrderDeps(table) && Underway(table, l)
    requires n !in Names(l.run) && l.tasks != [] && l.tasks[0].name in table
    requires Reaches(table, l.tasks[0].name, n) && l.tasks[0].name != n
    ensures var deps, l' := table[l.tasks[0].name].deps, Turn(table, l);
            && l'.run == l.run && SomeReaches(table, deps, n)
            && Leader(table, l'.tasks, n) == Some(LastReaching(table, deps, n))
            && (Pulls(table, l, n) <==> n in deps)
  {
    hide Turn, Reordered;
    TurnIs(table, l);
    ReorderedLeads(table, rank, l, n);
    ReachesByDep(table, l.tasks[0].name, n);
    NotRan(table, Names(l.run), n);
  }

  /** ... and n itself is run from the front, or stays first. */
  lemma LeaderRuns(table: Table, rank: map<Name, nat>, l: Loop, n: Name)
    requires ClosedTable(table) && Ranked(table, rank) && NoOrderDeps(table) && Underway(table, l)
    requires n !in Names(l.run) && l.tasks != [] && l.tasks[0].name == n && n in table
    ensures var l' := Turn(table, l);
            !Pulls(table, l, n) && (n in Names(l'.run) || Leader(table, l'.tasks, n) == Some(n))
  {
    hide Turn, Reordered;
    TurnIs(table, l);
    ReorderedLeads(table, rank, l, n);
    NamesSnoc(l.run, l.tasks[0]);
    ReachesSelf(table, n);
    NothingBack(table, rank, n);
  }

  /** A turn and the pulls from the new leader make up the pulls from the old one. */
  lemma TurnLeads(table: Table, rank: map<Name, nat>, l: Loop, n: Name)
    requires ClosedTable(table) && Ranked(table, rank) && NoOrderDeps(table) && Underway(table, l)
    requires n !in Names(l.run) && n in table && Leader(table, l.tasks, n).Some?
    ensures var f, l' := Leader(table, l.tasks, n).value, Turn(table, l);
            && f in table
            && (if n in Names(l'.run) then !Pulls(table, l, n) && PullsFrom(table, rank, f, n) == 0
                else
                  && Leader(table, l'.tasks, n).Some? && Leader(table, l'.tasks, n).value in table
                  && (if Pulls(table, l, n) then 1 else 0)
                     + PullsFrom(table, rank, Leader(table, l'.tasks, n).value, n) == PullsFrom(table, rank, f, n))
  {
    hide Turn, Reordered;
    var x := l.tasks[0];
    LeaderInTable(table, l.tasks, n);
    PopFirst(l.tasks);
    if !Reaches(table, x.name, n) {
      LeaderStays(table, rank, l, n);
    } else if x.name == n {
      LeaderRuns(table, rank, l, n);
    } else {
      LeaderGivesWay(table, rank, l, n);
    }
  }

  /** No dependency of n needs n. */
  lemma NothingBack(table: Table, rank: map<Name, nat>, n: Name)
    requires Ranked(table, rank) && n in table
    ensures !SomeReaches(table, table[n].deps, n) && !Mentions(table, n, n)
  {
    forall d | d in table[n].deps ensures !Reaches(table, d, n) {
      NoWayBack(table, rank, n, d);
    }
  }

  /** A command that does not need n has no dependency that does. */
  lemma NothingFrom(table: Table, x: Name, n: Name)
    requires x in table && !Reaches(table, x, n)
    ensures !SomeReaches(table, table[x].deps, n) && !Mentions(table, x, n)
  {
    ReachesSelf(table, n);
    forall d | Mentions(table, x, d) ensures !Reaches(table, d, n) {
      if Reaches(table, d, n) {
        ReachesFurther(table, x, d, n);
      }
    }
  }

  lemma LeaderLists(table: Table, ts: seq<Task>, n: Name)
    requires Leader(table, ts, n).Some?
    ensures ts != []
  {
  }

  lemma {:induction false} LeaderInTable(table: Table, ts: seq<Task>, n: Name)
    requires Leader(table, ts, n).Some? && Names(ts) <= table.Keys
    ensures Leader(table, ts, n).value in table
    decreases |ts|
  {
    PopFirst(ts);
    if !Reaches(table, ts[0].name, n) {
      LeaderInTable(table, ts[1..], n);
    }
  }

  lemma {:induction false} NoPullsOnceRun(table: Table, l: Loop, n: Name, k: nat)
    requires n in Names(l.run)
    ensures Pulled(table, l, n, k) == 0 && n in Names(Turns(table, l, k).run)
    decreases k
  {
    if k > 0 {
      NoPullsOnceRun(table, l, n, k - 1);
      RunKeepsName(table, Turns(table, l, k - 1), n);
    }
  }

  lemma RunKeepsName(table: Table, l: Loop, n: Name)
    requires n in Names(l.run)
    ensures n in Names(Turn(table, l).run)
  {
    RunStays(table, l);
    var t :| t in l.run && t.name == n;
    assert t in Turn(table, l).run;
  }

  lemma {:induction false} PullsAre(table: Table, rank: map<Name, nat>, l: Loop, n: Name, k: nat)
    requires ClosedTable(table) && Ranked(table, rank) && NoOrderDeps(table) && Underway(table, l)
    requires n !in Names(l.run) && n in table && Leader(table, l.tasks, n).Some?
    requires Turns(table, l, k).tasks == []
    ensures Leader(table, l.tasks, n).value in table
    ensures Pulled(table, l, n, k) == PullsFrom(table, rank, Leader(table, l.tasks, n).value, n)
    decreases k
  {
    hide *;
    LeaderLists(table, l.tasks, n);
    TurnsIs(table, l, 0);
    var l' := Turn(table, l);
    PulledLater(table, l, n, k - 1);
    TurnLeads(table, rank, l, n);
    if n in Names(l'.run) {
      NoPullsOnceRun(table, l', n, k - 1);
    } else {
      StaysUnderway(table, rank, l, n);
      PullsAre(table, rank, l', n, k - 1);
    }
  }

  /** Without order-only dependencies the number of pulls can be read off the table and the list, so it is known
      before the call which task is run, and whether the warning is right. */
  lemma WhichRunsBefore(table: Table, rank: map<Name, nat>, requested: seq<Task>, n: Name, k: nat)
    requires ClosedTable(table) && Ranked(table, rank) && NoOrderDeps(table) && Names(requested) <= table.Keys
    requires Distinct(requested) && n in Names(requested) && Turns(table, Start(requested), k).tasks == []
    ensures Leader(table, requested, n).Some? && Leader(table, requested, n).value in table
    ensures var o, m := Occurrences(requested, n), PullsFrom(table, rank, Leader(table, requested, n).value, n);
            var run := Turns(table, Start(requested), k).run;
            |o| > 0 && o[Head(m, |o|)] in run && (o[0] in run <==> m % |o| == 0)
  {
    LeaderExists(table, requested, n);
    assert Names(Start(requested).run) == {};
    PullsAre(table, rank, Start(requested), n, k);
    WhichRuns(table, rank, requested, n, k);
  }

  // ---------- a family in which the last one is run ----------

  /** Whoever leads to n does so through the only command that mentions it. */
  lemma ThroughMentioner(table: Table, x: Name, n: Name, d: Name)
    requires (forall y :: Mentions(table, y, n) ==> y == x) && Reaches(table, d, n) && d != n
    ensures Reaches(table, d, x)
  {
    var p :| IsPath(table, p) && p[0] == d && p[|p| - 1] == n;
    var front := p[..|p| - 1];
    assert Mentions(table, p[|p| - 2], p[|p| - 2 + 1]);
    forall i | 0 <= i < |front| - 1 ensures Mentions(table, front[i], front[i + 1]) {
      assert front[i] == p[i] && front[i + 1] == p[i + 1];
    }
    assert IsPath(table, front) && front[0] == d && front[|front| - 1] == x;
  }

  lemma {:induction false} DepsPull(table: Table, deps: seq<Name>, dict: map<Name, Task>, ran: set<Name>, q: Queue,
                                    n: Name)
    requires Covers(q, dict) && n in dict && n !in ran
    requires n in deps || FirstOf(table, q.tasks, dict[n])
    requires forall d :: d in deps ==> d == n || !Reaches(table, d, n)
    ensures FirstOf(table, AfterDeps(deps, dict, ran, q).tasks, dict[n])
    decreases |deps|
  {
    if deps != [] {
      var front, d := deps[..|deps| - 1], deps[|deps| - 1];
      InSnoc(deps, n);
      if d != n {
        DepsPull(table, front, dict, ran, q, n);
        var r := AfterDeps(front, dict, ran, q);
        FirstBehind(table, r.tasks, dict[n], if d in dict then dict[d] else Task(d, r.next));
      }
    }
  }

  lemma {:induction false} OrderDepsPull(table: Table, deps: seq<Name>, dict: map<Name, Task>, ran: set<Name>,
                                         q: Queue, n: Name)
    requires Covers(q, dict) && n in dict && n !in ran
    requires n in deps || FirstOf(table, q.tasks, dict[n])
    requires forall d :: d in deps ==> d == n || !Reaches(table, d, n)
    ensures FirstOf(table, AfterOrderDeps(deps, dict, ran, q).tasks, dict[n])
    decreases |deps|
  {
    if deps != [] {
      var front, d := deps[..|deps| - 1], deps[|deps| - 1];
      InSnoc(deps, n);
      if d != n {
        OrderDepsPull(table, front, dict, ran, q, n);
        if d in dict {
          FirstBehind(table, AfterOrderDeps(front, dict, ran, q).tasks, dict[n], dict[d]);
        }
      }
    }
  }

  /** The first turn pulls n forward, past everything that leads to it. */
  lemma FirstPull(table: Table, rank: map<Name, nat>, l: Loop, n: Name) returns (t: Task)
    requires Ranked(table, rank) && l.run == [] && l.tasks != [] && n in Names(l.tasks)
    requires Mentions(table, l.tasks[0].name, n) && forall y :: Mentions(table, y, n) ==> y == l.tasks[0].name
    ensures var l' := Turn(table, l); t.name == n && l'.run == [] && FirstOf(table, l'.tasks, t)
  {
    var x, dict := l.tasks[0].name, ByName(l.tasks);
    var c, q := table[x], Queue(l.tasks, l.next, false);
    t := dict[n];
    assert Names(l.run) == {};
    forall d | Mentions(table, x, d) && d != n ensures !Reaches(table, d, n) {
      NoWayBack(table, rank, x, d);
      if Reaches(table, d, n) {
        ThroughMentioner(table, x, n, d);
      }
    }
    if n in c.deps {
      DepsPull(table, c.deps, dict, {}, q, n);
    }
    OrderDepsPull(table, c.orderDeps, dict, {}, AfterDeps(c.deps, dict, {}, q), n);
    PulledMoves(c, dict, q, n);
  }

  lemma PulledMoves(c: Command, dict: map<Name, Task>, q: Queue, n: Name)
    requires Covers(q, dict) && n in dict && (n in c.deps || n in c.orderDeps)
    ensures AfterOrderDeps(c.orderDeps, dict, {}, AfterDeps(c.deps, dict, {}, q)).moved
  {
    DepsMoved(dict, {}, q, c.deps);
    OrderMoved(dict, {}, AfterDeps(c.deps, dict, {}, q), c.orderDeps);
  }

  lemma {:induction false} DepsMoved(dict: map<Name, Task>, ran: set<Name>, q: Queue, deps: seq<Name>)
    requires Covers(q, dict)
    ensures AfterDeps(deps, dict, ran, q).moved <==> q.moved || exists d :: d in deps && d !in ran
    decreases |deps|
  {
    if deps != [] {
      DepsMoved(dict, ran, q, deps[..|deps| - 1]);
      assert deps == deps[..|deps| - 1] + [deps[|deps| - 1]];
    }
  }

  /** Nobody pulls a name forward whose first task no task before it reaches. */
  lemma {:induction false} NoPulls(table: Table, rank: map<Name, nat>, l: Loop, t: Task, k: nat)
    requires Ranked(table, rank) && FirstOf(table, l.tasks, t) && t.name !in Names(l.run)
    ensures Pulled(table, l, t.name, k) == 0
    decreases k
  {
    hide *;
    PulledIs(table, l, t.name, k);
    if k > 0 {
      NoPulls(table, rank, l, t, k - 1);
      TurnsFirst(table, rank, l, t, k - 1);
      NoPull(table, rank, Turns(table, l, k - 1), t);
    }
  }

  lemma NoPull(table: Table, rank: map<Name, nat>, l: Loop, t: Task)
    requires Ranked(table, rank)
    requires t in l.run || (FirstOf(table, l.tasks, t) && t.name !in Names(l.run))
    ensures !Pulls(table, l, t.name)
  {
    if Pulls(table, l, t.name) {
      ReachesSelf(table, t.name);
      ReachesFurther(table, l.tasks[0].name, t.name, t.name);
      NoWayBack(table, rank, l.tasks[0].name, t.name);
    }
  }

  lemma {:induction false} PulledLater(table: Table, l: Loop, n: Name, k: nat)
    ensures Turns(table, Turn(table, l), k) == Turns(table, l, k + 1)
    ensures Pulled(table, l, n, k + 1) == (if Pulls(table, l, n) then 1 else 0) + Pulled(table, Turn(table, l), n, k)
    decreases k
  {
    assert Turns(table, l, 0) == l;
    if k > 0 {
      PulledLater(table, l, n, k - 1);
    }
  }

  /** If the first task listed is of the only command that mentions n, the last task of that name is run; so the
      warning is wrong for every such list with several tasks of that name. */
  lemma LastRuns(table: Table, rank: map<Name, nat>, requested: seq<Task>, n: Name, k: nat)
    requires Ranked(table, rank) && Distinct(requested) && requested != [] && n in Names(requested)
    requires Mentions(table, requested[0].name, n)
    requires forall y :: Mentions(table, y, n) ==> y == requested[0].name
    requires Turns(table, Start(requested), k).tasks == []
    ensures var o, run := Occurrences(requested, n), Turns(table, Start(requested), k).run;
            o != [] && o[|o| - 1] in run && (o[0] in run <==> |o| == 1)
  {
    assert Turns(table, Start(requested), 0).tasks == requested;
    OnePull(table, rank, Start(requested), n, k);
    WhichRuns(table, rank, requested, n, k);
    OneBack(|Occurrences(requested, n)|);
  }

  lemma OneBack(count: nat)
    requires count > 0
    ensures Head(1, count) == count - 1 && (1 % count == 0 <==> count == 1)
  {
    assert Head(0, count) == 0;
    if count > 1 {
      ModSmall(1, count);
    }
  }

  lemma OnePull(table: Table, rank: map<Name, nat>, l: Loop, n: Name, k: nat)
    requires Ranked(table, rank) && l.run == [] && l.tasks != [] && n in Names(l.tasks)
    requires Mentions(table, l.tasks[0].name, n) && forall y :: Mentions(table, y, n) ==> y == l.tasks[0].name
    requires k > 0
    ensures Pulled(table, l, n, k) == 1
  {
    var t := FirstPull(table, rank, l, n);
    assert Names(l.run) == {} && Pulls(table, l, n);
    PulledOnce(table, rank, l, Turn(table, l), t, k - 1);
  }

  lemma PulledOnce(table: Table, rank: map<Name, nat>, l: Loop, l': Loop, t: Task, k: nat)
    requires Ranked(table, rank) && l' == Turn(table, l) && Pulls(table, l, t.name)
    requires FirstOf(table, l'.tasks, t) && t.name !in Names(l'.run)
    ensures Pulled(table, l, t.name, k + 1) == 1
  {
    PulledLater(table, l, t.name, k);
    NoPulls(table, rank, l', t, k);
  }

  /** The dependency loop. It ends, runs exactly the least set of commands that contains the requested ones and
      their dependencies, each once, in an order that respects both kinds of dependencies; a requested command is
      run as a requested task, with the options given, and as the first such task if no task before that one
      reaches its name; and a list that is in order already is left alone. */
  method ExecuteTasks(table: Table, requested: seq<Task>, ghost rank: map<Name, nat>)
    returns (run: seq<Task>, ghost turns: nat)
    requires ClosedTable(table) && Ranked(table, rank) && Names(requested) <= table.Keys
    ensures RunOk(table, run) && OrderOk(table, Names(requested), run)
    ensures IsLeastClosure(table, Names(requested), Names(run))
    ensures forall t :: t in run && t.name in Names(requested) ==> t in requested
    ensures forall i :: 0 <= i < |requested| && Unreached(table, requested, i) ==> requested[i] in run
    ensures AlreadyOrdered(table, requested) ==> run == requested
    ensures var end := Turns(table, Start(requested), turns); end.run == run && end.tasks == []
  {
    hide LoopOk, RunOk, OrderOk, IsLeastClosure, AlreadyOrdered, Unreached, ClosedTable, Ranked, Turn, Measure, Names;
    var tasks, next := requested, FreshId(requested);
    run, turns := [], 0;
    Started(table, requested);
    assert run + tasks == requested;
    ghost var ordered, m := AlreadyOrdered(table, requested), Measure(table, rank, run, tasks);
    while tasks != []
      invariant LoopOk(table, requested, run, tasks) && m == Measure(table, rank, run, tasks)
      invariant Turns(table, Start(requested), turns) == Loop(run, tasks, next)
      invariant ordered ==> run + tasks == requested
      decreases m.0, m.1, m.2, m.3
    {
      run, tasks, next := ProcessFirst(table, requested, rank, run, tasks, next);
      turns := turns + 1;
      m := Measure(table, rank, run, tasks);
    }
    Finished(table, requested, run);
    FirstOnesRun(table, rank, requested, turns);
  }

  /** One turn of the loop. */
  method ProcessFirst(table: Table, ghost requested: seq<Task>, ghost rank: map<Name, nat>,
                      run: seq<Task>, tasks: seq<Task>, next: nat)
    returns (run': seq<Task>, tasks': seq<Task>, next': nat)
    requires ClosedTable(table) && Ranked(table, rank) && tasks != [] && LoopOk(table, requested, run, tasks)
    ensures LoopOk(table, requested, run', tasks')
    ensures Less(Measure(table, rank, run', tasks'), Measure(table, rank, run, tasks))
    ensures AlreadyOrdered(table, requested) && run + tasks == requested ==> run' + tasks' == requested
    ensures Loop(run', tasks', next') == Turn(table, Loop(run, tasks, next))
  {
    var task, ran := tasks[0], Names(run);
    assert task.name in Names(tasks);
    Round(table, rank, ran, tasks, next);
    if AlreadyOrdered(table, requested) && run + tasks == requested {
      OrderedRound(table, requested, run, tasks);
    }
    var q := Reorder(table, ran, tasks, next);
    if q.moved {
      MovedRound(table, rank, requested, run, tasks, q);
      return run, q.tasks, q.next;
    }
    PoppedRound(table, rank, requested, run, tasks);
    return if task.name in ran then run else run + [task], q.tasks[1..], q.next;
  }

  lemma PopFirst(ts: seq<Task>)
    requires ts != []
    ensures Names(ts) == Names(ts[1..]) + {ts[0].name}
  {
    NamesCons(ts[0], ts[1..]);
    assert [ts[0]] + ts[1..] == ts;
  }

  /** The smallest such list: app, first, second, where app depends on the name of the other two. */
  method LastOccurrenceRuns(a: Name, n: Name) returns (run: seq<Task>)
    requires a != n
    ensures Task(n, 2) in run && Task(n, 1) !in run
  {
    var table: Table := map[a := Command([n], []), n := Command([], [])];
    var requested := [Task(a, 0), Task(n, 1), Task(n, 2)];
    ghost var rank: map<Name, nat> := map[a := 1, n := 0];
    ThreeTasks(a, n);
    ghost var turns;
    run, turns := ExecuteTasks(table, requested, rank);
    SmallestList(table, rank, requested, a, n, turns);
  }

  lemma SmallestList(table: Table, rank: map<Name, nat>, requested: seq<Task>, a: Name, n: Name, k: nat)
    requires a != n && table == map[a := Command([n], []), n := Command([], [])]
    requires requested == [Task(a, 0), Task(n, 1), Task(n, 2)] && Ranked(table, rank)
    requires Turns(table, Start(requested), k).tasks == []
    ensures var run := Turns(table, Start(requested), k).run; Task(n, 2) in run && Task(n, 1) !in run
  {
    ThreeTasks(a, n);
    LastRuns(table, rank, requested, n, k);
  }

  lemma ThreeTasks(a: Name, n: Name)
    requires a != n
    ensures var ts := [Task(a, 0), Task(n, 1), Task(n, 2)];
            Occurrences(ts, n) == [Task(n, 1), Task(n, 2)] && Names(ts) == {a, n} && Distinct(ts)
  {
    var t0, t1, t2 := Task(a, 0), Task(n, 1), Task(n, 2);
    OccurrencesSnoc([], t0, n);
    OccurrencesSnoc([t0], t1, n);
    OccurrencesSnoc([t0, t1], t2, n);
    NamesSnoc([], t0);
    NamesSnoc([t0], t1);
    NamesSnoc([t0, t1], t2);
    assert [] + [t0] == [t0] && [t0] + [t1] == [t0, t1] && [t0, t1] + [t2] == [t0, t1, t2];
    assert Names([]) == {};
  }
}
