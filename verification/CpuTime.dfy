/** CPU time of threads, processes and waited-for children. `ran`, `absorbed` and `forgotten` record where every tick
    went. */
module CpuTime {
  import opened Basics

  /** `threads` are the slots still in use, leader included; `dead` is the time of reclaimed threads, `kids` of
      waited-for children. */
  datatype Proc = Proc(parent: Option<nat>, threads: map<nat, nat>, dead: nat, kids: nat, zombie: bool)

  datatype State = State(
    procs: map<nat, Proc>, ran: map<nat, nat>, absorbed: map<nat, set<nat>>, forgotten: set<nat>, ticks: nat,
      stray: nat)

  datatype Op =
    | Tick(pid: nat, tid: nat)
    | Spawn(pid: nat, tid: nat)
    | Reclaim(pid: nat, tid: nat)
    | Fork(parent: nat, child: nat)
    | Exit(pid: nat)
    | Wait(waiter: nat, child: nat)
    | AutoReap(pid: nat)

  // ─── sums ───

  ghost function MapSum(m: map<nat, nat>): nat {
    if m == map[] then 0 else var k :| k in m; m[k] + MapSum(m - {k})
  }

  lemma {:induction false} MapSumTake(m: map<nat, nat>, k: nat)
    requires k in m
    ensures MapSum(m) == m[k] + MapSum(m - {k})
    decreases m
  {
    var j :| j in m && MapSum(m) == m[j] + MapSum(m - {j});
    if j != k {
      MapSumTake(m - {j}, k);
      MapSumTake(m - {k}, j);
      assert m - {j} - {k} == m - {k} - {j};
    }
  }

  lemma MapSumPut(m: map<nat, nat>, k: nat, v: nat)
    ensures MapSum(m[k := v]) == MapSum(m) - (if k in m then m[k] else 0) + v
  {
    MapSumTake(m[k := v], k);
    if k in m {
      MapSumTake(m, k);
      assert m[k := v] - {k} == m - {k};
    } else {
      assert m[k := v] - {k} == m;
    }
  }

  ghost function At(ran: map<nat, nat>, p: nat): nat { if p in ran then ran[p] else 0 }

  ghost function SetSum(s: set<nat>, ran: map<nat, nat>): nat {
    if s == {} then 0 else var k :| k in s; At(ran, k) + SetSum(s - {k}, ran)
  }

  lemma {:induction false} SetSumTake(s: set<nat>, ran: map<nat, nat>, k: nat)
    requires k in s
    ensures SetSum(s, ran) == At(ran, k) + SetSum(s - {k}, ran)
    decreases s
  {
    var j :| j in s && SetSum(s, ran) == At(ran, j) + SetSum(s - {j}, ran);
    if j != k {
      SetSumTake(s - {j}, ran, k);
      SetSumTake(s - {k}, ran, j);
      assert s - {j} - {k} == s - {k} - {j};
    }
  }

  lemma {:induction false} SetSumUnion(s: set<nat>, t: set<nat>, ran: map<nat, nat>)
    requires s !! t
    ensures SetSum(s + t, ran) == SetSum(s, ran) + SetSum(t, ran)
    decreases s
  {
    if s == {} {
      assert s + t == t;
    } else {
      var k :| k in s;
      SetSumTake(s, ran, k);
      SetSumTake(s + t, ran, k);
      assert (s + t) - {k} == (s - {k}) + t;
      SetSumUnion(s - {k}, t, ran);
    }
  }

  lemma {:induction false} SetSumSame(s: set<nat>, ran: map<nat, nat>, ran': map<nat, nat>)
    requires forall p :: p in s ==> At(ran', p) == At(ran, p)
    ensures SetSum(s, ran') == SetSum(s, ran)
    decreases s
  {
    if s != {} {
      var k :| k in s;
      SetSumTake(s, ran, k);
      SetSumTake(s, ran', k);
      SetSumSame(s - {k}, ran, ran');
    }
  }

  // ─── the kernel's totals ───

  /** A process's own time: its thread slots and its reclaimed threads. */
  ghost function Self(p: Proc): nat { MapSum(p.threads) + p.dead }

  /** What wait4 reports and adds to the waiter's children. */
  ghost function Usage(p: Proc): nat { Self(p) + p.kids }

  ghost predicate Accepts(s: State, op: Op) {
    match op
    case Tick(pid, tid) => pid in s.procs ==> tid in s.procs[pid].threads
    case Spawn(pid, tid) => pid in s.procs && tid !in s.procs[pid].threads
    case Reclaim(pid, tid) => pid in s.procs && tid in s.procs[pid].threads && tid != pid
    case Fork(parent, child) => parent in s.procs && child !in s.ran
    case Exit(pid) => pid in s.procs
    case Wait(waiter, child) =>
      waiter in s.procs && child in s.procs && waiter != child && s.procs[child].zombie &&
        s.procs[child].parent == Some(waiter)
    case AutoReap(pid) => pid in s.procs && s.procs[pid].zombie
  }

  /** A tick of a thread whose process has already been waited for belongs to no process any more. */
  ghost function Step(s: State, op: Op): State {
    if !Accepts(s, op) then s
    else
      match op
      case Tick(pid, tid) =>
        if pid !in s.procs then s.(ticks := s.ticks + 1, stray := s.stray + 1)
        else
          var p := s.procs[pid];
          s.(procs := s.procs[pid := p.(threads := p.threads[tid := p.threads[tid] + 1])],
             ran := s.ran[pid := At(s.ran, pid) + 1], ticks := s.ticks + 1)
      case Spawn(pid, tid) => s.(procs := s.procs[pid := s.procs[pid].(threads := s.procs[pid].threads[tid := 0])])
      case Reclaim(pid, tid) =>
        var p := s.procs[pid];
        s.(procs := s.procs[pid := p.(threads := p.threads - {tid}, dead := p.dead + p.threads[tid])])
      case Fork(parent, child) =>
        s.(procs := s.procs[child := Proc(Some(parent), map[child := 0], 0, 0, false)],
           ran := s.ran[child := 0], absorbed := s.absorbed[child := {}])
      case Exit(pid) => s.(procs := s.procs[pid := s.procs[pid].(zombie := true)])
      case Wait(waiter, child) => Waited(s, waiter, child)
      case AutoReap(pid) =>
        s.(procs := s.procs - {pid}, absorbed := s.absorbed - {pid}, forgotten := s.forgotten + {pid} + Taken(s, pid))
  }

  ghost function Taken(s: State, p: nat): set<nat> { if p in s.absorbed then s.absorbed[p] else {} }

  ghost function Waited(s: State, waiter: nat, child: nat): State
    requires waiter in s.procs && child in s.procs
  {
    var w := s.procs[waiter];
    s.(procs := s.procs[waiter := w.(kids := w.kids + Usage(s.procs[child]))] - {child},
       absorbed := s.absorbed[waiter := Taken(s, waiter) + {child} + Taken(s, child)] - {child})
  }

  ghost function Run(s: State, ops: seq<Op>): State {
    if ops == [] then s else Step(Run(s, ops[..|ops| - 1]), ops[|ops| - 1])
  }

  // ─── every tick is counted once ───

  /** The books: a process's own total is what it ran; its children total is what the processes that reached it through
      waits ran; every process that is gone went to exactly one place. */
  ghost predicate Own(s: State) { forall p :: p in s.procs ==> p in s.ran && Self(s.procs[p]) == s.ran[p] }

  ghost predicate Kids(s: State) { forall p :: p in s.procs ==> s.procs[p].kids == SetSum(Taken(s, p), s.ran) }

  ghost predicate Placed(s: State) {
    && s.absorbed.Keys == s.procs.Keys
    && (forall p :: p in s.procs ==>
          Taken(s, p) <= s.ran.Keys && Taken(s, p) !! s.procs.Keys && Taken(s, p) !! s.forgotten)
    && (forall p, q :: p in s.procs && q in s.procs && p != q ==> Taken(s, p) !! Taken(s, q))
    && s.forgotten <= s.ran.Keys && s.forgotten !! s.procs.Keys && s.procs.Keys <= s.ran.Keys
    && (forall q :: q in s.ran ==> Somewhere(s, q))
  }

  ghost predicate Somewhere(s: State, q: nat) {
    q in s.procs || q in s.forgotten || exists p :: p in s.procs && q in Taken(s, p)
  }

  ghost predicate Inv(s: State) { Own(s) && Kids(s) && Placed(s) && s.ticks == MapSum(s.ran) + s.stray }

  /** Where processes are does not depend on their counters. */
  lemma PlacedSame(s: State, s': State)
    requires Placed(s) && s'.procs.Keys == s.procs.Keys && s'.absorbed == s.absorbed && s'.forgotten == s.forgotten
    requires s'.ran.Keys == s.ran.Keys
    ensures Placed(s')
  {
    assert forall p :: p in s.procs ==> Taken(s', p) == Taken(s, p);
    forall q | q in s'.ran ensures Somewhere(s', q) {
      assert Somewhere(s, q);
      if q !in s.procs && q !in s.forgotten {
        var p :| p in s.procs && q in Taken(s, p);
        assert p in s'.procs && q in Taken(s', p);
      }
    }
  }

  lemma KidsSame(s: State, s': State, p: nat)
    requires Kids(s) && p in s.procs && p in s'.procs && s'.procs[p].kids == s.procs[p].kids
    requires Taken(s', p) == Taken(s, p)
    requires forall q :: q in Taken(s, p) ==> At(s'.ran, q) == At(s.ran, q)
    ensures s'.procs[p].kids == SetSum(Taken(s', p), s'.ran)
  {
    SetSumSame(Taken(s, p), s.ran, s'.ran);
  }

  lemma TickKids(s: State, pid: nat, tid: nat)
    requires Kids(s) && Placed(s) && Accepts(s, Tick(pid, tid))
    ensures Kids(Step(s, Tick(pid, tid)))
  {
    var s' := Step(s, Tick(pid, tid));
    forall p | p in s'.procs ensures s'.procs[p].kids == SetSum(Taken(s', p), s'.ran) {
      assert pid in s.procs ==> pid !in Taken(s, p);
      KidsSame(s, s', p);
    }
  }

  lemma TickOwn(s: State, pid: nat, tid: nat)
    requires Own(s) && Accepts(s, Tick(pid, tid))
    ensures Own(Step(s, Tick(pid, tid)))
  {
    if pid in s.procs {
      MapSumPut(s.procs[pid].threads, tid, s.procs[pid].threads[tid] + 1);
    }
  }

  lemma TickTotal(s: State, pid: nat, tid: nat)
    requires Own(s) && Accepts(s, Tick(pid, tid)) && s.ticks == MapSum(s.ran) + s.stray
    ensures var s' := Step(s, Tick(pid, tid)); s'.ticks == MapSum(s'.ran) + s'.stray
  {
    if pid in s.procs {
      MapSumPut(s.ran, pid, s.ran[pid] + 1);
    }
  }

  lemma TickPlaced(s: State, pid: nat, tid: nat)
    requires Placed(s) && Accepts(s, Tick(pid, tid))
    ensures Placed(Step(s, Tick(pid, tid)))
  {
    PlacedSame(s, Step(s, Tick(pid, tid)));
  }

  lemma TickInv(s: State, pid: nat, tid: nat)
    requires Inv(s) && Accepts(s, Tick(pid, tid))
    ensures Inv(Step(s, Tick(pid, tid)))
  {
    TickOwn(s, pid, tid);
    TickKids(s, pid, tid);
    TickPlaced(s, pid, tid);
    TickTotal(s, pid, tid);
  }

  lemma SlotOwn(s: State, op: Op)
    requires Own(s) && Accepts(s, op) && (op.Spawn? || op.Reclaim? || op.Exit?)
    ensures Own(Step(s, op))
  {
    match op
    case Spawn(pid, tid) => MapSumPut(s.procs[pid].threads, tid, 0);
    case Reclaim(pid, tid) => MapSumTake(s.procs[pid].threads, tid);
    case Exit(_) =>
  }

  lemma SlotKids(s: State, op: Op)
    requires Kids(s) && Accepts(s, op) && (op.Spawn? || op.Reclaim? || op.Exit?)
    ensures Kids(Step(s, op))
  {
    var s' := Step(s, op);
    forall p | p in s'.procs ensures s'.procs[p].kids == SetSum(Taken(s', p), s'.ran) {
      KidsSame(s, s', p);
    }
  }

  lemma SlotInv(s: State, op: Op)
    requires Inv(s) && Accepts(s, op) && (op.Spawn? || op.Reclaim? || op.Exit?)
    ensures Inv(Step(s, op))
  {
    SlotOwn(s, op);
    SlotKids(s, op);
    PlacedSame(s, Step(s, op));
  }

  lemma ForkPlaced(s: State, parent: nat, child: nat)
    requires Placed(s) && Accepts(s, Fork(parent, child))
    ensures Placed(Step(s, Fork(parent, child)))
  {
    var s' := Step(s, Fork(parent, child));
    assert Taken(s', child) == {} && forall p :: p in s.procs ==> Taken(s', p) == Taken(s, p);
    forall q | q in s'.ran ensures Somewhere(s', q) {
      if q != child {
        assert Somewhere(s, q);
        if q !in s.procs && q !in s.forgotten {
          var p :| p in s.procs && q in Taken(s, p);
          assert p in s'.procs && q in Taken(s', p);
        }
      }
    }
  }

  lemma ForkInv(s: State, parent: nat, child: nat)
    requires Inv(s) && Accepts(s, Fork(parent, child))
    ensures Inv(Step(s, Fork(parent, child)))
  {
    var s' := Step(s, Fork(parent, child));
    ForkPlaced(s, parent, child);
    MapSumPut(s.ran, child, 0);
    forall p | p in s'.procs ensures s'.procs[p].kids == SetSum(Taken(s', p), s'.ran) {
      if p != child {
        KidsSame(s, s', p);
      }
    }
    MapSumTake(map[child := 0], child);
    assert map[child := 0] - {child} == map[];
  }

  lemma WaitKids(s: State, waiter: nat, child: nat)
    requires Inv(s) && Accepts(s, Wait(waiter, child))
    ensures Kids(Step(s, Wait(waiter, child)))
  {
    var a, b := Taken(s, waiter), Taken(s, child);
    SetSumUnion(a, {child}, s.ran);
    SetSumUnion(a + {child}, b, s.ran);
    SetSumTake({child}, s.ran, child);
    assert {child} - {child} == {};
  }

  lemma WaitTaken(s: State, waiter: nat, child: nat)
    requires Placed(s) && Accepts(s, Wait(waiter, child))
    ensures var s' := Step(s, Wait(waiter, child));
      && s'.procs.Keys == s.procs.Keys - {child} && s'.absorbed.Keys == s'.procs.Keys
      && Taken(s', waiter) == Taken(s, waiter) + {child} + Taken(s, child)
      && forall p :: p in s'.procs && p != waiter ==> Taken(s', p) == Taken(s, p)
  {
  }

  lemma WaitApart(s: State, waiter: nat, child: nat, p: nat, q: nat)
    requires Placed(s) && Accepts(s, Wait(waiter, child)) && p in s.procs && q in s.procs && p != q && p != child
    requires q != child
    ensures Taken(Step(s, Wait(waiter, child)), p) !! Taken(Step(s, Wait(waiter, child)), q)
  {
    WaitTaken(s, waiter, child);
    assert Taken(s, p) !! Taken(s, q) && Taken(s, p) !! Taken(s, child) && Taken(s, q) !! Taken(s, child);
  }

  lemma WaitPlaced(s: State, waiter: nat, child: nat)
    requires Placed(s) && Accepts(s, Wait(waiter, child))
    ensures Placed(Step(s, Wait(waiter, child)))
  {
    var s' := Step(s, Wait(waiter, child));
    WaitTaken(s, waiter, child);
    forall q | q in s'.ran ensures Somewhere(s', q) {
      WaitSomewhere(s, waiter, child, q);
    }
    forall p, q | p in s'.procs && q in s'.procs && p != q ensures Taken(s', p) !! Taken(s', q) {
      WaitApart(s, waiter, child, p, q);
    }
    forall p | p in s'.procs
      ensures Taken(s', p) <= s'.ran.Keys && Taken(s', p) !! s'.procs.Keys && Taken(s', p) !! s'.forgotten
    {
      assert Taken(s, p) <= s.ran.Keys && Taken(s, p) !! s.procs.Keys && Taken(s, p) !! s.forgotten;
      assert Taken(s, child) <= s.ran.Keys && Taken(s, child) !! s.procs.Keys && Taken(s, child) !! s.forgotten;
    }
  }

  lemma WaitSomewhere(s: State, waiter: nat, child: nat, q: nat)
    requires Placed(s) && Accepts(s, Wait(waiter, child)) && q in s.ran
    ensures Somewhere(Step(s, Wait(waiter, child)), q)
  {
    var s' := Step(s, Wait(waiter, child));
    assert Somewhere(s, q);
    assert Taken(s', waiter) == Taken(s, waiter) + {child} + Taken(s, child);
    if q !in s.procs && q !in s.forgotten {
      var p :| p in s.procs && q in Taken(s, p);
      var p' := if p == child then waiter else p;
      assert p' in s'.procs && q in Taken(s', p');
    } else if q == child {
      assert waiter in s'.procs && q in Taken(s', waiter);
    }
  }

  lemma AutoReapInv(s: State, pid: nat)
    requires Inv(s) && Accepts(s, AutoReap(pid))
    ensures Inv(Step(s, AutoReap(pid)))
  {
    var s' := Step(s, AutoReap(pid));
    assert forall p :: p in s'.procs ==> Taken(s', p) == Taken(s, p);
    forall q | q in s'.ran ensures Somewhere(s', q) {
      assert Somewhere(s, q);
      if q !in s'.procs && q !in s'.forgotten {
        var p :| p in s.procs && q in Taken(s, p);
        assert p in s'.procs && q in Taken(s', p);
      }
    }
  }

  lemma StepInv(s: State, op: Op)
    requires Inv(s)
    ensures Inv(Step(s, op))
  {
    if Accepts(s, op) {
      match op
      case Tick(pid, tid) => TickInv(s, pid, tid);
      case Spawn(_, _) => SlotInv(s, op);
      case Reclaim(_, _) => SlotInv(s, op);
      case Exit(_) => SlotInv(s, op);
      case Fork(parent, child) => ForkInv(s, parent, child);
      case Wait(waiter, child) =>
        WaitKids(s, waiter, child);
        WaitPlaced(s, waiter, child);
      case AutoReap(pid) => AutoReapInv(s, pid);
    }
  }

  /** In every run: each process's own total is what its threads ran, reclaimed or not; each tick reaches a children
      total exactly once and only through waits; nothing else happens to it but being forgotten with a process nobody
      waits for or run by a thread that outlives its process. */
  lemma {:induction false} RunInv(s: State, ops: seq<Op>)
    requires Inv(s)
    ensures Inv(Run(s, ops))
  {
    if ops != [] {
      RunInv(s, ops[..|ops| - 1]);
      StepInv(Run(s, ops[..|ops| - 1]), ops[|ops| - 1]);
    }
  }

  /** One process with one thread, nothing run yet. */
  ghost function Boot(pid: nat): State {
    State(map[pid := Proc(None, map[pid := 0], 0, 0, false)], map[pid := 0], map[pid := {}], {}, 0, 0)
  }

  lemma BootInv(pid: nat)
    ensures Inv(Boot(pid))
  {
    var s := Boot(pid);
    MapSumTake(map[pid := 0], pid);
    assert map[pid := 0] - {pid} == map[];
    assert Taken(s, pid) == {};
  }

  /** From boot, without the invariant: own time is what was run, children's time what the absorbed processes ran;
      nobody is absorbed by two. */
  lemma FromBoot(pid: nat, ops: seq<Op>, p: nat, q: nat)
    ensures var s := Run(Boot(pid), ops);
      p in s.procs ==>
        && Self(s.procs[p]) == At(s.ran, p) && s.procs[p].kids == SetSum(Taken(s, p), s.ran) && p !in Taken(s, p)
        && (q in s.procs && q != p ==> Taken(s, p) !! Taken(s, q))
  {
    BootInv(pid);
    RunInv(Boot(pid), ops);
  }

  /** Reclaiming a thread's slot changes no total of its process. */
  lemma ReclaimKeepsTotals(s: State, pid: nat, tid: nat)
    requires Accepts(s, Reclaim(pid, tid))
    ensures var p, p' := s.procs[pid], Step(s, Reclaim(pid, tid)).procs[pid]; Self(p') == Self(p) && p'.kids == p.kids
  {
    MapSumTake(s.procs[pid].threads, tid);
  }

  /** A grandchild's time reaches the grandparent once both waits have happened, and not before. */
  lemma GrandchildReaches(s: State, g: nat, p: nat, c: nat)
    requires Accepts(s, Wait(p, c)) && g in s.procs && g != p && g != c && s.procs[p].zombie
    requires s.procs[p].parent == Some(g)
    ensures var s1 := Step(s, Wait(p, c));
      var s2 := Step(s1, Wait(g, p));
      && s1.procs[g].kids == s.procs[g].kids
      && s2.procs[g].kids == s.procs[g].kids + Usage(s.procs[p]) + Usage(s.procs[c])
      && Self(s2.procs[g]) == Self(s.procs[g])
  {
  }
}
