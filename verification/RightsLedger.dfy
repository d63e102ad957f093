/** Where every copy in flight is: each one made is installed once, released once, or in flight once, in every run. */
module RightsLedger {
  import opened Basics
  import opened RightsQueue
  import opened RightsFlight
  import D = Descriptors

  function Kept(q: Queued, id: nat): nat { if q.used then multiset(q.copies)[id] else 0 }

  /** How often copy `id` is in the pool, given up or not. */
  function Pooled(pool: seq<Queued>, id: nat): nat {
    if pool == [] then 0 else Pooled(pool[..|pool| - 1], id) + Kept(pool[|pool| - 1], id)
  }

  lemma {:induction false} PooledPut(pool: seq<Queued>, j: nat, q: Queued, id: nat)
    requires j < |pool|
    ensures Pooled(pool[j := q], id) + Kept(pool[j], id) == Pooled(pool, id) + Kept(q, id)
  {
    var pool' := pool[j := q];
    var most, most' := pool[..|pool| - 1], pool'[..|pool| - 1];
    if j < |pool| - 1 {
      PooledPut(most, j, q, id);
      assert most' == most[j := q];
    } else {
      assert most' == most;
    }
  }

  lemma {:induction false} PooledSame(pool: seq<Queued>, pool': seq<Queued>, id: nat)
    requires |pool| == |pool'| && forall j :: 0 <= j < |pool| ==> Kept(pool[j], id) == Kept(pool'[j], id)
    ensures Pooled(pool, id) == Pooled(pool', id)
  {
    if pool != [] {
      PooledSame(pool[..|pool| - 1], pool'[..|pool| - 1], id);
    }
  }

  /** In the pool or in a thread's hands. */
  function Flying(w: World, id: nat): nat { Pooled(w.net.pool, id) + w.hand[id] }

  /** How often copy `id` is anywhere: flying or in the logs. */
  function Places(w: World, id: nat): nat {
    Flying(w, id) + multiset(w.installed)[id] + multiset(w.released)[id]
  }

  /** Every copy made is in exactly one place, and no other copy is anywhere. */
  ghost predicate Books(w: World) { forall id: nat :: Places(w, id) == if id < w.sent then 1 else 0 }

  /** The copies in flight that the descriptor tables know of are those in the pool and in hands. */
  ghost predicate FlightsOk(w: World) {
    D.Inv(w.files) && forall id: nat :: D.Flight(id) in w.files.held <==> Flying(w, id) > 0
  }

  ghost predicate Inv(w: World) { NetOk(w.net) && Books(w) && FlightsOk(w) }

  lemma SendPool(w: World, i: nat, len: nat, copies: seq<nat>, id: nat)
    requires NetOk(w.net)
    ensures Flying(Step(w, Send(i, len, copies)), id) == Flying(w, id)
  {
    if multiset(copies) <= w.hand && Queues(w.net, i, len, copies) {
      QueuedPool(w.net, i, len, copies, id);
    }
  }

  lemma QueuedPool(net: Net, i: nat, len: nat, copies: seq<nat>, id: nat)
    requires NetOk(net) && Queues(net, i, len, copies)
    ensures Pooled(Queue(net, i, len, copies).pool, id) == Pooled(net.pool, id) + multiset(copies)[id]
  {
    FreeSlotIs(net.pool);
    if copies != [] {
      var j := FreeSlot(net.pool).value;
      PooledPut(net.pool, j, Queued(true, false, i, net.socks[i].rx + net.socks[i].count, copies), id);
    }
  }

  lemma PassedPool(pool: seq<Queued>, i: nat, rx: nat, id: nat)
    ensures Pooled(Passed(pool, i, rx), id) == Pooled(pool, id)
  {
    PooledSame(pool, Passed(pool, i, rx), id);
  }

  lemma TakenPool(pool: seq<Queued>, j: nat, q: Queued, id: nat)
    requires j < |pool| && pool[j].used && !q.used
    ensures Pooled(pool[j := q], id) == Pooled(pool, id) - multiset(pool[j].copies)[id]
  {
    PooledPut(pool, j, q, id);
  }

  lemma RecvPool(w: World, i: nat, len: nat, wants: bool, id: nat)
    requires NetOk(w.net)
    ensures Flying(Step(w, Recv(i, len, wants)), id) == Flying(w, id)
  {
    if i in w.net.socks && w.net.socks[i].count > 0 {
      var r, pool, rx := ReadingOf(w.net, i, len, wants), w.net.pool, w.net.socks[i].rx;
      ReadingFits(w.net, i, len, wants);
      if r.deliver {
        var q := pool[r.slot].(used := false);
        TakenPool(pool, r.slot, q, id);
        PassedPool(pool[r.slot := q], i, rx + r.n, id);
      } else {
        PassedPool(pool, i, rx + r.n, id);
      }
    }
  }

  lemma ReapPool(w: World, id: nat)
    requires NetOk(w.net)
    ensures Flying(Step(w, ReapTake), id) == Flying(w, id)
  {
    ZombieSlotIs(w.net.pool);
    if w.net.reapers > 0 && ZombieSlot(w.net.pool).Some? {
      var j := ZombieSlot(w.net.pool).value;
      TakenPool(w.net.pool, j, w.net.pool[j].(used := false, zombie := false), id);
    }
  }

  predicate OnSockets(op: Op) { op.Socket? || op.Send? || op.Recv? || op.Close? || op.ReapEnter? || op.ReapTake? }

  /** The calls on sockets move copies between the pool and hands and neither make nor lose one. */
  lemma SocketCallsConserve(w: World, op: Op, id: nat)
    requires NetOk(w.net) && OnSockets(op)
    ensures Flying(Step(w, op), id) == Flying(w, id)
  {
    match op
    case Send(i, len, copies) => SendPool(w, i, len, copies, id);
    case Recv(i, len, wants) => RecvPool(w, i, len, wants, id);
    case Close(i) => PooledSame(w.net.pool, Orphaned(w.net.pool, i), id);
    case ReapTake => ReapPool(w, id);
    case _ =>
  }

  lemma SocketCallInv(w: World, op: Op)
    requires Inv(w) && OnSockets(op)
    ensures Inv(Step(w, op))
  {
    var w' := Step(w, op);
    StepNet(w, op);
    forall id: nat ensures Flying(w', id) == Flying(w, id) && Places(w', id) == Places(w, id) {
      SocketCallsConserve(w, op, id);
    }
  }

  // ─── the descriptor tables beside it ───

  lemma ForkOneFlights(s: D.State, h: D.Holder, k: D.Holder, id: nat)
    requires k.Fd?
    ensures D.Flight(id) in D.ForkOne(s, h, k).held <==> D.Flight(id) in s.held
  {
    if h in s.held {
      assert D.Flight(id) in D.Share(s, h).held <==> D.Flight(id) in s.held;
    }
  }

  lemma {:induction false} ForkFlights(s: D.State, parent: nat, child: nat, n: nat, id: nat)
    ensures D.Flight(id) in D.ForkUpTo(s, parent, child, n).held <==> D.Flight(id) in s.held
  {
    if n > 0 {
      ForkFlights(s, parent, child, n - 1, id);
      ForkOneFlights(D.ForkUpTo(s, parent, child, n - 1), D.Fd(parent, n - 1), D.Fd(child, n - 1), id);
    }
  }

  lemma {:induction false} ExitFlights(s: D.State, pid: nat, n: nat, id: nat)
    requires D.Inv(s)
    ensures D.Flight(id) in D.ExitUpTo(s, pid, n).held <==> D.Flight(id) in s.held
  {
    if n > 0 {
      ExitFlights(s, pid, n - 1, id);
      D.ExitInv(s, pid, n - 1);
      var s1 := D.ExitUpTo(s, pid, n - 1);
      if D.Fd(pid, n - 1) in s1.held {
        D.RemoveInv(s1, D.Fd(pid, n - 1));
      }
    }
  }

  /** Calls on descriptor tables leave the copies in flight alone. */
  lemma OwnFlights(s: D.State, op: D.Op, id: nat)
    requires D.Inv(s) && Own(op)
    ensures D.Flight(id) in D.Step(s, op).held <==> D.Flight(id) in s.held
  {
    if D.Accepts(s, op) {
      match op
      case Dup(h, k, cloexec) => D.CopyInv(s, h, k, cloexec);
      case Close(h) => D.RemoveInv(s, h);
      case Fork(parent, child) => ForkFlights(s, parent, child, D.MAX_FDS, id);
      case Exit(pid) => ExitFlights(s, pid, D.MAX_FDS, id);
      case _ =>
    }
  }

  lemma GatherInv(w: World, h: D.Holder)
    requires Inv(w)
    ensures Inv(Step(w, Gather(h)))
  {
    if h.Fd? && h in w.files.held {
      var k := D.Flight(w.sent);
      assert Places(w, w.sent) == 0;
      PassFlights(w.files, h, w.sent);
      var w' := Step(w, Gather(h));
      forall id: nat ensures Flying(w', id) == Flying(w, id) + (if id == w.sent then 1 else 0) {
      }
      forall id: nat ensures Places(w', id) == if id < w'.sent then 1 else 0 {
        assert Places(w, id) == if id < w.sent then 1 else 0;
      }
    }
  }

  lemma PassFlights(s: D.State, h: D.Holder, n: nat)
    requires D.Inv(s) && h.Fd? && h in s.held && D.Flight(n) !in s.held
    ensures var s' := D.Step(s, D.Pass(h, D.Flight(n)));
      D.Inv(s') && forall id: nat :: D.Flight(id) in s'.held <==> D.Flight(id) in s.held || id == n
  {
    assert D.Step(s, D.Pass(h, D.Flight(n))) == D.Copy(s, h, D.Flight(n), false);
    D.CopyInv(s, h, D.Flight(n), false);
  }

  lemma DropFlights(s: D.State, n: nat)
    requires D.Inv(s) && D.Flight(n) in s.held
    ensures var s' := D.Step(s, D.Drop(D.Flight(n)));
      D.Inv(s') && forall id: nat :: D.Flight(id) in s'.held <==> D.Flight(id) in s.held && id != n
  {
    D.RemoveInv(s, D.Flight(n));
  }

  lemma InstallFlights(s: D.State, n: nat, k: D.Holder, cloexec: bool)
    requires D.Inv(s) && D.Accepts(s, D.Install(D.Flight(n), k, cloexec))
    ensures var s' := D.Step(s, D.Install(D.Flight(n), k, cloexec));
      D.Inv(s') && forall id: nat :: D.Flight(id) in s'.held <==> D.Flight(id) in s.held && id != n
  {
    D.InstallInv(s, D.Flight(n), k, cloexec);
  }

  /** A copy in hands is in no other place. */
  lemma HandOnly(w: World, id: nat)
    requires Inv(w) && id in w.hand
    ensures Flying(w, id) == 1 && id !in w.installed && id !in w.released && id < w.sent
  {
    assert Places(w, id) == if id < w.sent then 1 else 0;
    assert w.hand[id] >= 1;
  }

  lemma Logged(log: seq<nat>, id: nat, x: nat)
    ensures multiset(log + [id])[x] == multiset(log)[x] + (if x == id then 1 else 0)
  {
  }

  lemma ReleaseInv(w: World, id: nat)
    requires Inv(w)
    ensures Inv(Step(w, Release(id)))
  {
    if id in w.hand {
      HandOnly(w, id);
      DropFlights(w.files, id);
      var w' := Step(w, Release(id));
      forall x: nat ensures Flying(w', x) == Flying(w, x) - (if x == id then 1 else 0) &&
        Places(w', x) == Places(w, x) {
        Logged(w.released, id, x);
      }
    }
  }

  lemma InstallInv(w: World, id: nat, k: D.Holder, cloexec: bool)
    requires Inv(w)
    ensures Inv(Step(w, Install(id, k, cloexec)))
  {
    if id in w.hand && D.Accepts(w.files, D.Install(D.Flight(id), k, cloexec)) {
      HandOnly(w, id);
      InstallFlights(w.files, id, k, cloexec);
      var w' := Step(w, Install(id, k, cloexec));
      assert w'.hand == w.hand - multiset{id} && w'.net == w.net;
      forall x: nat ensures Flying(w', x) == Flying(w, x) - (if x == id then 1 else 0) &&
        Places(w', x) == Places(w, x) {
        Logged(w.installed, id, x);
      }
    }
  }

  lemma FilesInv(w: World, op: D.Op)
    requires Inv(w)
    ensures Inv(Step(w, Files(op)))
  {
    if Own(op) {
      D.StepInv(w.files, op);
      forall id: nat ensures D.Flight(id) in D.Step(w.files, op).held <==> D.Flight(id) in w.files.held {
        OwnFlights(w.files, op, id);
      }
      var w' := Step(w, Files(op));
      forall id: nat ensures Flying(w', id) == Flying(w, id) && Places(w', id) == Places(w, id) {
      }
    }
  }

  lemma StepInv(w: World, op: Op)
    requires Inv(w)
    ensures Inv(Step(w, op))
  {
    match op
    case Gather(h) => GatherInv(w, h);
    case Release(id) => ReleaseInv(w, id);
    case Install(id, k, cloexec) => InstallInv(w, id, k, cloexec);
    case Files(f) => FilesInv(w, f);
    case _ => SocketCallInv(w, op);
  }

  /** In every state of every run: the sets of a socket ride on different bytes that are queued there, every copy is in
      exactly one place, the tables' copies in flight are those in the pool and in hands, and no set to be released is
      left without a thread that will find it. */
  lemma {:induction false} RunInv(w: World, ops: seq<Op>)
    requires Inv(w)
    ensures Inv(Run(w, ops))
  {
    if ops != [] {
      RunInv(w, ops[..|ops| - 1]);
      StepInv(Run(w, ops[..|ops| - 1]), ops[|ops| - 1]);
    }
  }

  ghost predicate Boot(w: World) {
    && w.net.socks == map[] && |w.net.pool| == MAX_SETS && (forall j :: 0 <= j < MAX_SETS ==> !w.net.pool[j].used)
    && w.hand == multiset{} && w.sent == 0 && w.installed == [] && w.released == [] && D.Boot(w.files)
  }

  lemma {:induction false} PooledNone(pool: seq<Queued>, id: nat)
    requires forall j :: 0 <= j < |pool| ==> !pool[j].used
    ensures Pooled(pool, id) == 0
  {
    if pool != [] {
      PooledNone(pool[..|pool| - 1], id);
    }
  }

  lemma BootInv(w: World)
    requires Boot(w)
    ensures Inv(w)
  {
    forall id: nat ensures Pooled(w.net.pool, id) == 0 {
      PooledNone(w.net.pool, id);
    }
    D.BootInv(w.files);
  }

  /** From boot, without the invariant: of every copy made, exactly one thing is true in every state of every run. It
      has been installed once, it has been released once, or it is in flight once: in the pool or in a thread's hands,
      where the descriptor tables count it. And no two sets of one socket ride on the same byte. */
  lemma EndsOnce(w: World, ops: seq<Op>, id: nat, i: nat, rx: nat)
    requires Boot(w)
    ensures var v := Run(w, ops);
      && Distinct(v.net.pool, i, rx)
      && multiset(v.installed)[id] + multiset(v.released)[id] + Pooled(v.net.pool, id) + v.hand[id]
         == (if id < v.sent then 1 else 0)
      && (D.Flight(id) in v.files.held <==> Pooled(v.net.pool, id) + v.hand[id] == 1)
  {
    BootInv(w);
    RunInv(w, ops);
    var v := Run(w, ops);
    assert Places(v, id) == if id < v.sent then 1 else 0;
    NetDistinct(v.net, i, rx);
  }

  lemma {:induction false} PooledHas(pool: seq<Queued>, id: nat)
    ensures Pooled(pool, id) > 0 <==> exists j :: 0 <= j < |pool| && pool[j].used && id in pool[j].copies
  {
    if pool != [] {
      var most := pool[..|pool| - 1];
      PooledHas(most, id);
      if j :| 0 <= j < |most| && most[j].used && id in most[j].copies {
        assert pool[j] == most[j];
      }
      if j :| 0 <= j < |pool| && pool[j].used && id in pool[j].copies {
        assert j < |most| ==> most[j] == pool[j];
      }
    }
  }

  /** Nothing is left behind: once no thread has a set in hands or looks for one and none is announced, a copy is still
      in flight exactly when a socket is open for it, riding on a byte that is still to be read. With every socket
      closed, what was sent is what was installed and released, and the tables hold no copy in flight. */
  lemma QuietLeavesNothing(w: World, ops: seq<Op>, id: nat)
    requires Boot(w)
    ensures var v := Run(w, ops);
      v.hand == multiset{} && v.net.reapers == 0 && !v.net.flag ==>
        && (D.Flight(id) in v.files.held <==> exists j :: 0 <= j < |v.net.pool| && Live(v.net.pool[j]) &&
                                                          id in v.net.pool[j].copies)
        && (forall j :: 0 <= j < |v.net.pool| && v.net.pool[j].used ==>
              Live(v.net.pool[j]) && SlotOk(v.net.socks, v.net.pool[j]))
        && (v.net.socks == map[] ==>
              && D.Flight(id) !in v.files.held
              && multiset(v.installed)[id] + multiset(v.released)[id] == (if id < v.sent then 1 else 0))
  {
    BootInv(w);
    RunInv(w, ops);
    var v := Run(w, ops);
    assert Places(v, id) == if id < v.sent then 1 else 0;
    if v.hand == multiset{} && v.net.reapers == 0 && !v.net.flag {
      assert !AnyZombie(v.net.pool);
      PooledHas(v.net.pool, id);
      assert D.Flight(id) in v.files.held <==> Pooled(v.net.pool, id) > 0;
    }
  }
}
