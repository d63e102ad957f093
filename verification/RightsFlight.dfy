/** Descriptors in flight: sockets with bytes and sets queued on them, the pool of sets, the threads that hold a set in
    their hands, and the descriptor tables the copies come from and go to. `installed` and `released` log every copy
    that was put into a table or given back, `sent` counts the copies ever made; copy number `id` is `Flight(id)` of the
    descriptor machine. */
module RightsFlight {
  import opened Basics
  import opened RightsQueue
  import opened ByteRing
  import D = Descriptors

  const MAX_SETS: nat := 8
  const PREFIX: nat := 2

  /** `rx` counts the bytes ever read and `count` those queued; a message socket also knows where its records end. */
  datatype Sock = Sock(stream: bool, rx: nat, count: nat, recs: seq<nat>)

  /** `flag` says that there may be sets to release, `reapers` counts the threads looking for them. */
  datatype Net = Net(socks: map<nat, Sock>, pool: seq<Queued>, flag: bool, reapers: nat)

  datatype World =
    World(net: Net, hand: multiset<nat>, sent: nat, installed: seq<nat>, released: seq<nat>, files: D.State)

  datatype Op =
    | Socket(i: nat, stream: bool)
    | Gather(h: D.Holder)
    | Send(i: nat, len: nat, copies: seq<nat>)
    | Recv(i: nat, len: nat, wants: bool)
    | Close(i: nat)
    | ReapEnter
    | ReapTake
    | Release(id: nat)
    | Install(id: nat, k: D.Holder, cloexec: bool)
    | Files(op: D.Op)

  // ─── the pool ───

  function FreeSlot(pool: seq<Queued>): Option<nat> {
    if pool == [] then None
    else
      match FreeSlot(pool[..|pool| - 1])
      case Some(j) => Some(j)
      case None => if pool[|pool| - 1].used then None else Some(|pool| - 1)
  }

  function ZombieSlot(pool: seq<Queued>): Option<nat> {
    if pool == [] then None
    else
      match ZombieSlot(pool[..|pool| - 1])
      case Some(j) => Some(j)
      case None => if pool[|pool| - 1].used && pool[|pool| - 1].zombie then Some(|pool| - 1) else None
  }

  /** Sets of `owner` that lie before `rx` will never be delivered. */
  function Passed(pool: seq<Queued>, owner: nat, rx: nat): seq<Queued> {
    seq(|pool|, j requires 0 <= j < |pool| =>
      if pool[j].used && !pool[j].zombie && pool[j].owner == owner && pool[j].pos < rx then pool[j].(zombie := true)
      else pool[j])
  }

  function Orphaned(pool: seq<Queued>, owner: nat): seq<Queued> {
    seq(|pool|, j requires 0 <= j < |pool| =>
      if pool[j].used && !pool[j].zombie && pool[j].owner == owner then pool[j].(zombie := true) else pool[j])
  }

  predicate AnyZombie(pool: seq<Queued>) { exists j :: 0 <= j < |pool| && pool[j].used && pool[j].zombie }

  // ─── calls ───

  /** Bytes a send of `len` adds to the queue of its receiver: none when it does not fit. */
  function Arriving(k: Sock, len: nat): nat {
    if k.count > RING_SIZE then 0
    else if k.stream then Min(len, RING_SIZE - k.count)
    else if k.count + PREFIX + len <= RING_SIZE then PREFIX + len
    else 0
  }

  function SendCode(net: Net, i: nat, len: nat, carrying: bool): int {
    if i !in net.socks then -32
    else
      var k := net.socks[i];
      var n := Arriving(k, len);
      if !k.stream && PREFIX + len > RING_SIZE then -90
      else if n == 0 && (!k.stream || len > 0) then -11
      else if carrying && n > 0 && FreeSlot(net.pool).None? then -105
      else if k.stream then n
      else len
  }

  function Queue(net: Net, i: nat, len: nat, copies: seq<nat>): Net
    requires i in net.socks
  {
    var k := net.socks[i];
    var n := Arriving(k, len);
    var k' := k.(count := k.count + n, recs := if k.stream then k.recs else k.recs + [n]);
    var pool' :=
      match FreeSlot(net.pool)
      case Some(j) =>
        if copies != [] && j < |net.pool| then net.pool[j := Queued(true, false, i, k.rx + k.count, copies)]
          else net.pool
      case None => net.pool;
    net.(socks := net.socks[i := k'], pool := pool')
  }

  /** A set rides on at least one byte. */
  predicate Queues(net: Net, i: nat, len: nat, copies: seq<nat>) {
    i in net.socks && SendCode(net, i, len, copies != []) >= 0 && Arriving(net.socks[i], len) > 0
  }

  /** What one receive does: the bytes it consumes, and whether it hands over the set in `slot`. */
  datatype Reading = Reading(n: nat, deliver: bool, slot: nat)

  function ReadingOf(net: Net, i: nat, len: nat, wants: bool): Reading
    requires i in net.socks
  {
    var k := net.socks[i];
    var near := Scan(net.pool, i, k.rx);
    if k.stream then
      var plan := ReadPlan(len, near.first, near.second, wants);
      Reading(Min(plan.cap, k.count), plan.deliver, near.slot)
    else Reading(if k.recs == [] then k.count else Min(k.recs[0], k.count), wants && near.first == Some(0), near.slot)
  }

  function Received(net: Net, i: nat, len: nat, wants: bool): Net
    requires i in net.socks
  {
    var k := net.socks[i];
    var r := ReadingOf(net, i, len, wants);
    var k' := k.(rx := k.rx + r.n, count := k.count - r.n, recs := if k.recs == [] then [] else k.recs[1..]);
    var pool1 := if r.deliver && r.slot < |net.pool| then net.pool[r.slot := net.pool[r.slot].(used := false)]
      else net.pool;
    var pool2 := Passed(pool1, i, k.rx + r.n);
    net.(socks := net.socks[i := k'], pool := pool2, flag := net.flag || AnyZombie(pool2))
  }

  predicate Own(op: D.Op) {
    match op
    case Open(h, _, _) => h.Fd?
    case Dup(h, k, _) => h.Fd? && k.Fd?
    case Close(h) => h.Fd?
    case Fork(_, _) => true
    case Exit(_) => true
    case Seek(h, _) => h.Fd?
    case Read(h, _, _) => h.Fd?
    case Write(h, _, _) => h.Fd?
    case Pread(h, _, _, _) => h.Fd?
    case Pwrite(h, _, _) => h.Fd?
    case SetFlags(h, _) => h.Fd?
    case SetCloexec(h, _) => h.Fd?
    case _ => false
  }

  function Step(w: World, op: Op): World {
    match op
    case Socket(i, stream) =>
      if i in w.net.socks then w else w.(net := w.net.(socks := w.net.socks[i := Sock(stream, 0, 0, [])]))
    case Gather(h) =>
      if h.Fd? && h in w.files.held
      then w.(files := D.Step(w.files, D.Pass(h, D.Flight(w.sent))), hand := w.hand + multiset{w.sent},
        sent := w.sent + 1)
      else w
    case Send(i, len, copies) =>
      if multiset(copies) <= w.hand && Queues(w.net, i, len, copies)
      then w.(net := Queue(w.net, i, len, copies), hand := w.hand - multiset(copies))
      else w
    case Recv(i, len, wants) =>
      if i in w.net.socks && w.net.socks[i].count > 0 then
        var r := ReadingOf(w.net, i, len, wants);
        w.(net := Received(w.net, i, len, wants),
           hand := if r.deliver && r.slot < |w.net.pool| then w.hand + multiset(w.net.pool[r.slot].copies) else w.hand)
      else w
    case Close(i) =>
      if i in w.net.socks
      then w.(net := w.net.(socks := w.net.socks - {i}, pool := Orphaned(w.net.pool, i), flag := true))
      else w
    case ReapEnter => if w.net.flag then w.(net := w.net.(flag := false, reapers := w.net.reapers + 1)) else w
    case ReapTake =>
      if w.net.reapers == 0 then w
      else
        (match ZombieSlot(w.net.pool)
         case None => w.(net := w.net.(reapers := w.net.reapers - 1))
         case Some(j) =>
           if j < |w.net.pool|
           then w.(net := w.net.(pool := w.net.pool[j := w.net.pool[j].(used := false, zombie := false)]),
                   hand := w.hand + multiset(w.net.pool[j].copies))
           else w)
    case Release(id) =>
      if id in w.hand
      then w.(files := D.Step(w.files, D.Drop(D.Flight(id))), hand := w.hand - multiset{id},
        released := w.released + [id])
      else w
    case Install(id, k, cloexec) =>
      if id in w.hand && D.Accepts(w.files, D.Install(D.Flight(id), k, cloexec))
      then w.(files := D.Step(w.files, D.Install(D.Flight(id), k, cloexec)), hand := w.hand - multiset{id},
              installed := w.installed + [id])
      else w
    case Files(op) => if Own(op) then w.(files := D.Step(w.files, op)) else w
  }

  function Run(w: World, ops: seq<Op>): World {
    if ops == [] then w else Step(Run(w, ops[..|ops| - 1]), ops[|ops| - 1])
  }

  // ─── where the sets lie ───

  function Sum(s: seq<nat>): nat { if s == [] then 0 else s[0] + Sum(s[1..]) }

  lemma {:induction false} SumAppend(s: seq<nat>, n: nat)
    ensures Sum(s + [n]) == Sum(s) + n
  {
    if s != [] {
      SumAppend(s[1..], n);
      assert (s + [n])[1..] == s[1..] + [n];
    }
  }

  ghost predicate SockOk(k: Sock) {
    && k.count <= RING_SIZE
    && (if k.stream then k.recs == [] else k.count == Sum(k.recs) && forall j :: 0 <= j < |k.recs| ==>
      k.recs[j] >= PREFIX)
  }

  /** A position at which a record of the queue starts. */
  ghost predicate AtRecord(k: Sock, pos: nat) { exists m :: 0 <= m < |k.recs| && pos == k.rx + Sum(k.recs[..m]) }

  predicate Live(q: Queued) { q.used && !q.zombie }

  /** A set that can still be delivered belongs to an open socket and rides on a byte queued there. */
  ghost predicate SlotOk(socks: map<nat, Sock>, q: Queued) {
    Live(q) ==>
      && q.owner in socks
      && socks[q.owner].rx <= q.pos < socks[q.owner].rx + socks[q.owner].count
      && (socks[q.owner].stream || AtRecord(socks[q.owner], q.pos))
  }

  ghost predicate Apart(pool: seq<Queued>) {
    forall a, b :: 0 <= a < b < |pool| && Live(pool[a]) && Live(pool[b]) && pool[a].owner == pool[b].owner ==>
      pool[a].pos != pool[b].pos
  }

  ghost predicate NetOk(net: Net) {
    && |net.pool| == MAX_SETS
    && (forall i :: i in net.socks ==> SockOk(net.socks[i]))
    && (forall j :: 0 <= j < |net.pool| ==> SlotOk(net.socks, net.pool[j]))
    && Apart(net.pool)
    && (AnyZombie(net.pool) ==> net.flag || net.reapers > 0)
  }

  lemma NetDistinct(net: Net, i: nat, rx: nat)
    requires NetOk(net)
    ensures Distinct(net.pool, i, rx)
  {
  }

  lemma {:induction false} FreeSlotIs(pool: seq<Queued>)
    ensures FreeSlot(pool).Some? ==> FreeSlot(pool).value < |pool| && !pool[FreeSlot(pool).value].used
    ensures FreeSlot(pool).None? ==> forall j :: 0 <= j < |pool| ==> pool[j].used
  {
    if pool != [] {
      FreeSlotIs(pool[..|pool| - 1]);
    }
  }

  lemma {:induction false} ZombieSlotIs(pool: seq<Queued>)
    ensures ZombieSlot(pool).Some? ==>
      ZombieSlot(pool).value < |pool| && pool[ZombieSlot(pool).value].used && pool[ZombieSlot(pool).value].zombie
    ensures ZombieSlot(pool).None? ==> !AnyZombie(pool)
  {
    if pool != [] {
      ZombieSlotIs(pool[..|pool| - 1]);
    }
  }

  lemma RecordsPopped(k: Sock, k': Sock, pos: nat)
    requires !k.stream && SockOk(k) && k.recs != [] && AtRecord(k, pos)
    requires k' == k.(rx := k.rx + k.recs[0], count := k.count - k.recs[0], recs := k.recs[1..])
    ensures pos == k.rx || (pos >= k'.rx && AtRecord(k', pos))
  {
    var m :| 0 <= m < |k.recs| && pos == k.rx + Sum(k.recs[..m]);
    if m > 0 {
      assert k.recs[..m][1..] == k.recs[1..][..m - 1];
      assert pos == k'.rx + Sum(k'.recs[..m - 1]);
    }
  }

  lemma RecordsPushed(k: Sock, k': Sock, n: nat)
    requires !k.stream && SockOk(k) && k' == k.(count := k.count + n, recs := k.recs + [n])
    ensures k'.count == Sum(k'.recs) && AtRecord(k', k.rx + k.count)
    ensures forall pos :: AtRecord(k, pos) ==> AtRecord(k', pos)
  {
    SumAppend(k.recs, n);
    assert k'.recs[..|k.recs|] == k.recs;
    assert k.rx + k.count == k'.rx + Sum(k'.recs[..|k.recs|]);
    forall pos | AtRecord(k, pos) ensures AtRecord(k', pos) {
      var m :| 0 <= m < |k.recs| && pos == k.rx + Sum(k.recs[..m]);
      assert k'.recs[..m] == k.recs[..m];
    }
  }

  lemma QueueSlotOk(net: Net, i: nat, len: nat, copies: seq<nat>, j: nat)
    requires NetOk(net) && Queues(net, i, len, copies) && j < MAX_SETS
    ensures var net' := Queue(net, i, len, copies); |net'.pool| == MAX_SETS && SlotOk(net'.socks, net'.pool[j])
  {
    var k, k' := net.socks[i], Queue(net, i, len, copies).socks[i];
    if !k.stream {
      RecordsPushed(k, k', Arriving(k, len));
    }
    FreeSlotIs(net.pool);
    assert SlotOk(net.socks, net.pool[j]);
  }

  lemma QueueApart(net: Net, i: nat, len: nat, copies: seq<nat>)
    requires NetOk(net) && Queues(net, i, len, copies)
    ensures Apart(Queue(net, i, len, copies).pool)
  {
    var net' := Queue(net, i, len, copies);
    FreeSlotIs(net.pool);
    forall a, b | 0 <= a < b < |net'.pool| && Live(net'.pool[a]) && Live(net'.pool[b]) &&
                  net'.pool[a].owner == net'.pool[b].owner
      ensures net'.pool[a].pos != net'.pool[b].pos
    {
      assert SlotOk(net.socks, net.pool[a]) && SlotOk(net.socks, net.pool[b]);
    }
  }

  lemma QueueOk(net: Net, i: nat, len: nat, copies: seq<nat>)
    requires NetOk(net) && Queues(net, i, len, copies)
    ensures NetOk(Queue(net, i, len, copies))
  {
    var net' := Queue(net, i, len, copies);
    QueueApart(net, i, len, copies);
    forall j: nat | j < MAX_SETS ensures |net'.pool| == MAX_SETS && SlotOk(net'.socks, net'.pool[j]) {
      QueueSlotOk(net, i, len, copies, j);
    }
    var k := net.socks[i];
    if !k.stream {
      RecordsPushed(k, net'.socks[i], Arriving(k, len));
    }
    FreeSlotIs(net.pool);
    assert AnyZombie(net'.pool) ==> AnyZombie(net.pool) by {
      if AnyZombie(net'.pool) {
        var j :| 0 <= j < |net'.pool| && net'.pool[j].used && net'.pool[j].zombie;
        assert net.pool[j] == net'.pool[j];
      }
    }
  }

  /** The bytes a receive consumes, seen from the queue. */
  lemma ReadingFits(net: Net, i: nat, len: nat, wants: bool)
    requires NetOk(net) && i in net.socks && net.socks[i].count > 0
    ensures var k, r := net.socks[i], ReadingOf(net, i, len, wants);
      && r.n <= k.count
      && (!k.stream ==> k.recs != [] && r.n == k.recs[0] >= PREFIX)
      && (r.deliver ==> r.slot < |net.pool| && Live(net.pool[r.slot]) && net.pool[r.slot].owner == i &&
                        net.pool[r.slot].pos == k.rx)
      && (r.deliver <==> wants && exists j :: 0 <= j < |net.pool| && Live(net.pool[j]) && net.pool[j].owner == i &&
                                              net.pool[j].pos == k.rx)
  {
    var k := net.socks[i];
    NetDistinct(net, i, k.rx);
    ScanIs(net.pool, i, k.rx);
    var near := Scan(net.pool, i, k.rx);
    if j :| 0 <= j < |net.pool| && Live(net.pool[j]) && net.pool[j].owner == i && net.pool[j].pos == k.rx {
      assert Waits(net.pool[j], i, k.rx);
      assert k.rx in Positions(net.pool, i, k.rx);
      assert near.first == Some(0);
    }
  }

  /** What a receive does to each set of its socket that could still be delivered: with control data asked for, the set
      on the first byte read is handed over and no other is touched; without, every set whose byte is read is given up.
      */
  lemma ReceiveExactly(net: Net, i: nat, len: nat, wants: bool, j: nat)
    requires NetOk(net) && i in net.socks && net.socks[i].count > 0 && j < MAX_SETS
    requires Live(net.pool[j]) && net.pool[j].owner == i
    ensures var r, net', q := ReadingOf(net, i, len, wants), Received(net, i, len, wants), net.pool[j];
      && |net'.pool| == MAX_SETS
      && (r.deliver && r.slot == j <==> wants && q.pos == net.socks[i].rx)
      && net'.pool[j] == (if wants && q.pos == net.socks[i].rx then q.(used := false)
                          else if q.pos < net'.socks[i].rx then q.(zombie := true) else q)
      && (net'.pool[j] == q.(zombie := true) ==> !wants)
  {
    var k, q := net.socks[i], net.pool[j];
    var r := ReadingOf(net, i, len, wants);
    ReadingFits(net, i, len, wants);
    NetDistinct(net, i, k.rx);
    ScanIs(net.pool, i, k.rx);
    assert SlotOk(net.socks, q);
    assert Waits(q, i, k.rx) && q.pos in Positions(net.pool, i, k.rx);
    if wants && q.pos != k.rx {
      NotPassed(net, i, len, j);
    }
  }

  /** A receive that asks for control data never runs past another set. */
  lemma NotPassed(net: Net, i: nat, len: nat, j: nat)
    requires NetOk(net) && i in net.socks && net.socks[i].count > 0 && j < MAX_SETS
    requires Live(net.pool[j]) && net.pool[j].owner == i && net.pool[j].pos != net.socks[i].rx
    ensures net.pool[j].pos >= net.socks[i].rx + ReadingOf(net, i, len, true).n
  {
    var k, q := net.socks[i], net.pool[j];
    var near, s := Scan(net.pool, i, k.rx), Positions(net.pool, i, k.rx);
    ReadingFits(net, i, len, true);
    NetDistinct(net, i, k.rx);
    ScanIs(net.pool, i, k.rx);
    assert SlotOk(net.socks, q);
    assert Waits(q, i, k.rx) && q.pos in s;
    if k.stream {
      PlanPassesNothing(s, k.rx, len, near.first, near.second, ReadingOf(net, i, len, true).n);
    } else {
      RecordsPopped(k, k.(rx := k.rx + k.recs[0], count := k.count - k.recs[0], recs := k.recs[1..]), q.pos);
    }
  }

  lemma ReceivedSlotOk(net: Net, i: nat, len: nat, wants: bool, j: nat)
    requires NetOk(net) && i in net.socks && net.socks[i].count > 0 && j < MAX_SETS
    ensures var net' := Received(net, i, len, wants); |net'.pool| == MAX_SETS && SlotOk(net'.socks, net'.pool[j])
  {
    var k, q := net.socks[i], net.pool[j];
    ReadingFits(net, i, len, wants);
    assert SlotOk(net.socks, q);
    if Live(q) && q.owner == i {
      ReceiveExactly(net, i, len, wants, j);
      if !k.stream {
        RecordsPopped(k, Received(net, i, len, wants).socks[i], q.pos);
      }
    }
  }

  lemma ReceivedOk(net: Net, i: nat, len: nat, wants: bool)
    requires NetOk(net) && i in net.socks && net.socks[i].count > 0
    ensures NetOk(Received(net, i, len, wants))
  {
    var net' := Received(net, i, len, wants);
    ReadingFits(net, i, len, wants);
    forall j: nat | j < MAX_SETS ensures |net'.pool| == MAX_SETS && SlotOk(net'.socks, net'.pool[j]) {
      ReceivedSlotOk(net, i, len, wants, j);
    }
    FewerLive(net.pool, net'.pool);
  }

  /** Sets only leave: positions stay apart. */
  lemma FewerLive(pool: seq<Queued>, pool': seq<Queued>)
    requires Apart(pool) && |pool'| == |pool|
    requires forall j :: 0 <= j < |pool| && Live(pool'[j]) ==> pool'[j] == pool[j]
    ensures Apart(pool')
  {
    forall a, b | 0 <= a < b < |pool'| && Live(pool'[a]) && Live(pool'[b]) && pool'[a].owner == pool'[b].owner
      ensures pool'[a].pos != pool'[b].pos
    {
      assert pool'[a] == pool[a] && pool'[b] == pool[b];
    }
  }

  lemma ClosedOk(net: Net, i: nat)
    requires NetOk(net)
    ensures NetOk(net.(socks := net.socks - {i}, pool := Orphaned(net.pool, i), flag := true))
  {
    var net' := net.(socks := net.socks - {i}, pool := Orphaned(net.pool, i), flag := true);
    forall j | 0 <= j < |net.pool| ensures SlotOk(net'.socks, net'.pool[j]) {
      assert SlotOk(net.socks, net.pool[j]);
    }
    FewerLive(net.pool, net'.pool);
  }

  lemma ReapedOk(net: Net)
    requires NetOk(net) && net.reapers > 0
    ensures match ZombieSlot(net.pool)
      case None => NetOk(net.(reapers := net.reapers - 1))
      case Some(j) => j < |net.pool| && NetOk(net.(pool := net.pool[j := net.pool[j].(used := false, zombie := false)]))
  {
    ZombieSlotIs(net.pool);
    match ZombieSlot(net.pool)
    case None =>
    case Some(j) => FewerLive(net.pool, net.pool[j := net.pool[j].(used := false, zombie := false)]);
  }

  lemma OpenedOk(net: Net, i: nat, stream: bool)
    requires NetOk(net) && i !in net.socks
    ensures NetOk(net.(socks := net.socks[i := Sock(stream, 0, 0, [])]))
  {
    var net' := net.(socks := net.socks[i := Sock(stream, 0, 0, [])]);
    forall j | 0 <= j < |net.pool| ensures SlotOk(net'.socks, net'.pool[j]) {
      assert SlotOk(net.socks, net.pool[j]);
    }
  }

  lemma StepNet(w: World, op: Op)
    requires NetOk(w.net)
    ensures NetOk(Step(w, op).net)
  {
    match op
    case Socket(i, stream) =>
      if i !in w.net.socks {
        OpenedOk(w.net, i, stream);
      }
    case Send(i, len, copies) =>
      if Queues(w.net, i, len, copies) {
        QueueOk(w.net, i, len, copies);
      }
    case Recv(i, len, wants) =>
      if i in w.net.socks && w.net.socks[i].count > 0 {
        ReceivedOk(w.net, i, len, wants);
      }
    case Close(i) => ClosedOk(w.net, i);
    case ReapTake =>
      if w.net.reapers > 0 {
        ReapedOk(w.net);
      }
    case _ =>
  }
}
