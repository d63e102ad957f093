/** A connected pair of AF_UNIX stream sockets: what every interleaving of sends, receives, peeks, shutdowns and closes
    keeps. `sent` and `got` record the bytes accepted from and delivered to an end. */
module StreamPair {
  import opened Basics
  import opened ByteRing

  datatype Side = A | B
  datatype End = End(queue: seq<int>, open: bool, shutRd: bool, shutWr: bool, sent: seq<int>, got: seq<int>)
  datatype Pair = Pair(a: End, b: End)

  datatype Op =
    | Send(s: Side, data: seq<int>)
    | Recv(s: Side, len: nat)
    | Peek(s: Side, len: nat)
    | Shutdown(s: Side, how: nat)
    | Close(s: Side)

  function Other(s: Side): Side { if s == A then B else A }

  function At(p: Pair, s: Side): End { if s == A then p.a else p.b }

  function Put(p: Pair, s: Side, e: End): Pair { if s == A then p.(a := e) else p.(b := e) }

  /** An empty queue reads as end of file: no byte can arrive any more. */
  predicate NoMore(p: Pair, s: Side) { !At(p, Other(s)).open || At(p, s).shutRd || At(p, Other(s)).shutWr }

  predicate SendBroken(p: Pair, s: Side) { !At(p, Other(s)).open || At(p, s).shutWr || At(p, Other(s)).shutRd }

  function Room(p: Pair, s: Side): nat {
    var q := At(p, Other(s)).queue;
    if |q| <= RING_SIZE then RING_SIZE - |q| else 0
  }

  /** One attempt: bytes moved, or a negative errno. */
  function Result(p: Pair, op: Op): int {
    var e := At(p, op.s);
    if !e.open then -9
    else
      match op
      case Send(s, data) =>
        if SendBroken(p, s) then -32
        else if |data| > 0 && Room(p, s) == 0 then -11
        else Min(|data|, Room(p, s))
      case Recv(s, len) => if e.queue == [] then (if NoMore(p, s) then 0 else -11) else Min(len, |e.queue|)
      case Peek(s, len) => if e.queue == [] then (if NoMore(p, s) then 0 else -11) else Min(len, |e.queue|)
      case Shutdown(s, how) => if how > 2 then -22 else if !At(p, Other(s)).open then -107 else 0
      case Close(_) => 0
  }

  function Step(p: Pair, op: Op): Pair {
    var r := Result(p, op);
    if r < 0 then p
    else
      match op
      case Send(s, data) => if r <= |data| then Delivered(p, s, data[..r]) else p
      case Recv(s, _) =>
        var e := At(p, s);
        if r <= |e.queue| then Put(p, s, e.(queue := e.queue[r..], got := e.got + e.queue[..r])) else p
      case Peek(_, _) => p
      case Shutdown(s, how) =>
        Put(p, s, At(p, s).(shutRd := At(p, s).shutRd || how != 1, shutWr := At(p, s).shutWr || how != 0))
      case Close(s) => Put(p, s, At(p, s).(open := false, queue := []))
  }

  function Delivered(p: Pair, s: Side, d: seq<int>): Pair {
    var o := At(p, Other(s));
    var p1 := Put(p, Other(s), o.(queue := o.queue + d));
    Put(p1, s, At(p1, s).(sent := At(p1, s).sent + d))
  }

  function Run(p: Pair, ops: seq<Op>): Pair {
    if ops == [] then p else Step(Run(p, ops[..|ops| - 1]), ops[|ops| - 1])
  }

  // ─── conservation ───

  /** Into an open end: what was accepted is what was delivered followed by what is queued, in order, within the ring.
      */
  ghost predicate Conserved(p: Pair, s: Side) {
    |At(p, s).queue| <= RING_SIZE && (At(p, s).open ==> At(p, Other(s)).sent == At(p, s).got + At(p, s).queue)
  }

  ghost predicate Inv(p: Pair) { Conserved(p, A) && Conserved(p, B) }

  lemma DeliveredInv(p: Pair, s: Side, d: seq<int>)
    requires Inv(p) && |At(p, Other(s)).queue| + |d| <= RING_SIZE
    ensures Inv(Delivered(p, s, d))
  {
    var o := At(p, Other(s));
    assert o.got + (o.queue + d) == o.got + o.queue + d;
  }

  lemma TakenInv(p: Pair, s: Side, r: nat)
    requires Inv(p) && r <= |At(p, s).queue|
    ensures var e := At(p, s); Inv(Put(p, s, e.(queue := e.queue[r..], got := e.got + e.queue[..r])))
  {
    var e := At(p, s);
    assert e.got + e.queue[..r] + e.queue[r..] == e.got + e.queue;
  }

  lemma StepInv(p: Pair, op: Op)
    requires Inv(p)
    ensures Inv(Step(p, op))
  {
    var r := Result(p, op);
    if r >= 0 {
      match op
      case Send(s, data) =>
        if r <= |data| {
          DeliveredInv(p, s, data[..r]);
        }
      case Recv(s, _) =>
        if r <= |At(p, s).queue| {
          TakenInv(p, s, r);
        }
      case _ =>
    }
  }

  /** In every state of every run. */
  lemma {:induction false} RunInv(p: Pair, ops: seq<Op>)
    requires Inv(p)
    ensures Inv(Run(p, ops))
  {
    if ops != [] {
      RunInv(p, ops[..|ops| - 1]);
      StepInv(Run(p, ops[..|ops| - 1]), ops[|ops| - 1]);
    }
  }

  function FreshPair(): Pair {
    var e := End([], true, false, false, [], []);
    Pair(e, e)
  }

  /** From a fresh pair, without the invariant: what an open end has received so far is a prefix of what its peer sent,
      and what is missing is what is queued. */
  lemma FromFresh(ops: seq<Op>, s: Side)
    ensures var p := Run(FreshPair(), ops);
      At(p, s).open ==>
        At(p, s).got <= At(p, Other(s)).sent && At(p, Other(s)).sent[|At(p, s).got|..] == At(p, s).queue
  {
    RunInv(FreshPair(), ops);
    var p := Run(FreshPair(), ops);
    assert Conserved(p, s);
  }

  /** The sender's queued-byte count: accepted minus delivered. */
  function OutQueue(p: Pair, s: Side): nat {
    if At(p, s).open && At(p, Other(s)).open then |At(p, Other(s)).queue| else 0
  }

  lemma OutQueueIsUnread(p: Pair, ops: seq<Op>, s: Side)
    requires Inv(p)
    ensures var q := Run(p, ops);
      At(q, s).open && At(q, Other(s)).open ==> OutQueue(q, s) == |At(q, s).sent| - |At(q, Other(s)).got|
  {
    RunInv(p, ops);
  }

  /** A peek changes nothing and shows what the next receive of the same size takes. */
  lemma PeekShowsNext(p: Pair, s: Side, len: nat)
    ensures Step(p, Peek(s, len)) == p && Result(p, Peek(s, len)) == Result(p, Recv(s, len))
    ensures Result(p, Peek(s, len)) >= 0 ==>
      At(Step(p, Recv(s, len)), s).got == At(p, s).got + At(p, s).queue[..Min(len, |At(p, s).queue|)]
  {
  }

  // ─── end of file ───

  predicate Suffix(x: seq<int>, y: seq<int>) { |x| <= |y| && x == y[|y| - |x|..] }

  lemma SuffixTrans(x: seq<int>, y: seq<int>, z: seq<int>)
    requires Suffix(x, y) && Suffix(y, z)
    ensures Suffix(x, z)
  {
  }

  /** Once nothing can follow, nothing does: the sender's accepted bytes never grow again in any run and the queue only
      drains, so after the drain every receive reports end of file for ever. */
  lemma {:induction false} NoMoreForever(p: Pair, ops: seq<Op>, s: Side)
    requires NoMore(p, s)
    ensures NoMore(Run(p, ops), s) && At(Run(p, ops), Other(s)).sent == At(p, Other(s)).sent
    ensures Suffix(At(Run(p, ops), s).queue, At(p, s).queue)
  {
    if ops != [] {
      var most := Run(p, ops[..|ops| - 1]);
      NoMoreForever(p, ops[..|ops| - 1], s);
      ShrinksOnly(most, ops[|ops| - 1], s);
      SuffixTrans(At(Run(p, ops), s).queue, At(most, s).queue, At(p, s).queue);
    }
  }

  lemma SendShrinksOnly(p: Pair, x: Side, data: seq<int>, s: Side)
    requires NoMore(p, s)
    ensures var p' := Step(p, Send(x, data));
      NoMore(p', s) && At(p', Other(s)).sent == At(p, Other(s)).sent && At(p', s).queue == At(p, s).queue
  {
    if x == Other(s) {
      assert Result(p, Send(x, data)) < 0;
    }
  }

  lemma RecvShrinksOnly(p: Pair, x: Side, len: nat, s: Side)
    requires NoMore(p, s)
    ensures var p' := Step(p, Recv(x, len));
      NoMore(p', s) && At(p', Other(s)).sent == At(p, Other(s)).sent && Suffix(At(p', s).queue, At(p, s).queue)
  {
  }

  lemma ShrinksOnly(p: Pair, op: Op, s: Side)
    requires NoMore(p, s)
    ensures NoMore(Step(p, op), s) && At(Step(p, op), Other(s)).sent == At(p, Other(s)).sent
    ensures Suffix(At(Step(p, op), s).queue, At(p, s).queue)
  {
    match op
    case Send(x, data) => SendShrinksOnly(p, x, data, s);
    case Recv(x, len) => RecvShrinksOnly(p, x, len, s);
    case _ =>
  }

  /** End of file is the end: in any run from a fresh pair, a receive reports it exactly when every byte the peer got
      accepted has been delivered and none can follow. Then that stays so in every later state while the end is open,
      and every later receive reports it too. */
  lemma EofMeansAllDelivered(ops: seq<Op>, s: Side, len: nat, later: seq<Op>, len': nat)
    requires len > 0 && At(Run(FreshPair(), ops), s).open
    ensures var p := Run(FreshPair(), ops);
      && (Result(p, Recv(s, len)) == 0 <==> NoMore(p, s) && At(p, s).got == At(p, Other(s)).sent)
      && (Result(p, Recv(s, len)) == 0 && At(Run(p, later), s).open ==>
            && Result(Run(p, later), Recv(s, len')) == 0
            && At(Run(p, later), s).got == At(Run(p, later), Other(s)).sent == At(p, Other(s)).sent)
  {
    var p := Run(FreshPair(), ops);
    RunInv(FreshPair(), ops);
    assert Conserved(p, s);
    if Result(p, Recv(s, len)) == 0 {
      NoMoreForever(p, later, s);
      RunInv(p, later);
      assert Conserved(Run(p, later), s);
    }
  }

  /** Shutting one direction leaves the other alone: what `s` can still receive, and what its peer can still send, is
      not affected by `s` shutting its write side. */
  lemma HalfCloseIsHalf(p: Pair, s: Side)
    requires At(p, s).open && At(p, Other(s)).open
    ensures var q := Step(p, Shutdown(s, 1));
      && NoMore(q, Other(s)) && SendBroken(q, s)
      && (NoMore(q, s) <==> NoMore(p, s)) && (SendBroken(q, Other(s)) <==> SendBroken(p, Other(s)))
      && At(q, s).queue == At(p, s).queue && At(q, Other(s)).queue == At(p, Other(s)).queue
  {
  }

  // ─── the write loop ───

  datatype WriteStep = Done | Again | Wait | Partial | Fail

  function WriteProgress(total: nat, done: nat, result: int, nonblock: bool): WriteStep {
    if total == 0 then Done
    else if result > 0 then (if done + result >= total then Done else if nonblock then Partial else Again)
    else if result == -11 then (if nonblock then (if done > 0 then Partial else Fail) else Wait)
    else if done > 0 then Partial
    else Fail
  }

  /** How a wait for room ends: other tasks' steps and then a wake-up, a signal or the loss of the socket, or the
      timeout. */
  datatype Wake = Woken(others: seq<Op>) | Signalled(others: seq<Op>) | Vanished(others: seq<Op>) | TimedOut

  datatype Outcome = Returned(r: int) | StillBlocked

  /** Nobody else writes to this end meanwhile. */
  ghost predicate OnlyWriter(wakes: seq<Wake>, s: Side) {
    forall i :: 0 <= i < |wakes| && !wakes[i].TimedOut? ==> NoSend(wakes[i].others, s)
  }

  ghost predicate NoSend(ops: seq<Op>, s: Side) { forall op :: op in ops ==> !(op.Send? && op.s == s) }

  lemma {:induction false} SentKept(p: Pair, ops: seq<Op>, s: Side)
    requires NoSend(ops, s)
    ensures At(Run(p, ops), s).sent == At(p, s).sent
  {
    if ops != [] {
      SentKept(p, ops[..|ops| - 1], s);
      assert ops[|ops| - 1] in ops;
    }
  }

  /** What the call reports, the bytes it put on the stream, and the pair it leaves. */
  datatype Written = Written(out: Outcome, done: nat, p: Pair)

  /** One attempt to send what is left: what it moved, what the loop does next, the bytes sent by then, the pair. */
  datatype Attempt = Attempt(result: int, next: WriteStep, done: nat, p: Pair)

  function Try(p: Pair, s: Side, data: seq<int>, done: nat, nonblock: bool): (t: Attempt)
    requires done <= |data|
    ensures done <= t.done <= |data| && (t.next == Again ==> t.done > done) && (t.next == Wait ==> t.done == done)
    ensures t.next.Done? ==> t.done == |data|
    ensures t.next == Partial ==> t.done > 0
    ensures t.next == Fail ==> t.result < 0 && t.done == done == 0
  {
    var result := Result(p, Send(s, data[done..]));
    Attempt(result, WriteProgress(|data|, done, result, nonblock), if result > 0 then done + result else done,
            Step(p, Send(s, data[done..])))
  }

  /** The loop with `done` bytes sent and `wakes` still to come. */
  function Writing(p: Pair, s: Side, data: seq<int>, done: nat, nonblock: bool, wakes: seq<Wake>): Written
    requires done <= |data|
    decreases |wakes|, |data| - done
  {
    var t := Try(p, s, data, done, nonblock);
    match t.next
    case Done => Written(Returned(t.done), t.done, t.p)
    case Partial => Written(Returned(t.done), t.done, t.p)
    case Fail => Written(Returned(t.result), t.done, t.p)
    case Again => Writing(t.p, s, data, t.done, nonblock, wakes)
    case Wait =>
      if wakes == [] then Written(StillBlocked, t.done, t.p)
      else
        match wakes[0]
        case TimedOut => Written(Returned(if t.done > 0 then t.done else -11), t.done, t.p)
        case Signalled(others) => Written(Returned(-4), t.done, Run(t.p, others))
        case Vanished(others) => Written(Returned(-9), t.done, Run(t.p, others))
        case Woken(others) => Writing(Run(t.p, others), s, data, t.done, nonblock, wakes[1..])
  }

  lemma TryKeeps(p: Pair, s: Side, data: seq<int>, done: nat, nonblock: bool)
    requires Inv(p) && done <= |data|
    ensures var t := Try(p, s, data, done, nonblock);
      Inv(t.p) && (t.next == Partial && !nonblock && t.done < |data| ==> SendBroken(t.p, s) || !At(t.p, s).open)
  {
    StepInv(p, Send(s, data[done..]));
  }

  predicate Interrupts(w: Wake) { w.Signalled? || w.Vanished? }

  lemma SentGrows(p: Pair, s: Side, data: seq<int>, done: nat, nonblock: bool, was: seq<int>)
    requires done <= |data| && At(p, s).sent == was + data[..done]
    ensures var t := Try(p, s, data, done, nonblock);
      At(t.p, s).sent == was + data[..t.done]
  {
    var r := Result(p, Send(s, data[done..]));
    if r >= 0 {
      assert data[done..][..r] == data[done..done + r];
      assert was + data[..done] + data[done..done + r] == was + data[..done + r];
    }
  }

  /** The bytes put on the stream are a prefix of `data`, in order, and the pair keeps its books. */
  lemma {:induction false} WritesPrefix(p: Pair, s: Side, data: seq<int>, done: nat, nonblock: bool, wakes: seq<Wake>,
                                        was: seq<int>)
    requires Inv(p) && done <= |data| && OnlyWriter(wakes, s) && At(p, s).sent == was + data[..done]
    ensures var w := Writing(p, s, data, done, nonblock, wakes);
      Inv(w.p) && done <= w.done <= |data| && At(w.p, s).sent == was + data[..w.done]
    decreases |wakes|, |data| - done
  {
    var t := Try(p, s, data, done, nonblock);
    TryKeeps(p, s, data, done, nonblock);
    SentGrows(p, s, data, done, nonblock, was);
    if t.next == Again {
      WritesPrefix(t.p, s, data, t.done, nonblock, wakes, was);
    } else if t.next == Wait && wakes != [] && !wakes[0].TimedOut? {
      SentKept(t.p, wakes[0].others, s);
      RunInv(t.p, wakes[0].others);
      if wakes[0].Woken? {
        assert OnlyWriter(wakes[1..], s);
        WritesPrefix(Run(t.p, wakes[0].others), s, data, t.done, nonblock, wakes[1..], was);
      }
    }
  }

  /** A wait that does not end with room. */
  predicate Disturbed(wakes: seq<Wake>) { exists k :: 0 <= k < |wakes| && !wakes[k].Woken? }

  /** Whoever else writes: the books are kept, a count reported is the count sent, an error leaves something unsent, and
      a blocking call that reports fewer bytes than asked met a broken stream, its timeout or an interruption. */
  lemma {:induction false} WriteReports(p: Pair, s: Side, data: seq<int>, done: nat, nonblock: bool, wakes: seq<Wake>)
    requires Inv(p) && done <= |data|
    ensures var w := Writing(p, s, data, done, nonblock, wakes);
      && Inv(w.p) && done <= w.done <= |data|
      && (w.out.Returned? && w.out.r >= 0 ==> w.out.r == w.done)
      && (!nonblock && w.out.Returned? && 0 <= w.out.r < |data| ==>
            SendBroken(w.p, s) || !At(w.p, s).open || TimedOut in wakes)
      && (w.out.Returned? && w.out.r < 0 ==> w.done < |data|)
      && (!nonblock && w.out.Returned? && w.out.r < 0 ==>
            SendBroken(w.p, s) || !At(w.p, s).open || Disturbed(wakes))
    decreases |wakes|, |data| - done
  {
    var t := Try(p, s, data, done, nonblock);
    TryKeeps(p, s, data, done, nonblock);
    if t.next == Again {
      WriteReports(t.p, s, data, t.done, nonblock, wakes);
    } else if t.next == Wait && wakes != [] && !wakes[0].TimedOut? {
      RunInv(t.p, wakes[0].others);
      if wakes[0].Woken? {
        WriteReports(Run(t.p, wakes[0].others), s, data, t.done, nonblock, wakes[1..]);
        assert Disturbed(wakes[1..]) ==> Disturbed(wakes) by {
          if k :| 0 <= k < |wakes[1..]| && !wakes[1..][k].Woken? {
            assert !wakes[k + 1].Woken?;
          }
        }
      }
    }
  }

  /** A non-blocking write is one attempt. */
  lemma NonblockingIsOneAttempt(p: Pair, s: Side, data: seq<int>, wakes: seq<Wake>)
    ensures var w := Writing(p, s, data, 0, true, wakes);
      && w.p == Step(p, Send(s, data))
      && (data != [] ==> w.out == Returned(Result(p, Send(s, data))))
  {
    assert data[0..] == data;
  }

  /** The first `k` wake-ups end with the writer parked again, some bytes sent. */
  ghost predicate ParkedWithBytes(p: Pair, s: Side, data: seq<int>, done: nat, nonblock: bool, wakes: seq<Wake>, k: nat)
    requires done <= |data|
  {
    k < |wakes| && (var w := Writing(p, s, data, done, nonblock, wakes[..k]); w.out == StillBlocked && w.done > 0)
  }

  lemma ParkedShift(p: Pair, s: Side, data: seq<int>, done: nat, nonblock: bool, wakes: seq<Wake>, k: nat)
    requires done <= |data| && 0 < k < |wakes| && wakes[0].Woken?
    ensures var t := Try(p, s, data, done, nonblock);
      t.next == Wait ==>
        (ParkedWithBytes(p, s, data, done, nonblock, wakes, k) <==>
         ParkedWithBytes(Run(t.p, wakes[0].others), s, data, done, nonblock, wakes[1..], k - 1))
  {
    assert wakes[..k][0] == wakes[0] && wakes[..k][1..] == wakes[1..][..k - 1];
  }

  /** The call reports something else than the bytes it sent, although it sent some, exactly when a signal or the loss
      of the socket ends a wait in which bytes had already gone out. It then reports -4 or -9. */
  lemma {:induction false} InterruptedExactly(p: Pair, s: Side, data: seq<int>, done: nat, nonblock: bool,
                                              wakes: seq<Wake>)
    requires done <= |data|
    ensures var w := Writing(p, s, data, done, nonblock, wakes);
      (w.out.Returned? && w.done > 0 && w.out.r != w.done) <==>
      exists k :: 0 <= k < |wakes| && Interrupts(wakes[k]) && ParkedWithBytes(p, s, data, done, nonblock, wakes, k)
    decreases |wakes|, |data| - done
  {
    var t := Try(p, s, data, done, nonblock);
    if t.next == Again {
      InterruptedExactly(t.p, s, data, t.done, nonblock, wakes);
      forall k: nat
        ensures ParkedWithBytes(p, s, data, done, nonblock, wakes, k)
           <==> ParkedWithBytes(t.p, s, data, t.done, nonblock, wakes, k)
      {
      }
    } else if t.next == Wait && wakes != [] {
      InterruptedAtWait(p, s, data, done, nonblock, wakes);
    }
  }

  lemma {:induction false} InterruptedAtWait(p: Pair, s: Side, data: seq<int>, done: nat, nonblock: bool,
                                             wakes: seq<Wake>)
    requires done <= |data| && wakes != [] && Try(p, s, data, done, nonblock).next == Wait
    ensures var w := Writing(p, s, data, done, nonblock, wakes);
      (w.out.Returned? && w.done > 0 && w.out.r != w.done) <==>
      exists k :: 0 <= k < |wakes| && Interrupts(wakes[k]) && ParkedWithBytes(p, s, data, done, nonblock, wakes, k)
    decreases |wakes|, |data| - done, 0
  {
    assert wakes[..0] == [];
    if wakes[0].Woken? {
      var p2 := Run(Try(p, s, data, done, nonblock).p, wakes[0].others);
      InterruptedExactly(p2, s, data, done, nonblock, wakes[1..]);
      forall k | 0 < k < |wakes|
        ensures ParkedWithBytes(p, s, data, done, nonblock, wakes, k)
           <==> ParkedWithBytes(p2, s, data, done, nonblock, wakes[1..], k - 1)
      {
        ParkedShift(p, s, data, done, nonblock, wakes, k);
      }
      if k :| 0 <= k < |wakes[1..]| && Interrupts(wakes[1..][k]) &&
              ParkedWithBytes(p2, s, data, done, nonblock, wakes[1..], k) {
        assert ParkedWithBytes(p, s, data, done, nonblock, wakes, k + 1) && wakes[k + 1] == wakes[1..][k];
      }
    } else {
      forall k | 0 < k < |wakes|
        ensures !ParkedWithBytes(p, s, data, done, nonblock, wakes, k)
      {
        assert wakes[..k][0] == wakes[0];
      }
    }
  }

  class Writer {
    var p: Pair

    constructor (p: Pair)
      ensures this.p == p
    {
      this.p := p;
    }

    /** One attempt, as the socket makes it. */
    method SendSome(s: Side, data: seq<int>, done: nat, nonblock: bool) returns (t: Attempt)
      requires done <= |data|
      modifies this
      ensures t == Try(old(p), s, data, done, nonblock) && p == t.p
    {
      t := Try(p, s, data, done, nonblock);
      p := t.p;
    }

    /** The loop of a send on the socket, with whatever happens while it waits for room. */
    method Loop(s: Side, data: seq<int>, nonblock: bool, wakes: seq<Wake>) returns (out: Outcome, done: nat)
      modifies this
      ensures Written(out, done, p) == Writing(old(p), s, data, 0, nonblock, wakes)
    {
      ghost var all := Writing(p, s, data, 0, nonblock, wakes);
      done := 0;
      var w := 0;
      assert wakes[0..] == wakes;
      while true
        invariant done <= |data| && w <= |wakes|
        invariant Writing(p, s, data, done, nonblock, wakes[w..]) == all
        decreases |wakes| - w, |data| - done
      {
        var t := SendSome(s, data, done, nonblock);
        done := t.done;
        if t.next == Done || t.next == Partial {
          return Returned(done), done;
        }
        if t.next == Fail {
          return Returned(t.result), done;
        }
        if t.next == Wait {
          if w == |wakes| {
            return StillBlocked, done;
          }
          if wakes[w].TimedOut? {
            return Returned(if done > 0 then done else -11), done;
          }
          p := Run(p, wakes[w].others);
          if !wakes[w].Woken? {
            return Returned(if wakes[w].Signalled? then -4 else -9), done;
          }
          assert wakes[w..][1..] == wakes[w + 1..];
          w := w + 1;
        }
      }
    }

    /** A send of `data` in one go. The bytes it puts on the stream are a prefix of `data`, in order. It reports their
        number, or an errno when there are none, except exactly when a wait with bytes already sent is interrupted. A
        non-blocking send is one attempt; a blocking one sends everything unless it fails, times out or is
        interrupted. */
    method SendBlocking(s: Side, data: seq<int>, nonblock: bool, wakes: seq<Wake>) returns (out: Outcome, done: nat)
      requires Inv(p)
      modifies this
      ensures Inv(p) && done <= |data|
      ensures OnlyWriter(wakes, s) ==> At(p, s).sent == old(At(p, s).sent) + data[..done]
      ensures out.Returned? && out.r >= 0 ==> out.r == done
      ensures (out.Returned? && done > 0 && out.r != done) <==>
        exists k :: 0 <= k < |wakes| && Interrupts(wakes[k]) && ParkedWithBytes(old(p), s, data, 0, nonblock, wakes, k)
      ensures nonblock ==> out.Returned? && p == Step(old(p), Send(s, data))
      ensures !nonblock && out.Returned? && 0 <= out.r < |data| ==>
        SendBroken(p, s) || !At(p, s).open || TimedOut in wakes
    {
      WriteReports(p, s, data, 0, nonblock, wakes);
      InterruptedExactly(p, s, data, 0, nonblock, wakes);
      NonblockingIsOneAttempt(p, s, data, wakes);
      if OnlyWriter(wakes, s) {
        assert At(p, s).sent + data[..0] == At(p, s).sent;
        WritesPrefix(p, s, data, 0, nonblock, wakes, At(p, s).sent);
      }
      out, done := Loop(s, data, nonblock, wakes);
    }
  }
}
