/** write(2) and sendto(2) on a stream socket. write(2) hands its data to the socket in chunks, each of which may wait;
    sendto(2) cuts the data to one buffer. */
module StreamCalls {
  import opened Basics
  import opened ByteRing
  import opened StreamPair

  const CHUNK: nat := 4096
  const SENDTO_MAX: nat := 8192

  /** What happens around one chunk: steps of other tasks before it, then how each of its waits ends. */
  datatype Turn = Turn(before: seq<Op>, wakes: seq<Wake>)

  function ChunkAt(data: seq<int>, pos: nat): (c: seq<int>)
    requires pos <= |data|
    ensures pos < |data| ==> 0 < |c| <= CHUNK && pos + |c| <= |data|
    ensures pos < |data| && pos + |c| < |data| ==> |c| == CHUNK
  {
    data[pos..pos + Min(|data| - pos, CHUNK)]
  }

  /** One chunk, sent after the steps of others that come before it. */
  function OneChunk(p: Pair, s: Side, data: seq<int>, pos: nat, nonblock: bool, turn: Turn): Written
    requires pos <= |data|
  {
    Writing(Run(p, turn.before), s, ChunkAt(data, pos), 0, nonblock, turn.wakes)
  }

  /** What the call returns after that chunk, if it ends there. */
  function Ended(pos: nat, len: nat, w: Written): Option<Written> {
    match w.out
    case StillBlocked => Some(Written(StillBlocked, pos + w.done, w.p))
    case Returned(r) =>
      if r < 0 then Some(Written(Returned(if pos == 0 then r else pos), pos + w.done, w.p))
      else if r < len then Some(Written(Returned(pos + r), pos + w.done, w.p))
      else None
  }

  /** The chunks from `pos` on, one turn each. */
  function Chunks(p: Pair, s: Side, data: seq<int>, pos: nat, nonblock: bool, turns: seq<Turn>): Written
    requires pos <= |data|
    decreases |turns|
  {
    if pos == |data| then Written(Returned(pos), pos, p)
    else if turns == [] then Written(StillBlocked, pos, p)
    else
      var c := ChunkAt(data, pos);
      var w := OneChunk(p, s, data, pos, nonblock, turns[0]);
      match Ended(pos, |c|, w)
      case Some(all) => all
      case None => Chunks(w.p, s, data, pos + |c|, nonblock, turns[1..])
  }

  /** sendto(2): the first buffer's worth of the data. */
  function Sendto(p: Pair, s: Side, data: seq<int>, nonblock: bool, wakes: seq<Wake>): Written {
    if data == [] then Written(Returned(-1), 0, p)
    else Writing(p, s, data[..Min(|data|, SENDTO_MAX)], 0, nonblock, wakes)
  }

  // ─── what is reported, and what was sent ───

  /** A wait of this send is interrupted when some of its bytes have gone out. */
  ghost predicate CutShort(p: Pair, s: Side, data: seq<int>, nonblock: bool, wakes: seq<Wake>) {
    exists k :: 0 <= k < |wakes| && Interrupts(wakes[k]) && ParkedWithBytes(p, s, data, 0, nonblock, wakes, k)
  }

  /** That happens to one of the chunks the call comes to. */
  ghost predicate ChunkCutShort(p: Pair, s: Side, data: seq<int>, pos: nat, nonblock: bool, turns: seq<Turn>)
    requires pos <= |data|
    decreases |turns|
  {
    && pos < |data| && turns != []
    && (var c := ChunkAt(data, pos);
        || CutShort(Run(p, turns[0].before), s, c, nonblock, turns[0].wakes)
        || (var w := OneChunk(p, s, data, pos, nonblock, turns[0]);
            w.out == Returned(|c|) && ChunkCutShort(w.p, s, data, pos + |c|, nonblock, turns[1..])))
  }

  lemma ChunkReports(p: Pair, s: Side, data: seq<int>, pos: nat, nonblock: bool, turn: Turn)
    requires Inv(p) && pos < |data|
    ensures var w, c := OneChunk(p, s, data, pos, nonblock, turn), ChunkAt(data, pos);
      && Inv(w.p) && w.done <= |c|
      && (w.out.Returned? ==>
            && (if w.out.r >= 0 then w.out.r == w.done else w.done < |c|)
            && (w.out.r < |c| && !nonblock ==> Broken(w.p, s) || Disturbed(turn.wakes)))
      && (CutShort(Run(p, turn.before), s, c, nonblock, turn.wakes) <==>
          w.out.Returned? && w.done > 0 && w.out.r != w.done)
  {
    var p1, c := Run(p, turn.before), ChunkAt(data, pos);
    RunInv(p, turn.before);
    WriteReports(p1, s, c, 0, nonblock, turn.wakes);
    InterruptedExactly(p1, s, c, 0, nonblock, turn.wakes);
    if TimedOut in turn.wakes {
      var k :| 0 <= k < |turn.wakes| && turn.wakes[k] == TimedOut;
      assert !turn.wakes[k].Woken?;
    }
  }

  ghost predicate Broken(p: Pair, s: Side) { SendBroken(p, s) || !At(p, s).open }

  /** What write(2) reports is the number of bytes sent, or an error with none sent, if and only if no chunk is cut
      short. */
  lemma {:induction false} ReportExactly(p: Pair, s: Side, data: seq<int>, pos: nat, nonblock: bool, turns: seq<Turn>)
    requires Inv(p) && pos <= |data|
    ensures var w := Chunks(p, s, data, pos, nonblock, turns);
      && Inv(w.p) && pos <= w.done <= |data|
      && ((w.out.Returned? && w.done > 0 && w.out.r != w.done) <==> ChunkCutShort(p, s, data, pos, nonblock, turns))
    decreases |turns|
  {
    if pos < |data| && turns != [] {
      ChunkReports(p, s, data, pos, nonblock, turns[0]);
      var c := ChunkAt(data, pos);
      var w := OneChunk(p, s, data, pos, nonblock, turns[0]);
      if w.out == Returned(|c|) {
        ReportExactly(w.p, s, data, pos + |c|, nonblock, turns[1..]);
      }
    }
  }

  /** A wrong report names whole chunks and hides fewer bytes than one chunk has, or is the error of the first chunk. */
  lemma {:induction false} HiddenBytes(p: Pair, s: Side, data: seq<int>, pos: nat, nonblock: bool, turns: seq<Turn>)
    requires Inv(p) && pos <= |data| && (pos % CHUNK == 0 || pos == |data|)
    ensures var w := Chunks(p, s, data, pos, nonblock, turns);
      w.out.Returned? && w.out.r != w.done ==>
        if w.out.r < 0 then w.done < CHUNK && pos == 0
        else w.out.r % CHUNK == 0 && pos <= w.out.r < w.done < w.out.r + CHUNK
    decreases |turns|
  {
    if pos < |data| && turns != [] {
      ChunkReports(p, s, data, pos, nonblock, turns[0]);
      var c := ChunkAt(data, pos);
      var w := OneChunk(p, s, data, pos, nonblock, turns[0]);
      if w.out == Returned(|c|) {
        HiddenBytes(w.p, s, data, pos + |c|, nonblock, turns[1..]);
      }
    }
  }

  ghost predicate SomeDisturbed(turns: seq<Turn>) { exists i :: 0 <= i < |turns| && Disturbed(turns[i].wakes) }

  /** A blocking write(2) that reports less than it was given met a broken stream, a timeout or an interruption. */
  lemma {:induction false} BlockingSendsAll(p: Pair, s: Side, data: seq<int>, pos: nat, turns: seq<Turn>)
    requires Inv(p) && pos <= |data|
    ensures var w := Chunks(p, s, data, pos, false, turns);
      w.out.Returned? && w.out.r < |data| ==> Broken(w.p, s) || SomeDisturbed(turns)
    decreases |turns|
  {
    if pos < |data| && turns != [] {
      ChunkReports(p, s, data, pos, false, turns[0]);
      var c := ChunkAt(data, pos);
      var w := OneChunk(p, s, data, pos, false, turns[0]);
      if w.out == Returned(|c|) {
        BlockingSendsAll(w.p, s, data, pos + |c|, turns[1..]);
        if i :| 0 <= i < |turns[1..]| && Disturbed(turns[1..][i].wakes) {
          assert Disturbed(turns[i + 1].wakes);
        }
      }
    }
  }

  // ─── the bytes ───

  ghost predicate SoleWriter(turns: seq<Turn>, s: Side) {
    forall i :: 0 <= i < |turns| ==> NoSend(turns[i].before, s) && OnlyWriter(turns[i].wakes, s)
  }

  lemma Joined(was: seq<int>, data: seq<int>, pos: nat, n: nat)
    requires pos <= |data| && n <= |ChunkAt(data, pos)|
    ensures was + data[..pos] + ChunkAt(data, pos)[..n] == was + data[..pos + n]
  {
  }

  lemma ChunkPrefix(p: Pair, s: Side, data: seq<int>, pos: nat, nonblock: bool, turn: Turn, was: seq<int>)
    requires Inv(p) && pos < |data| && At(p, s).sent == was + data[..pos]
    requires NoSend(turn.before, s) && OnlyWriter(turn.wakes, s)
    ensures var w := OneChunk(p, s, data, pos, nonblock, turn);
      w.done <= |ChunkAt(data, pos)| && At(w.p, s).sent == was + data[..pos + w.done]
  {
    var c, sent := ChunkAt(data, pos), was + data[..pos];
    RunInv(p, turn.before);
    SentKept(p, turn.before, s);
    assert sent + c[..0] == sent;
    WritesPrefix(Run(p, turn.before), s, c, 0, nonblock, turn.wakes, sent);
    Joined(was, data, pos, OneChunk(p, s, data, pos, nonblock, turn).done);
  }

  /** The bytes on the stream are a prefix of the data, in order, whatever others do before and between the chunks. */
  lemma {:induction false} ChunksPrefix(
    p: Pair, s: Side, data: seq<int>, pos: nat, nonblock: bool, turns: seq<Turn>, was: seq<int>)
    requires Inv(p) && pos <= |data| && SoleWriter(turns, s) && At(p, s).sent == was + data[..pos]
    ensures var w := Chunks(p, s, data, pos, nonblock, turns);
      w.done <= |data| && At(w.p, s).sent == was + data[..w.done]
    decreases |turns|
  {
    if pos < |data| && turns != [] {
      var c := ChunkAt(data, pos);
      var w := OneChunk(p, s, data, pos, nonblock, turns[0]);
      ChunkPrefix(p, s, data, pos, nonblock, turns[0], was);
      ChunkReports(p, s, data, pos, nonblock, turns[0]);
      if w.out == Returned(|c|) {
        assert SoleWriter(turns[1..], s);
        ChunksPrefix(w.p, s, data, pos + |c|, nonblock, turns[1..], was);
      }
    }
  }

  // ─── a non-blocking write is one send ───

  lemma DeliveredTwice(p: Pair, s: Side, d: seq<int>, e: seq<int>)
    ensures Delivered(Delivered(p, s, d), s, e) == Delivered(p, s, d + e)
  {
    assert At(p, Other(s)).queue + d + e == At(p, Other(s)).queue + (d + e);
    assert At(p, s).sent + d + e == At(p, s).sent + (d + e);
  }

  /** A send of `d + e` is a send of `d` followed by a send of `e`, when all of `d` goes out. */
  lemma SendSplits(p: Pair, s: Side, d: seq<int>, e: seq<int>)
    requires Inv(p) && d != [] && e != [] && Result(p, Send(s, d)) == |d|
    ensures var p1 := Step(p, Send(s, d));
      var r := Result(p1, Send(s, e));
      && Step(p1, Send(s, e)) == Step(p, Send(s, d + e))
      && Result(p, Send(s, d + e)) == |d| + (if r < 0 then 0 else r)
  {
    var p1 := Step(p, Send(s, d));
    var r := Result(p1, Send(s, e));
    assert d[..|d|] == d && Room(p1, s) == Room(p, s) - |d|;
    if r < 0 {
      assert (d + e)[..|d|] == d;
    } else {
      assert (d + e)[..|d| + r] == d + e[..r];
      DeliveredTwice(p, s, d, e[..r]);
    }
  }

  /** With nobody else at the socket, a non-blocking write(2) of any length is one send of all its data: the chunks do
      not show. */
  lemma {:induction false} NonblockingIsOneSend(p: Pair, s: Side, data: seq<int>, pos: nat, turns: seq<Turn>)
    requires Inv(p) && pos < |data| <= pos + |turns| * CHUNK
    requires forall i :: 0 <= i < |turns| ==> turns[i].before == []
    ensures var w, r := Chunks(p, s, data, pos, true, turns), Result(p, Send(s, data[pos..]));
      && w.p == Step(p, Send(s, data[pos..]))
      && w.out == Returned(if r >= 0 then pos + r else if pos > 0 then pos else r)
    decreases |turns|
  {
    var c, rest := ChunkAt(data, pos), data[pos..];
    NonblockingIsOneAttempt(p, s, c, turns[0].wakes);
    ChunkReports(p, s, data, pos, true, turns[0]);
    if pos + |c| == |data| {
      assert c == rest;
    } else if Result(p, Send(s, c)) == |c| {
      assert rest == c + data[pos + |c|..];
      SendSplits(p, s, c, data[pos + |c|..]);
      StepInv(p, Send(s, c));
      NonblockingIsOneSend(Step(p, Send(s, c)), s, data, pos + |c|, turns[1..]);
    } else {
      ShortSend(p, s, c, rest);
    }
  }

  /** A send that could not take all of the first part takes no more of the whole. */
  lemma ShortSend(p: Pair, s: Side, d: seq<int>, whole: seq<int>)
    requires d != [] && d <= whole && Result(p, Send(s, d)) < |d|
    ensures Result(p, Send(s, whole)) == Result(p, Send(s, d)) && Step(p, Send(s, whole)) == Step(p, Send(s, d))
  {
    var r := Result(p, Send(s, d));
    assert r >= 0 ==> d[..r] == whole[..r];
  }

  // ─── the calls ───

  class Socket {
    const writer: Writer

    constructor (w: Writer)
      ensures writer == w
    {
      writer := w;
    }

    method WriteChunk(s: Side, data: seq<int>, pos: nat, nonblock: bool, turn: Turn) returns (w: Written)
      requires pos <= |data|
      modifies writer
      ensures w == OneChunk(old(writer.p), s, data, pos, nonblock, turn) && writer.p == w.p
    {
      writer.p := Run(writer.p, turn.before);
      var out, done := writer.Loop(s, ChunkAt(data, pos), nonblock, turn.wakes);
      w := Written(out, done, writer.p);
    }

    /** The chunks, one after the other, each as the socket sends it. */
    method WriteChunks(s: Side, data: seq<int>, nonblock: bool, turns: seq<Turn>) returns (out: Outcome, done: nat)
      modifies writer
      ensures Written(out, done, writer.p) == Chunks(old(writer.p), s, data, 0, nonblock, turns)
    {
      ghost var all := Chunks(writer.p, s, data, 0, nonblock, turns);
      var pos: nat, i: nat := 0, 0;
      assert turns[0..] == turns;
      while pos < |data|
        invariant pos <= |data| && i <= |turns|
        invariant Chunks(writer.p, s, data, pos, nonblock, turns[i..]) == all
        decreases |turns| - i
      {
        if i == |turns| {
          return StillBlocked, pos;
        }
        var c := ChunkAt(data, pos);
        var w := WriteChunk(s, data, pos, nonblock, turns[i]);
        var end := Ended(pos, |c|, w);
        if end.Some? {
          return end.value.out, end.value.done;
        }
        assert turns[i..][1..] == turns[i + 1..];
        pos, i := pos + |c|, i + 1;
      }
      return Returned(pos), pos;
    }

    /** write(2) on the stream. The bytes it sends are a prefix of the data, in order. It reports their number, or an
        error when there are none, except exactly when a chunk is cut short; then fewer than a chunk's bytes go
        unreported. A blocking call that reports less than it was given met a broken stream, a timeout or an
        interruption. */
    method Write(s: Side, data: seq<int>, nonblock: bool, turns: seq<Turn>) returns (out: Outcome, done: nat)
      requires Inv(writer.p)
      modifies writer
      ensures Inv(writer.p) && done <= |data|
      ensures SoleWriter(turns, s) ==> At(writer.p, s).sent == old(At(writer.p, s).sent) + data[..done]
      ensures (out.Returned? && done > 0 && out.r != done) <==>
        ChunkCutShort(old(writer.p), s, data, 0, nonblock, turns)
      ensures out.Returned? && out.r >= 0 ==> out.r <= done && done - out.r < CHUNK
      ensures !nonblock && out.Returned? && out.r < |data| ==> Broken(writer.p, s) || SomeDisturbed(turns)
    {
      Promised(writer.p, s, data, nonblock, turns);
      out, done := WriteChunks(s, data, nonblock, turns);
    }
  }

  /** What the chunk loop promises, from its start. */
  lemma Promised(p: Pair, s: Side, data: seq<int>, nonblock: bool, turns: seq<Turn>)
    requires Inv(p)
    ensures var w := Chunks(p, s, data, 0, nonblock, turns);
      && Inv(w.p) && w.done <= |data|
      && (SoleWriter(turns, s) ==> At(w.p, s).sent == At(p, s).sent + data[..w.done])
      && ((w.out.Returned? && w.done > 0 && w.out.r != w.done) <==> ChunkCutShort(p, s, data, 0, nonblock, turns))
      && (w.out.Returned? && w.out.r >= 0 ==> w.out.r <= w.done && w.done - w.out.r < CHUNK)
      && (!nonblock && w.out.Returned? && w.out.r < |data| ==> Broken(w.p, s) || SomeDisturbed(turns))
  {
    ReportExactly(p, s, data, 0, nonblock, turns);
    HiddenBytes(p, s, data, 0, nonblock, turns);
    if !nonblock {
      BlockingSendsAll(p, s, data, 0, turns);
    }
    if SoleWriter(turns, s) {
      assert At(p, s).sent + data[..0] == At(p, s).sent;
      ChunksPrefix(p, s, data, 0, nonblock, turns, At(p, s).sent);
    }
  }

  // ─── runs ───

  /** A fresh pair on which one byte was sent and not read. */
  function OneQueued(): Pair { Run(FreshPair(), [Send(A, [0])]) }

  /** A blocking send of a full ring's bytes into it: all but one go out, and a signal ends the wait. */
  lemma FillsAndWaits(data: seq<int>, p: Pair)
    requires !SendBroken(p, A) && p.a.open && 0 < Room(p, A) < |data|
    ensures var w := Writing(p, A, data, 0, false, [Signalled([])]);
      w.out == Returned(-4) && w.done == Room(p, A)
  {
    var n := Room(p, A);
    assert data[0..] == data;
    assert Result(p, Send(A, data)) == n;
    var p1 := Step(p, Send(A, data));
    assert Room(p1, A) == 0;
    assert Result(p1, Send(A, data[n..])) == -11;
  }

  /** sendto(2) of 8192 bytes or more: 8191 go out, and the report is -4. */
  lemma SendtoHidesBytes(data: seq<int>)
    requires |data| >= SENDTO_MAX
    ensures var w := Sendto(OneQueued(), A, data, false, [Signalled([])]);
      w.out == Returned(-4) && w.done == RING_SIZE - 1
  {
    OneQueuedIs();
    FillsAndWaits(data[..SENDTO_MAX], OneQueued());
  }

  lemma OneQueuedIs()
    ensures var p := OneQueued();
      !SendBroken(p, A) && p.a.open && p.b.queue == [0] && Room(p, A) == RING_SIZE - 1
  {
    assert [Send(A, [0])][..0] == [];
  }

  /** write(2) of 8192 bytes: the first chunk goes out, the second sends all but one byte, waits and is signalled. The
      report is 4096; 8191 bytes are on the stream. */
  lemma WriteHidesBytes(data: seq<int>)
    requires |data| == 2 * CHUNK
    ensures var w := Chunks(OneQueued(), A, data, 0, false, [Turn([], []), Turn([], [Signalled([])])]);
      w.out == Returned(CHUNK) && w.done == 2 * CHUNK - 1
  {
    OneQueuedIs();
    var p, turns := OneQueued(), [Turn([], []), Turn([], [Signalled([])])];
    var c := ChunkAt(data, 0);
    assert c[0..] == c && Result(p, Send(A, c)) == CHUNK;
    var p1 := Step(p, Send(A, c));
    assert OneChunk(p, A, data, 0, false, turns[0]) == Written(Returned(CHUNK), CHUNK, p1);
    assert Room(p1, A) == CHUNK - 1;
    FillsAndWaits(ChunkAt(data, CHUNK), p1);
    assert turns[1..] == [Turn([], [Signalled([])])];
  }
}
