/** Datagram and seqpacket queues: records framed by a two-byte length inside the same byte ring. */
module RecordQueue {
  import opened Basics
  import opened ByteRing

  type Record = seq<int>

  function Frame(d: Record): seq<int> { [|d| % 256, |d| / 256] + d }

  function Flat(rs: seq<Record>): seq<int> { if rs == [] then [] else Frame(rs[0]) + Flat(rs[1..]) }

  /** The queue as bytes; the records accepted so far and how many of them were taken. */
  datatype Queue = Queue(bytes: seq<int>, accepted: seq<Record>, taken: nat)

  datatype Op = Send(d: Record) | Recv(len: nat) | Peek(len: nat)

  /** The length the first two bytes announce, never trusted past what is buffered. */
  function HeadLength(bytes: seq<int>): nat
    requires |bytes| >= 2
  {
    var n := bytes[0] + 256 * bytes[1];
    if n < 0 then 0 else Min(n, |bytes| - 2)
  }

  function SendResult(q: Queue, d: Record): int {
    if |d| + 2 > RING_SIZE then -90 else if |q.bytes| + 2 + |d| > RING_SIZE then -11 else |d|
  }

  /** What a receive or peek of `len` bytes copies out. */
  function HeadBytes(q: Queue, len: nat): Record {
    if |q.bytes| < 2 then [] else q.bytes[2..2 + Min(len, HeadLength(q.bytes))]
  }

  function Step(q: Queue, op: Op): Queue {
    match op
    case Send(d) => if SendResult(q, d) < 0 then q else q.(bytes := q.bytes + Frame(d), accepted := q.accepted + [d])
    case Recv(_) => if |q.bytes| < 2 then q else q.(bytes := q.bytes[2 + HeadLength(q.bytes)..], taken := q.taken + 1)
    case Peek(_) => q
  }

  function Run(q: Queue, ops: seq<Op>): Queue {
    if ops == [] then q else Step(Run(q, ops[..|ops| - 1]), ops[|ops| - 1])
  }

  /** The bytes are exactly the frames of the records not yet taken, in order. */
  ghost predicate Inv(q: Queue) {
    && q.taken <= |q.accepted| && q.bytes == Flat(q.accepted[q.taken..]) && |q.bytes| <= RING_SIZE
    && forall i :: 0 <= i < |q.accepted| ==> |q.accepted[i]| + 2 <= RING_SIZE
  }

  lemma {:induction false} FlatSnoc(rs: seq<Record>, d: Record)
    ensures Flat(rs + [d]) == Flat(rs) + Frame(d)
  {
    if rs == [] {
      assert [d][1..] == [];
      assert Flat([d]) == Frame(d) + [];
    } else {
      FlatSnoc(rs[1..], d);
      assert (rs + [d])[1..] == rs[1..] + [d];
      assert Frame(rs[0]) + (Flat(rs[1..]) + Frame(d)) == Frame(rs[0]) + Flat(rs[1..]) + Frame(d);
    }
  }

  /** In front of a framed queue stands exactly its first record, whatever bytes the records hold. */
  lemma HeadIsFirst(rs: seq<Record>)
    requires rs != [] && |rs[0]| + 2 <= RING_SIZE
    ensures |Flat(rs)| >= 2 && HeadLength(Flat(rs)) == |rs[0]|
    ensures Flat(rs)[2..2 + |rs[0]|] == rs[0] && Flat(rs)[2 + |rs[0]|..] == Flat(rs[1..])
  {
    var d := rs[0];
    assert Flat(rs) == Frame(d) + Flat(rs[1..]);
    assert |d| % 256 + 256 * (|d| / 256) == |d|;
  }

  lemma StepInv(q: Queue, op: Op)
    requires Inv(q)
    ensures Inv(Step(q, op))
  {
    var left := q.accepted[q.taken..];
    match op
    case Send(d) =>
      if SendResult(q, d) >= 0 {
        FlatSnoc(left, d);
        assert (q.accepted + [d])[q.taken..] == left + [d];
      }
    case Recv(_) =>
      if |q.bytes| >= 2 {
        assert left != [];
        HeadIsFirst(left);
        assert q.accepted[q.taken + 1..] == left[1..];
      }
    case Peek(_) =>
  }

  lemma {:induction false} RunInv(q: Queue, ops: seq<Op>)
    requires Inv(q)
    ensures Inv(Run(q, ops))
  {
    if ops != [] {
      RunInv(q, ops[..|ops| - 1]);
      StepInv(Run(q, ops[..|ops| - 1]), ops[|ops| - 1]);
    }
  }

  /** From an empty queue, without the invariant. */
  lemma FromEmpty(ops: seq<Op>)
    ensures var q := Run(Queue([], [], 0), ops);
      q.taken <= |q.accepted| && q.bytes == Flat(q.accepted[q.taken..]) && |q.bytes| <= RING_SIZE
  {
    var q := Queue([], [], 0);
    assert q.accepted[0..] == [];
    RunInv(q, ops);
  }

  /** In every state of every run a receive gets a prefix of the oldest record, learns its full length and removes it
      whole, never a byte of the next; a short buffer truncates that record alone; a peek shows the same and removes
      nothing. */
  lemma ReceiveWhole(q0: Queue, ops: seq<Op>, len: nat)
    requires Inv(q0)
    ensures var q := Run(q0, ops);
      if q.taken >= |q.accepted| then q.bytes == [] && Step(q, Recv(len)) == q
      else
        var d := q.accepted[q.taken];
        && |q.bytes| >= 2 && HeadBytes(q, len) == d[..Min(len, |d|)] && HeadLength(q.bytes) == |d|
        && Step(q, Recv(len)).taken == q.taken + 1 && Step(q, Recv(len)).bytes == Flat(q.accepted[q.taken + 1..])
        && Step(q, Peek(len)) == q
  {
    RunInv(q0, ops);
    var q := Run(q0, ops);
    var left := q.accepted[q.taken..];
    if left != [] {
      HeadIsFirst(left);
      StepInv(q, Recv(len));
      assert q.bytes[2..2 + Min(len, |left[0]|)] == q.bytes[2..2 + |left[0]|][..Min(len, |left[0]|)];
    }
  }
}
