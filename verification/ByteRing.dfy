/** The fixed ring a socket receives into, kept in place in an array, next to the byte sequence it holds. */
module ByteRing {
  import opened Basics

  const RING_SIZE: nat := 8192

  /** The `count` bytes from `pos` on, wrapping at the end of the buffer. */
  function Wrapped(buf: seq<int>, pos: nat, count: nat): (s: seq<int>)
    requires pos < |buf| && count <= |buf|
    ensures |s| == count && forall k :: 0 <= k < count ==> s[k] == buf[(pos + k) % |buf|]
  {
    seq(count, k requires 0 <= k < count => buf[(pos + k) % |buf|])
  }

  lemma WrapMod(pos: nat, k: nat, n: nat)
    requires pos < n && k < n
    ensures (pos + k) % n == if pos + k < n then pos + k else pos + k - n
  {
    if pos + k >= n {
      assert (pos + k) % n == (pos + k - n) % n;
    }
  }

  class Ring {
    const buffer: array<int>
    var read: nat
    var write: nat
    var count: nat

    ghost predicate Valid()
      reads this, buffer
    {
      && buffer.Length == RING_SIZE && read < RING_SIZE && count <= RING_SIZE
      && write == (read + count) % RING_SIZE
    }

    function Contents(): seq<int>
      requires Valid()
      reads this, buffer
    {
      Wrapped(buffer[..], read, count)
    }

    constructor ()
      ensures Valid() && Contents() == [] && fresh(buffer)
    {
      buffer := new int[RING_SIZE](_ => 0);
      read, write, count := 0, 0, 0;
    }

    /** Append as much of `data` as fits. */
    method Put(data: seq<int>) returns (n: nat)
      requires Valid()
      modifies this`write, this`count, buffer
      ensures Valid() && n == Min(|data|, RING_SIZE - old(count))
      ensures Contents() == old(Contents()) + data[..n]
    {
      n := Min(|data|, RING_SIZE - count);
      ghost var before := buffer[..];
      CopyIn(data[..n]);
      Stored(before, buffer[..], read, count, write, data[..n]);
      write := (write + n) % RING_SIZE;
      count := count + n;
      WriteNext(read, count - n, n);
    }

    /** Copy to the write position: one copy, or two where the space wraps. */
    method CopyIn(data: seq<int>)
      requires buffer.Length == RING_SIZE && write < RING_SIZE && |data| <= RING_SIZE
      modifies buffer
      ensures Laid(old(buffer[..]), buffer[..], write, data)
    {
      var n, tail := |data|, RING_SIZE - write;
      if tail >= n {
        forall k | 0 <= k < n { buffer[write + k] := data[k]; }
      } else {
        forall k | 0 <= k < tail { buffer[write + k] := data[k]; }
        forall k | 0 <= k < n - tail { buffer[k] := data[tail + k]; }
      }
    }

    /** Copy out up to `len` bytes and leave the ring as it is. */
    method Peek(len: nat) returns (out: seq<int>)
      requires Valid()
      ensures out == Contents()[..Min(len, count)]
    {
      var n := Min(len, count);
      var tail := RING_SIZE - read;
      if tail >= n {
        out := buffer[read..read + n];
      } else {
        out := buffer[read..] + buffer[..n - tail];
      }
      forall k | 0 <= k < n ensures out[k] == Contents()[k] {
        WrapMod(read, k, RING_SIZE);
      }
    }

    /** Take up to `len` bytes from the front. */
    method Take(len: nat) returns (out: seq<int>)
      requires Valid()
      modifies this`read, this`count
      ensures Valid() && out == old(Contents())[..Min(len, old(count))] && Contents() == old(Contents())[|out|..]
    {
      out := Peek(len);
      Advanced(buffer[..], read, count, |out|);
      read := (read + |out|) % RING_SIZE;
      count := count - |out|;
    }
  }

  lemma WriteNext(read: nat, count: nat, n: nat)
    requires read < RING_SIZE && count + n <= RING_SIZE
    ensures ((read + count) % RING_SIZE + n) % RING_SIZE == (read + (count + n)) % RING_SIZE
  {
  }

  /** `after` is `before` with `data` written from `write` on, wrapping at the end. */
  ghost predicate Laid(before: seq<int>, after: seq<int>, write: nat, data: seq<int>) {
    |before| == |after| == RING_SIZE && forall i :: 0 <= i < RING_SIZE ==>
      after[i] == if write <= i < write + |data| then data[i - write]
                  else if write <= i + RING_SIZE < write + |data| then data[i + RING_SIZE - write] else before[i]
  }

  /** Bytes stored behind the contents extend them and disturb none of them. */
  lemma Stored(before: seq<int>, after: seq<int>, read: nat, count: nat, write: nat, data: seq<int>)
    requires read < RING_SIZE && count + |data| <= RING_SIZE && write == (read + count) % RING_SIZE
    requires Laid(before, after, write, data)
    ensures Wrapped(after, read, count + |data|) == Wrapped(before, read, count) + data
  {
    var x, y := Wrapped(after, read, count + |data|), Wrapped(before, read, count) + data;
    forall k | 0 <= k < count + |data| ensures x[k] == y[k] {
      WrapMod(read, k, RING_SIZE);
      if count < RING_SIZE {
        WrapMod(read, count, RING_SIZE);
      }
    }
  }

  lemma Advanced(buf: seq<int>, read: nat, count: nat, n: nat)
    requires |buf| == RING_SIZE && read < RING_SIZE && n <= count <= RING_SIZE
    ensures Wrapped(buf, (read + n) % RING_SIZE, count - n) == Wrapped(buf, read, count)[n..]
    ensures ((read + n) % RING_SIZE + (count - n)) % RING_SIZE == (read + count) % RING_SIZE
  {
    var x, y := Wrapped(buf, (read + n) % RING_SIZE, count - n), Wrapped(buf, read, count)[n..];
    forall k | 0 <= k < count - n ensures x[k] == y[k] {
      assert ((read + n) % RING_SIZE + k) % RING_SIZE == (read + (n + k)) % RING_SIZE;
    }
  }
}
