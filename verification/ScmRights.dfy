/** SCM_RIGHTS control messages: the layout a sender writes, what the kernel parses and builds, what a receiver decodes.
    */
module ScmRights {
  import opened Basics

  const SOL_SOCKET := 1
  const SCM_RIGHTS := 1
  const SCM_CREDENTIALS := 2
  const HDR: nat := 16
  const UCRED_LEN: nat := 12
  const MAX_FDS: nat := 8

  datatype Cred = Cred(pid: int, uid: int, gid: int)
  datatype Parsed = Ok(fds: seq<int>, cred: Option<Cred>) | Invalid | TooMany

  function Align8(n: nat): (r: nat)
    ensures n <= r < n + 8 && r % 8 == 0
  {
    (n + 7) / 8 * 8
  }

  // ─── little-endian words ───

  function Pow256(k: nat): nat { if k == 0 then 1 else 256 * Pow256(k - 1) }

  function Le(n: nat, k: nat): (b: seq<int>)
    ensures |b| == k
  {
    if k == 0 then [] else [n % 256] + Le(n / 256, k - 1)
  }

  function FromLe(b: seq<int>): int { if b == [] then 0 else b[0] + 256 * FromLe(b[1..]) }

  lemma {:induction false} LeRoundTrip(n: nat, k: nat)
    requires n < Pow256(k)
    ensures FromLe(Le(n, k)) == n
  {
    if k > 0 {
      LeRoundTrip(n / 256, k - 1);
      assert Le(n, k)[1..] == Le(n / 256, k - 1);
    }
  }

  predicate IsI32(n: int) { -0x8000_0000 <= n < 0x8000_0000 }

  function I32(n: int): seq<int>
    requires IsI32(n)
  {
    Le(if n < 0 then n + 0x1_0000_0000 else n, 4)
  }

  function FromI32(b: seq<int>): int {
    var u := FromLe(b);
    if u >= 0x8000_0000 then u - 0x1_0000_0000 else u
  }

  lemma I32RoundTrip(n: int)
    requires IsI32(n)
    ensures FromI32(I32(n)) == n
  {
    assert Pow256(4) == 256 * (256 * (256 * (256 * Pow256(0))));
    LeRoundTrip(if n < 0 then n + 0x1_0000_0000 else n, 4);
  }

  function Word(b: seq<int>, off: nat): int
    requires off + 4 <= |b|
  {
    FromI32(b[off..off + 4])
  }

  function Long(b: seq<int>, off: nat): int
    requires off + 8 <= |b|
  {
    FromLe(b[off..off + 8])
  }

  function Words(b: seq<int>, off: nat, n: nat): (w: seq<int>)
    requires off + 4 * n <= |b|
    ensures |w| == n
  {
    if n == 0 then [] else Words(b, off, n - 1) + [Word(b, off + 4 * (n - 1))]
  }

  // ─── the layout ───

  predicate AllI32(fds: seq<int>) { forall i :: 0 <= i < |fds| ==> IsI32(fds[i]) }

  function Payload(fds: seq<int>): (b: seq<int>)
    requires AllI32(fds)
    ensures |b| == 4 * |fds|
  {
    if fds == [] then [] else Payload(fds[..|fds| - 1]) + I32(fds[|fds| - 1])
  }

  function Header(n: nat): (b: seq<int>)
    ensures |b| == HDR
  {
    Le(HDR + 4 * n, 8) + Le(SOL_SOCKET, 4) + Le(SCM_RIGHTS, 4)
  }

  function Zeros(n: nat): (b: seq<int>)
    ensures |b| == n
  {
    seq(n, _ => 0)
  }

  /** One message: header, descriptors, zero bytes up to `total`. */
  function Message(fds: seq<int>, total: nat): (b: seq<int>)
    requires AllI32(fds) && HDR + 4 * |fds| <= total
    ensures |b| == total
  {
    Header(|fds|) + Payload(fds) + Zeros(total - HDR - 4 * |fds|)
  }

  function Padded(fds: seq<int>): seq<int>
    requires AllI32(fds)
  {
    Message(fds, Align8(HDR + 4 * |fds|))
  }

  // ─── parsing ───

  function Parse(b: seq<int>, off: nat, fds: seq<int>, cred: Option<Cred>): Parsed
    decreases |b| - off
  {
    if off + HDR > |b| then Ok(fds, cred)
    else
      var len, level, typ := Long(b, off), Word(b, off + 8), Word(b, off + 12);
      if len < HDR || len > |b| - off then Invalid
      else if level == SOL_SOCKET && typ == SCM_CREDENTIALS then
        if len - HDR != UCRED_LEN then Invalid
        else Parse(b, off + Align8(len), fds,
          Some(Cred(Word(b, off + 16), FromLe(b[off + 20..off + 24]), FromLe(b[off + 24..off + 28]))))
      else if level != SOL_SOCKET || typ != SCM_RIGHTS then Invalid
      else if (len - HDR) % 4 != 0 then Invalid
      else if |fds| + (len - HDR) / 4 > MAX_FDS then TooMany
      else Parse(b, off + Align8(len), fds + Words(b, off + HDR, (len - HDR) / 4), cred)
  }

  lemma SubSlice(b: seq<int>, off: nat, total: nat, x: nat, y: nat)
    requires x <= y <= total && off + total <= |b|
    ensures b[off..off + total][x..y] == b[off + x..off + y]
  {
    var p, q := b[off..off + total][x..y], b[off + x..off + y];
    assert |p| == |q| && forall k :: 0 <= k < |p| ==> p[k] == q[k];
  }

  lemma {:induction false} PayloadWords(b: seq<int>, off: nat, fds: seq<int>)
    requires AllI32(fds) && off + 4 * |fds| <= |b| && b[off..off + 4 * |fds|] == Payload(fds)
    ensures Words(b, off, |fds|) == fds
  {
    if fds != [] {
      var n := |fds|;
      var most := fds[..n - 1];
      assert Payload(fds) == Payload(most) + I32(fds[n - 1]);
      SubSlice(b, off, 4 * n, 0, 4 * (n - 1));
      SubSlice(b, off, 4 * n, 4 * (n - 1), 4 * n);
      PayloadWords(b, off, most);
      I32RoundTrip(fds[n - 1]);
      assert fds == most + [fds[n - 1]];
    }
  }

  lemma HeaderParts(n: nat)
    ensures Header(n)[0..8] == Le(HDR + 4 * n, 8) && Header(n)[8..12] == Le(SOL_SOCKET, 4) &&
      Header(n)[12..16] == Le(SCM_RIGHTS, 4)
  {
    Parts(Le(HDR + 4 * n, 8), Le(SOL_SOCKET, 4), Le(SCM_RIGHTS, 4));
  }

  lemma Parts(x: seq<int>, y: seq<int>, z: seq<int>)
    requires |x| == 8 && |y| == 4 && |z| == 4
    ensures (x + y + z)[0..8] == x && (x + y + z)[8..12] == y && (x + y + z)[12..16] == z
  {
  }

  lemma HeaderReads(b: seq<int>, off: nat, n: nat)
    requires off + HDR <= |b| && b[off..off + HDR] == Header(n) && n < 0x1000_0000
    ensures Long(b, off) == HDR + 4 * n && Word(b, off + 8) == SOL_SOCKET && Word(b, off + 12) == SCM_RIGHTS
  {
    HeaderParts(n);
    SubSlice(b, off, HDR, 0, 8);
    SubSlice(b, off, HDR, 8, 12);
    SubSlice(b, off, HDR, 12, 16);
    assert Pow256(8) == 256 * (256 * (256 * (256 * Pow256(4)))) && Pow256(4) == 256 * (256 * (256 * (256 * Pow256(0))));
    LeRoundTrip(HDR + 4 * n, 8);
    LeRoundTrip(1, 4);
  }

  lemma MessageReads(b: seq<int>, off: nat, fds: seq<int>, total: nat)
    requires AllI32(fds) && |fds| < 0x1000_0000 && HDR + 4 * |fds| <= total && off + total <= |b|
    requires b[off..off + total] == Message(fds, total)
    ensures Long(b, off) == HDR + 4 * |fds| && Word(b, off + 8) == SOL_SOCKET && Word(b, off + 12) == SCM_RIGHTS
    ensures Words(b, off + HDR, |fds|) == fds
  {
    var m := Message(fds, total);
    assert m[0..HDR] == Header(|fds|) && m[HDR..HDR + 4 * |fds|] == Payload(fds);
    SubSlice(b, off, total, 0, HDR);
    SubSlice(b, off, total, HDR, HDR + 4 * |fds|);
    HeaderReads(b, off, |fds|);
    PayloadWords(b, off + HDR, fds);
  }

  /** A rights message with these descriptors begins at `off`. */
  ghost predicate Holds(b: seq<int>, off: nat, fds: seq<int>) {
    && off + HDR + 4 * |fds| <= |b| && Words(b, off + HDR, |fds|) == fds
    && Long(b, off) == HDR + 4 * |fds| && Word(b, off + 8) == SOL_SOCKET && Word(b, off + 12) == SCM_RIGHTS
  }

  /** The bytes one message takes. */
  function Size(fds: seq<int>): nat { Align8(HDR + 4 * |fds|) }

  lemma ParseStep(b: seq<int>, off: nat, fds: seq<int>, acc: seq<int>, cred: Option<Cred>)
    ensures Holds(b, off, fds) ==>
      Parse(b, off, acc, cred) == if |acc| + |fds| > MAX_FDS then TooMany
        else Parse(b, off + Size(fds), acc + fds, cred)
  {
  }

  lemma MessageHolds(b: seq<int>, off: nat, fds: seq<int>, total: nat)
    requires AllI32(fds) && |fds| < 0x1000_0000 && HDR + 4 * |fds| <= total && off + total <= |b|
    requires b[off..off + total] == Message(fds, total)
    ensures Holds(b, off, fds)
  {
    MessageReads(b, off, fds, total);
  }

  // ─── what a sender lays out ───

  function Concat(lists: seq<seq<int>>): seq<int> { if lists == [] then [] else lists[0] + Concat(lists[1..]) }

  function Layout(lists: seq<seq<int>>): seq<int>
    requires forall i :: 0 <= i < |lists| ==> AllI32(lists[i])
  {
    if lists == [] then [] else Padded(lists[0]) + Layout(lists[1..])
  }

  /** Messages with these descriptors, one behind the other up to the end. */
  ghost predicate Laid(b: seq<int>, off: nat, lists: seq<seq<int>>)
    decreases |lists|
  {
    if lists == [] then off >= |b| else Holds(b, off, lists[0]) && Laid(b, off + Size(lists[0]), lists[1..])
  }

  lemma FirstHolds(b: seq<int>, off: nat, fds: seq<int>, rest: seq<int>)
    requires AllI32(fds) && |fds| < 0x1000_0000 && off <= |b| && b[off..] == Padded(fds) + rest
    ensures off + Size(fds) <= |b| && b[off + Size(fds)..] == rest && Holds(b, off, fds)
  {
    FrontAndRest(b, off, Padded(fds), rest);
    MessageHolds(b, off, fds, Size(fds));
  }

  lemma FrontAndRest(b: seq<int>, off: nat, m: seq<int>, rest: seq<int>)
    requires off <= |b| && b[off..] == m + rest
    ensures off + |m| <= |b| && b[off..off + |m|] == m && b[off + |m|..] == rest
  {
    assert |b[off..]| == |m| + |rest|;
    assert b[off..off + |m|] == b[off..][..|m|] && b[off + |m|..] == b[off..][|m|..];
  }

  lemma {:induction false} LayoutLaid(b: seq<int>, off: nat, lists: seq<seq<int>>)
    requires forall i :: 0 <= i < |lists| ==> AllI32(lists[i]) && |lists[i]| < 0x1000_0000
    requires off <= |b| && b[off..] == Layout(lists)
    ensures Laid(b, off, lists)
    decreases |lists|
  {
    if lists != [] {
      var first, rest := lists[0], lists[1..];
      FirstHolds(b, off, first, Layout(rest));
      LayoutLaid(b, off + Size(first), rest);
    }
  }

  /** Taking in one list after the other, as long as they fit. */
  ghost function Gather(lists: seq<seq<int>>, acc: seq<int>): Parsed
    decreases |lists|
  {
    if lists == [] then Ok(acc, None)
    else if |acc| + |lists[0]| > MAX_FDS then TooMany
    else Gather(lists[1..], acc + lists[0])
  }

  lemma {:induction false} ParseLaid(b: seq<int>, off: nat, lists: seq<seq<int>>, acc: seq<int>)
    requires Laid(b, off, lists)
    ensures Parse(b, off, acc, None) == Gather(lists, acc)
    decreases |lists|
  {
    if lists != [] {
      var first := lists[0];
      ParseStep(b, off, first, acc, None);
      if |acc| + |first| <= MAX_FDS {
        ParseLaid(b, off + Size(first), lists[1..], acc + first);
      }
    }
  }

  lemma {:induction false} GatherIs(lists: seq<seq<int>>, acc: seq<int>)
    requires |acc| <= MAX_FDS
    ensures Gather(lists, acc) == if |acc + Concat(lists)| > MAX_FDS then TooMany else Ok(acc + Concat(lists), None)
    decreases |lists|
  {
    if lists == [] {
      assert acc + [] == acc;
    } else if |acc| + |lists[0]| <= MAX_FDS {
      GatherIs(lists[1..], acc + lists[0]);
      assert (acc + lists[0]) + Concat(lists[1..]) == acc + Concat(lists);
    }
  }

  /** Several messages in one buffer read as one list: same count, same order, for every list within the limit; a longer
      one is refused as a whole. */
  lemma ManyMessages(lists: seq<seq<int>>)
    requires forall i :: 0 <= i < |lists| ==> AllI32(lists[i]) && |lists[i]| < 0x1000_0000
    ensures Parse(Layout(lists), 0, [], None) == if |Concat(lists)| > MAX_FDS then TooMany else Ok(Concat(lists), None)
  {
    var b := Layout(lists);
    assert b[0..] == b && [] + Concat(lists) == Concat(lists);
    LayoutLaid(b, 0, lists);
    ParseLaid(b, 0, lists, []);
    GatherIs(lists, []);
  }

  /** What a sender lays out the kernel reads back. */
  lemma SendRoundTrip(fds: seq<int>)
    requires AllI32(fds) && |fds| < 0x1000_0000
    ensures Parse(Padded(fds), 0, [], None) == if |fds| > MAX_FDS then TooMany else Ok(fds, None)
  {
    OneMessage(fds);
    ManyMessages([fds]);
  }

  lemma OneMessage(fds: seq<int>)
    requires AllI32(fds)
    ensures Layout([fds]) == Padded(fds) && Concat([fds]) == fds
  {
    var lists := [fds];
    assert lists[1..] == [] && Layout(lists) == Padded(fds) + [] && Concat(lists) == fds + [];
  }

  /** The kernel's parser: message by message, descriptor by descriptor. */
  method ParseRights(b: seq<int>) returns (r: Parsed)
    ensures r == Parse(b, 0, [], None)
  {
    var off, fds, cred := 0, [], None;
    ghost var whole := Parse(b, 0, [], None);
    while off + HDR <= |b|
      invariant |fds| <= MAX_FDS && whole == Parse(b, off, fds, cred)
      decreases |b| - off
    {
      var len, level, typ := Long(b, off), Word(b, off + 8), Word(b, off + 12);
      if len < HDR || len > |b| - off {
        return Invalid;
      }
      if level == SOL_SOCKET && typ == SCM_CREDENTIALS {
        if len - HDR != UCRED_LEN {
          return Invalid;
        }
        cred := Some(Cred(Word(b, off + 16), FromLe(b[off + 20..off + 24]), FromLe(b[off + 24..off + 28])));
        off := off + Align8(len);
        continue;
      }
      if level != SOL_SOCKET || typ != SCM_RIGHTS || (len - HDR) % 4 != 0 {
        return Invalid;
      }
      var more := CollectWords(b, off + HDR, (len - HDR) / 4, MAX_FDS - |fds|);
      if more.None? {
        return TooMany;
      }
      fds := fds + more.value;
      off := off + Align8(len);
    }
    r := Ok(fds, cred);
  }

  /** Read `n` descriptors, or none when there is room for fewer. */
  method CollectWords(b: seq<int>, off: nat, n: nat, room: nat) returns (r: Option<seq<int>>)
    requires off + 4 * n <= |b|
    ensures r == if n > room then None else Some(Words(b, off, n))
  {
    var fds, i := [], 0;
    while i < n
      invariant i <= n && i <= room && fds == Words(b, off, i)
    {
      if i == room {
        return None;
      }
      fds := fds + [Word(b, off + 4 * i)];
      i := i + 1;
    }
    r := Some(fds);
  }

  // ─── building for a receiver ───

  /** The largest number of descriptors whose message fits in `cap` bytes. */
  function Fitting(n: nat, cap: nat): (k: nat)
    ensures k <= n && (k > 0 ==> HDR + 4 * k <= cap) && (k < n ==> HDR + 4 * (k + 1) > cap)
  {
    if cap < HDR then 0 else Min(n, (cap - HDR) / 4)
  }

  /** Write the message for the descriptors that fit; the flag says whether some did not. */
  method BuildRights(fds: seq<int>, cap: nat, out: array<int>) returns (written: nat, fits: nat, truncated: bool)
    requires AllI32(fds) && cap <= out.Length
    modifies out
    ensures fits == Fitting(|fds|, cap) && (truncated <==> fits < |fds|) && written <= cap
    ensures if fits == 0 then written == 0
            else written == Min(Align8(HDR + 4 * fits), cap) && out[..written] == Message(fds[..fits], written)
  {
    fits := Fitting(|fds|, cap);
    truncated := fits < |fds|;
    if fits == 0 {
      return 0, 0, truncated;
    }
    written := Min(Align8(HDR + 4 * fits), cap);
    LayOut(out, fds[..fits], written);
  }

  method LayOut(out: array<int>, fds: seq<int>, total: nat)
    requires AllI32(fds) && HDR + 4 * |fds| <= total <= out.Length
    modifies out
    ensures out[..total] == Message(fds, total)
  {
    PutBytes(out, 0, Header(|fds|));
    assert out[..HDR] == Header(|fds|);
    PutFds(out, HDR, fds);
    var end := HDR + 4 * |fds|;
    assert out[..end] == Header(|fds|) + Payload(fds);
    PutZeros(out, end, total);
  }

  method PutZeros(out: array<int>, off: nat, total: nat)
    requires off <= total <= out.Length
    modifies out
    ensures out[..total] == old(out[..off]) + Zeros(total - off)
  {
    PutBytes(out, off, Zeros(total - off));
    assert off + (total - off) == total;
  }

  method PutFds(out: array<int>, off: nat, fds: seq<int>)
    requires AllI32(fds) && off + 4 * |fds| <= out.Length
    modifies out
    ensures out[..off + 4 * |fds|] == old(out[..off]) + Payload(fds)
  {
    var i := 0;
    assert out[..off] == old(out[..off]) + Payload(fds[..0]);
    while i < |fds|
      invariant i <= |fds| && out[..off + 4 * i] == old(out[..off]) + Payload(fds[..i])
    {
      PutBytes(out, off + 4 * i, I32(fds[i]));
      PayloadSnoc(fds, i);
      assert old(out[..off]) + Payload(fds[..i]) + I32(fds[i]) == old(out[..off]) + (Payload(fds[..i]) + I32(fds[i]));
      i := i + 1;
    }
    assert fds[..i] == fds;
  }

  lemma PayloadSnoc(fds: seq<int>, i: nat)
    requires AllI32(fds) && i < |fds|
    ensures Payload(fds[..i + 1]) == Payload(fds[..i]) + I32(fds[i])
  {
    assert fds[..i + 1][..i] == fds[..i];
  }

  method PutBytes(out: array<int>, off: nat, bytes: seq<int>)
    requires off + |bytes| <= out.Length
    modifies out
    ensures out[..off] == old(out[..off]) && out[off..off + |bytes|] == bytes
    ensures out[..off + |bytes|] == old(out[..off]) + bytes
  {
    forall k | 0 <= k < |bytes| { out[off + k] := bytes[k]; }
  }

  /** The receiving program's decoder of a control buffer of `len` bytes. */
  function Decode(ctl: seq<int>, len: nat): seq<int>
    requires len <= |ctl|
  {
    if len < HDR || Word(ctl, 8) != SOL_SOCKET || Word(ctl, 12) != SCM_RIGHTS then []
    else
      var n := (Long(ctl, 0) - HDR) / 4;
      if n < 0 || HDR + 4 * Min(n, MAX_FDS) > |ctl| then [] else Words(ctl, HDR, Min(n, MAX_FDS))
  }

  /** With any control buffer the receiver decodes exactly the longest prefix of the set that fits. */
  lemma ReceivesPrefix(fds: seq<int>, cap: nat, ctl: seq<int>)
    requires AllI32(fds) && |fds| <= MAX_FDS
    requires var fits := Fitting(|fds|, cap);
      var written := if fits == 0 then 0 else Min(Align8(HDR + 4 * fits), cap);
      written <= |ctl| && (fits > 0 ==> ctl[..written] == Message(fds[..fits], written))
    ensures var fits := Fitting(|fds|, cap);
      Decode(ctl, if fits == 0 then 0 else Min(Align8(HDR + 4 * fits), cap)) == fds[..fits]
  {
    var fits := Fitting(|fds|, cap);
    if fits > 0 {
      DecodeMessage(ctl, Min(Align8(HDR + 4 * fits), cap), fds[..fits]);
    }
  }

  lemma DecodeMessage(ctl: seq<int>, len: nat, fds: seq<int>)
    requires AllI32(fds) && |fds| <= MAX_FDS && HDR + 4 * |fds| <= len <= |ctl| && ctl[..len] == Message(fds, len)
    ensures Decode(ctl, len) == fds
  {
    assert ctl[0..0 + len] == ctl[..len];
    MessageReads(ctl, 0, fds, len);
    DecodeIs(ctl, len, |fds|);
  }

  lemma DecodeIs(ctl: seq<int>, len: nat, n: nat)
    requires HDR + 4 * n <= len <= |ctl| && n <= MAX_FDS
    requires Long(ctl, 0) == HDR + 4 * n && Word(ctl, 8) == SOL_SOCKET && Word(ctl, 12) == SCM_RIGHTS
    ensures Decode(ctl, len) == Words(ctl, HDR, n)
  {
  }
}
