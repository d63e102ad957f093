/** Decimal numbers between the kernel's interrupt-time report and the program that reads it back: the kernel's clipped
    formatter, the program's printer, and its key search with the digit loop behind it. */
module Decimal {
  const TWO_63: nat := 0x8000_0000_0000_0000
  const TWO_64: nat := 0x1_0000_0000_0000_0000
  const NUL: char := 0 as char

  function Digit(d: nat): char
    requires d < 10
  {
    ('0' as int + d) as char
  }

  predicate IsDigit(c: char) { '0' <= c <= '9' }

  ghost predicate Digits(s: string) { forall k :: 0 <= k < |s| ==> IsDigit(s[k]) }

  /** The decimal numeral, most significant digit first. */
  ghost function Numeral(v: nat): string { if v < 10 then [Digit(v)] else Numeral(v / 10) + [Digit(v % 10)] }

  ghost function Value(s: string): nat
    requires Digits(s)
  {
    if s == [] then 0 else Value(s[..|s| - 1]) * 10 + (s[|s| - 1] as int - '0' as int)
  }

  ghost function Pow10(n: nat): nat { if n == 0 then 1 else 10 * Pow10(n - 1) }

  lemma {:induction false} NumeralDigits(v: nat)
    ensures Digits(Numeral(v)) && |Numeral(v)| > 0
  {
    if v >= 10 {
      NumeralDigits(v / 10);
    }
  }

  lemma {:induction false} NumeralRoundTrip(v: nat)
    ensures Digits(Numeral(v)) && Value(Numeral(v)) == v
  {
    NumeralDigits(v);
    var s := Numeral(v);
    if v < 10 {
      assert s[..0] == [];
    } else {
      NumeralRoundTrip(v / 10);
      assert s[..|s| - 1] == Numeral(v / 10);
    }
  }

  /** The other way round: a digit string without a superfluous zero is the numeral of its value. */
  lemma {:induction false} ValueRoundTrip(s: string)
    requires Digits(s) && s != [] && (|s| > 1 ==> s[0] != '0')
    ensures Numeral(Value(s)) == s && (|s| > 1 ==> Value(s) >= 10)
  {
    var front := s[..|s| - 1];
    if |s| == 1 {
      assert front == [] && Value(s) == s[0] as int - '0' as int;
    } else {
      ValueRoundTrip(front);
      if |front| == 1 {
        assert front[..0] == [] && Value(front) == s[0] as int - '0' as int;
      }
      assert Value(s) / 10 == Value(front) && s == front + [Digit(Value(s) % 10)];
    }
  }

  /** How many digits a number needs, exactly. */
  lemma {:induction false} NumeralFits(v: nat, n: nat)
    requires n > 0
    ensures |Numeral(v)| <= n <==> v < Pow10(n)
  {
    NumeralDigits(v);
    if v >= 10 {
      NumeralDigits(v / 10);
      if n > 1 {
        NumeralFits(v / 10, n - 1);
      }
    } else {
      TenAtMost(n);
    }
  }

  lemma {:induction false} TenAtMost(n: nat)
    requires n > 0
    ensures Pow10(n) >= 10
  {
    if n > 1 {
      TenAtMost(n - 1);
    }
  }

  lemma Widths()
    ensures TWO_63 < Pow10(19) && TWO_64 < Pow10(20)
  {
    assert Pow10(4) == 10_000;
    assert Pow10(8) == 100_000_000;
    assert Pow10(12) == 1_000_000_000_000;
    assert Pow10(16) == 10_000_000_000_000_000;
    assert Pow10(19) == 10_000_000_000_000_000_000;
  }

  /** The digit loop never passes the number it ends with, so a value in range is read without leaving the range. */
  lemma {:induction false} PrefixValue(s: string, k: nat)
    requires Digits(s) && k <= |s|
    ensures Value(s[..k]) <= Value(s)
  {
    if k == |s| {
      assert s[..k] == s;
    } else {
      PrefixValue(s[..|s| - 1], k);
      assert s[..|s| - 1][..k] == s[..k];
    }
  }

  // ─── the program's printer ───

  ghost function Reversed(s: string): string { seq(|s|, i requires 0 <= i < |s| => s[|s| - 1 - i]) }

  /** What is still to come, then the digits so far back to front. */
  ghost function Emitted(n: nat, low: string): string { (if n == 0 then [] else Numeral(n)) + Reversed(low) }

  lemma EmitDigit(n: nat, low: string)
    requires n > 0
    ensures Emitted(n / 10, low + [Digit(n % 10)]) == Emitted(n, low)
  {
    assert Reversed(low + [Digit(n % 10)]) == [Digit(n % 10)] + Reversed(low);
    var upper := if n / 10 == 0 then [] else Numeral(n / 10);
    assert Numeral(n) == upper + [Digit(n % 10)];
    assert upper + ([Digit(n % 10)] + Reversed(low)) == upper + [Digit(n % 10)] + Reversed(low);
  }

  method ReverseFirst(buf: array<char>, pos: nat)
    requires pos <= buf.Length
    modifies buf
    ensures buf[..pos] == Reversed(old(buf[..pos])) && buf[pos..] == old(buf[pos..])
  {
    var i := 0;
    while i < pos / 2
      invariant 0 <= i <= pos / 2
      invariant forall k :: 0 <= k < i ==> buf[k] == old(buf[pos - 1 - k]) && buf[pos - 1 - k] == old(buf[k])
      invariant forall k :: i <= k < pos - i ==> buf[k] == old(buf[k])
      invariant forall k :: pos <= k < buf.Length ==> buf[k] == old(buf[k])
    {
      buf[i], buf[pos - 1 - i] := buf[pos - 1 - i], buf[i];
      i := i + 1;
    }
    assert forall k :: 0 <= k < pos ==> buf[k] == old(buf[pos - 1 - k]);
  }

  /** The digits of a positive number, least significant first. */
  method EmitLowFirst(buf: array<char>, v: nat) returns (pos: nat)
    requires buf.Length == 24 && 0 < v < TWO_63
    modifies buf
    ensures pos <= 19 && Reversed(buf[..pos]) == Numeral(v)
  {
    var n := v;
    pos := 0;
    Widths();
    assert buf[..0] == [] && Reversed([]) == [];
    while n > 0
      invariant 0 <= n && pos <= 19 && n < Pow10(19 - pos)
      invariant Emitted(n, buf[..pos]) == Numeral(v)
    {
      ghost var low := buf[..pos];
      EmitDigit(n, low);
      buf[pos] := Digit(n % 10);
      assert buf[..pos + 1] == low + [Digit(n % 10)];
      pos := pos + 1;
      n := n / 10;
    }
  }

  /** Prints the numeral of every 64-bit value whose negation exists, within its 24 bytes. */
  method PrintDec(v: int) returns (out: string)
    requires 0 - TWO_63 < v < TWO_63
    ensures out == (if v < 0 then "-" + Numeral(-v) else Numeral(v))
  {
    out := "";
    var n := v;
    if n < 0 {
      out := "-";
      n := -n;
    }
    if n == 0 {
      out := out + "0";
      return;
    }
    var buf := new char[24];
    var pos := EmitLowFirst(buf, n);
    ReverseFirst(buf, pos);
    out := out + buf[..pos];
  }

  // ─── the kernel's formatter ───

  /** As much of a string as there is room for. */
  ghost function Clip(s: string, room: int): string { if room <= 0 then [] else if |s| <= room then s else s[..room] }

  /** Clipping piece by piece is clipping the whole. */
  lemma ClipAppend(s: string, t: string, room: int)
    ensures Clip(s, room) + Clip(t, room - |Clip(s, room)|) == Clip(s + t, room)
  {
  }

  method AppendStr(buf: array<char>, pos: nat, maxLen: nat, s: string) returns (p: nat)
    requires pos <= maxLen <= buf.Length
    modifies buf
    ensures pos <= p <= maxLen && buf[..p] == old(buf[..pos]) + Clip(s, maxLen - pos) && buf[p..] == old(buf[p..])
  {
    p := pos;
    var k := 0;
    while k < |s| && p < maxLen
      invariant 0 <= k <= |s| && p == pos + k && p <= maxLen
      invariant buf[..p] == old(buf[..pos]) + s[..k]
      invariant forall j :: p <= j < buf.Length ==> buf[j] == old(buf[j])
    {
      ghost var before := buf[..p];
      buf[p] := s[k];
      assert buf[..p + 1] == before + [s[k]];
      p := p + 1;
      k := k + 1;
    }
    assert Clip(s, maxLen - pos) == s[..k];
  }

  method AppendDec(buf: array<char>, pos: nat, maxLen: nat, value: nat) returns (p: nat)
    requires pos <= maxLen <= buf.Length && value < TWO_64
    modifies buf
    ensures pos <= p <= maxLen && buf[..p] == old(buf[..pos]) + Clip(Numeral(value), maxLen - pos) &&
      buf[p..] == old(buf[p..])
  {
    if value == 0 {
      p := AppendStr(buf, pos, maxLen, "0");
      return;
    }
    var tmp := new char[20];
    var i := FillFromEnd(tmp, value);
    p := AppendStr(buf, pos, maxLen, tmp[i..]);
  }

  /** The digits of a positive number, right-aligned. */
  method FillFromEnd(tmp: array<char>, value: nat) returns (i: nat)
    requires tmp.Length == 20 && 0 < value < TWO_64
    modifies tmp
    ensures i <= 20 && tmp[i..] == Numeral(value)
  {
    var v := value;
    i := 20;
    Widths();
    while v > 0
      invariant 0 <= v && i <= 20 && v < Pow10(i)
      invariant (if v == 0 then [] else Numeral(v)) + tmp[i..] == Numeral(value)
    {
      ghost var after := tmp[i..];
      i := i - 1;
      tmp[i] := Digit(v % 10);
      assert tmp[i + 1..] == after && tmp[i..] == [tmp[i]] + tmp[i + 1..];
      assert Numeral(v) == (if v / 10 == 0 then [] else Numeral(v / 10)) + [Digit(v % 10)];
      v := v / 10;
    }
  }

  /** One CPU's interrupt accounting, in the units of the report. */
  datatype Cpu = Cpu(total: nat, longest: nat, count: nat, depth: nat, vector: nat, at: nat)

  ghost predicate Fits(c: Cpu) {
    c.total < TWO_64 && c.longest < TWO_64 && c.count < TWO_64 && c.depth < TWO_64 && c.vector < TWO_64 && c.at < TWO_64
  }

  ghost function Head(n: nat, c: Cpu): string { "cpu" + Numeral(n) + " total_us=" + Numeral(c.total) }

  ghost function Middle(c: Cpu): string { " max_us=" + Numeral(c.longest) }

  ghost function Tail(c: Cpu): string {
    " count=" + Numeral(c.count) + " depth=" + Numeral(c.depth) + " max_vec=" + Numeral(c.vector) + " max_at_ms=" +
      Numeral(c.at) + "\n"
  }

  ghost function Line(n: nat, c: Cpu): string { Head(n, c) + Middle(c) + Tail(c) }

  ghost function Report(cpus: seq<Cpu>): string {
    if cpus == [] then [] else Report(cpus[..|cpus| - 1]) + Line(|cpus| - 1, cpus[|cpus| - 1])
  }

  /** A labelled number. */
  method AppendField(buf: array<char>, pos: nat, maxLen: nat, name: string, value: nat) returns (p: nat)
    requires pos <= maxLen <= buf.Length && value < TWO_64
    modifies buf
    ensures pos <= p <= maxLen && buf[..p] == old(buf[..pos]) + Clip(name + Numeral(value), maxLen - pos)
  {
    ghost var before, digits := buf[..pos], Numeral(value);
    p := AppendStr(buf, pos, maxLen, name);
    p := AppendDec(buf, p, maxLen, value);
    ClipAppend(name, digits, maxLen - pos);
  }

  method AppendLine(buf: array<char>, pos: nat, maxLen: nat, n: nat, c: Cpu) returns (p: nat)
    requires pos <= maxLen <= buf.Length && n < TWO_64 && Fits(c)
    modifies buf
    ensures pos <= p <= maxLen && buf[..p] == old(buf[..pos]) + Clip(Line(n, c), maxLen - pos)
  {
    ghost var before, room, text := buf[..pos], maxLen - pos, "";
    assert Clip("", room) == "" && buf[..pos] == before + "";
    p, text := AppendStart(buf, pos, maxLen, n, c, before, text, room);
    p, text := AppendRest(buf, p, maxLen, c, before, text, room);
    LineIs(n, c);
  }

  lemma LineIs(n: nat, c: Cpu)
    ensures "" + (Head(n, c) + Middle(c)) + Tail(c) == Line(n, c)
  {
  }

  method AppendStart(buf: array<char>, pos: nat, maxLen: nat, n: nat, c: Cpu, ghost before: string, ghost text: string,
    ghost room: nat)
    returns (p: nat, ghost longer: string)
    requires pos <= maxLen <= buf.Length && n < TWO_64 && Fits(c)
    requires buf[..pos] == before + Clip(text, room) && |before| + room == maxLen
    modifies buf
    ensures longer == text + (Head(n, c) + Middle(c))
    ensures pos <= p <= maxLen && buf[..p] == before + Clip(longer, room)
  {
    p, longer := Extend(buf, pos, maxLen, "cpu", n, before, text, room);
    p, longer := Extend(buf, p, maxLen, " total_us=", c.total, before, longer, room);
    p, longer := Extend(buf, p, maxLen, " max_us=", c.longest, before, longer, room);
    StartIs(text, n, c);
  }

  method AppendRest(buf: array<char>, pos: nat, maxLen: nat, c: Cpu, ghost before: string, ghost text: string,
    ghost room: nat)
    returns (p: nat, ghost longer: string)
    requires pos <= maxLen <= buf.Length && Fits(c)
    requires buf[..pos] == before + Clip(text, room) && |before| + room == maxLen
    modifies buf
    ensures longer == text + Tail(c)
    ensures pos <= p <= maxLen && buf[..p] == before + Clip(longer, room)
  {
    p, longer := Extend(buf, pos, maxLen, " count=", c.count, before, text, room);
    p, longer := Extend(buf, p, maxLen, " depth=", c.depth, before, longer, room);
    p, longer := Extend(buf, p, maxLen, " max_vec=", c.vector, before, longer, room);
    p, longer := Extend(buf, p, maxLen, " max_at_ms=", c.at, before, longer, room);
    ClipAppend(longer, "\n", room);
    p := AppendStr(buf, p, maxLen, "\n");
    longer := longer + "\n";
    TailIs(text, c);
  }

  /** One more field behind a clipped text. */
  method Extend(buf: array<char>, pos: nat, maxLen: nat, name: string, value: nat, ghost before: string,
    ghost text: string, ghost room: nat)
    returns (p: nat, ghost longer: string)
    requires pos <= maxLen <= buf.Length && value < TWO_64
    requires buf[..pos] == before + Clip(text, room) && |before| + room == maxLen
    modifies buf
    ensures longer == text + (name + Numeral(value))
    ensures pos <= p <= maxLen && buf[..p] == before + Clip(longer, room)
  {
    p := AppendField(buf, pos, maxLen, name, value);
    longer := text + (name + Numeral(value));
    ClipAppend(text, name + Numeral(value), room);
  }

  lemma StartIs(text: string, n: nat, c: Cpu)
    ensures text + ("cpu" + Numeral(n)) + (" total_us=" + Numeral(c.total)) + (" max_us=" + Numeral(c.longest))
      == text + (Head(n, c) + Middle(c))
  {
  }

  lemma TailIs(text: string, c: Cpu)
    ensures text + (" count=" + Numeral(c.count)) + (" depth=" + Numeral(c.depth)) + (" max_vec=" + Numeral(c.vector))
      + (" max_at_ms=" + Numeral(c.at)) + "\n" == text + Tail(c)
  {
  }

  lemma ReportGrows(cpus: seq<Cpu>, c: nat)
    requires c < |cpus|
    ensures Report(cpus[..c]) + Line(c, cpus[c]) == Report(cpus[..c + 1])
  {
    assert cpus[..c + 1][..c] == cpus[..c];
  }

  method NextLine(buf: array<char>, pos: nat, maxLen: nat, cpus: seq<Cpu>, c: nat) returns (p: nat)
    requires maxLen <= buf.Length && c < |cpus| < TWO_64 && Fits(cpus[c])
    requires pos <= maxLen && buf[..pos] == Clip(Report(cpus[..c]), maxLen)
    modifies buf
    ensures p <= maxLen && buf[..p] == Clip(Report(cpus[..c + 1]), maxLen)
  {
    ghost var text, line := Report(cpus[..c]), Line(c, cpus[c]);
    p := AppendLine(buf, pos, maxLen, c, cpus[c]);
    ClipAppend(text, line, maxLen);
    ReportGrows(cpus, c);
  }

  /** The whole report, clipped to the room there is. */
  method GenerateIrqTime(buf: array<char>, maxLen: nat, cpus: seq<Cpu>) returns (p: nat)
    requires maxLen <= buf.Length && |cpus| < TWO_64 && forall k :: 0 <= k < |cpus| ==> Fits(cpus[k])
    modifies buf
    ensures p <= maxLen && buf[..p] == Clip(Report(cpus), maxLen)
  {
    p := 0;
    var c := 0;
    while c < |cpus|
      invariant 0 <= c <= |cpus| && p <= maxLen && buf[..p] == Clip(Report(cpus[..c]), maxLen)
    {
      p := NextLine(buf, p, maxLen, cpus, c);
      c := c + 1;
    }
    assert cpus[..c] == cpus;
  }

  // ─── the program's reader ───

  predicate Ends(c: char) { c == NUL || c == '\n' }

  /** Where on the first line, from index i on, the key first stands; -1 when nowhere. */
  ghost function Find(b: string, key: string, i: nat): int
    decreases |b| - i
  {
    if i >= |b| || Ends(b[i]) then -1 else if key <= b[i..] then i else Find(b, key, i + 1)
  }

  /** The digits that stand at index q. */
  ghost function DigitsAt(b: string, q: nat): (s: string)
    ensures Digits(s)
    decreases |b| - q
  {
    if q < |b| && IsDigit(b[q]) then [b[q]] + DigitsAt(b, q + 1) else []
  }

  ghost function KeyValue(b: string, key: string): int {
    var i := Find(b, key, 0);
    if i < 0 then -1 else Value(DigitsAt(b, i + |key|))
  }

  /** Find is the first occurrence that begins on the line, and fails only where there is none. */
  lemma {:induction false} FindFirst(b: string, key: string, i: nat)
    ensures var f := Find(b, key, i);
      && (f >= 0 ==> i <= f < |b| && key <= b[f..] && forall k :: i <= k < f ==> !Ends(b[k]) && !(key <= b[k..]))
      && (f < 0 ==> forall k :: i <= k < |b| && key <= b[k..] ==> exists e :: i <= e <= k && Ends(b[e]))
    decreases |b| - i
  {
    if i < |b| && !Ends(b[i]) && !(key <= b[i..]) {
      FindFirst(b, key, i + 1);
    }
  }

  method Matches(b: string, i: nat, key: string) returns (yes: bool)
    requires i < |b| && b[|b| - 1] == NUL && NUL !in key
    ensures yes <==> key <= b[i..]
  {
    var j := 0;
    while j < |key| && b[i + j] == key[j]
      invariant 0 <= j <= |key| && i + j < |b| && key[..j] == b[i..i + j]
    {
      assert b[i + j] != NUL;
      j := j + 1;
    }
    yes := j == |key|;
    assert b[i..][..j] == key[..j];
    if yes {
      assert key == b[i..][..|key|];
    } else {
      assert b[i..][j] == b[i + j];
    }
  }

  method ParseDigits(b: string, start: nat) returns (v: nat)
    requires start < |b| && b[|b| - 1] == NUL
    ensures v == Value(DigitsAt(b, start))
  {
    v := 0;
    var q := start;
    while IsDigit(b[q])
      invariant start <= q < |b| && Digits(b[start..q]) && v == Value(b[start..q])
      invariant DigitsAt(b, start) == b[start..q] + DigitsAt(b, q)
      decreases |b| - q
    {
      assert b[q] != NUL;
      assert b[start..q + 1][..q - start] == b[start..q];
      v := v * 10 + (b[q] as int - '0' as int);
      q := q + 1;
    }
    assert DigitsAt(b, start) == b[start..q];
  }

  /** The probe's loop for one key: NUL-terminated text, first line only. */
  method ReadKey(b: string, key: string) returns (v: int)
    requires b != [] && b[|b| - 1] == NUL && NUL !in key
    ensures v == KeyValue(b, key)
  {
    v := -1;
    var i := 0;
    while !Ends(b[i])
      invariant 0 <= i < |b| && v == -1 && Find(b, key, 0) == Find(b, key, i)
      decreases |b| - i
    {
      var yes := Matches(b, i, key);
      if yes {
        KeyInside(b, i, key);
        v := ParseDigits(b, i + |key|);
        return;
      }
      i := i + 1;
    }
  }

  lemma KeyInside(b: string, i: nat, key: string)
    requires i < |b| && b[|b| - 1] == NUL && NUL !in key && key <= b[i..]
    ensures i + |key| < |b|
  {
  }

  /** A text without the key's first letter is passed over. */
  lemma {:induction false} FindSkips(pre: string, rest: string, key: string, i: nat)
    requires key != [] && i <= |pre| && forall k :: i <= k < |pre| ==> pre[k] != key[0] && !Ends(pre[k])
    ensures Find(pre + rest, key, i) == Find(pre + rest, key, |pre|)
    decreases |pre| - i
  {
    if i < |pre| {
      assert (pre + rest)[i..][0] == pre[i];
      FindSkips(pre, rest, key, i + 1);
    }
  }

  lemma {:induction false} DigitsAre(pre: string, digits: string, rest: string)
    requires Digits(digits) && (rest != [] ==> !IsDigit(rest[0]))
    ensures DigitsAt(pre + digits + rest, |pre|) == digits
    decreases digits
  {
    var b := pre + digits + rest;
    if digits != [] {
      assert b == (pre + [digits[0]]) + digits[1..] + rest;
      DigitsAre(pre + [digits[0]], digits[1..], rest);
    }
  }

  /** A key behind text without its first letter, followed by a numeral: that number is read. */
  lemma ReadsField(pre: string, key: string, n: nat, rest: string)
    requires key != [] && !Ends(key[0]) && (rest != [] ==> !IsDigit(rest[0])) && Without(pre, key[0])
    ensures KeyValue(pre + key + Numeral(n) + rest, key) == n
  {
    var b := pre + key + Numeral(n) + rest;
    assert b == pre + (key + Numeral(n) + rest);
    FindSkips(pre, key + Numeral(n) + rest, key, 0);
    assert b[|pre|..] == key + Numeral(n) + rest;
    NumeralRoundTrip(n);
    DigitsAre(pre + key, Numeral(n), rest);
  }

  ghost predicate Without(s: string, c: char) { forall k :: 0 <= k < |s| ==> s[k] != c && !Ends(s[k]) }

  /** Two fields behind one another are both read, whichever is asked for. */
  lemma ReadsTwo(pre: string, first: string, n: nat, gap: string, second: string, m: nat, rest: string)
    requires first != [] && second != [] && gap != [] && !IsDigit(gap[0]) && (rest != [] ==> !IsDigit(rest[0]))
    requires !Ends(first[0]) && !Ends(second[0]) && !IsDigit(second[0])
    requires Without(pre, first[0]) && Without(pre, second[0]) && Without(first, second[0]) && Without(gap, second[0])
    ensures var b := pre + first + Numeral(n) + (gap + second + Numeral(m) + rest);
      KeyValue(b, first) == n && KeyValue(b, second) == m
  {
    ReadsField(pre, first, n, gap + second + Numeral(m) + rest);
    NumeralDigits(n);
    WithoutAll(pre, first, Numeral(n), gap, second[0]);
    ReadsField(pre + first + Numeral(n) + gap, second, m, rest);
    Behind(pre + first + Numeral(n), gap, second, Numeral(m), rest);
  }

  lemma WithoutAll(pre: string, first: string, digits: string, gap: string, c: char)
    requires Without(pre, c) && Without(first, c) && Digits(digits) && !IsDigit(c) && Without(gap, c)
    ensures Without(pre + first + digits + gap, c)
  {
    assert Without(digits, c);
    assert Without(pre + first, c);
    assert Without(pre + first + digits, c);
  }

  lemma Behind(a: string, b: string, c: string, d: string, e: string)
    ensures a + b + c + d + e == a + (b + c + d + e)
  {
  }

  /** The report begins with CPU 0's line. */
  lemma {:induction false} ReportStarts(cpus: seq<Cpu>)
    requires cpus != []
    ensures Line(0, cpus[0]) <= Report(cpus)
  {
    if |cpus| > 1 {
      ReportStarts(cpus[..|cpus| - 1]);
    } else {
      assert Report(cpus[..0]) == [];
    }
  }

  /** CPU 0's numbers are in the reader's range and the text is not cut before they end. */
  ghost predicate Readable(cpus: seq<Cpu>, room: nat) {
    cpus != [] && cpus[0].total < TWO_63 && cpus[0].longest < TWO_63 && room >= 60
  }

  lemma Opening()
    ensures "cpu" + Numeral(0) + " total_us=" == "cpu0 " + "total_us=" && " max_us=" == " " + "max_us="
  {
  }

  lemma StartFits(c: Cpu)
    requires c.total < TWO_63 && c.longest < TWO_63
    ensures |Head(0, c) + Middle(c)| <= 60
  {
    Widths();
    NumeralFits(c.total, 19);
    NumeralFits(c.longest, 19);
  }

  /** A clipped text still begins as it did, up to where it is cut. */
  lemma ClipKeeps(start: string, after: string, text: string, room: nat) returns (rest: string)
    requires start + after <= text && |start| <= room && after != [] && !IsDigit(after[0])
    ensures Clip(text, room) + [NUL] == start + rest && rest != [] && !IsDigit(rest[0])
  {
    var b := Clip(text, room) + [NUL];
    rest := b[|start|..];
    assert text[..|start|] == start && text[|start|] == after[0];
    assert b[..|start|] == start;
  }

  /** Whatever the number of CPUs and wherever from sixty characters on the text is cut off, the program reads back
      exactly the two numbers the kernel put in CPU 0's line. */
  lemma ReportReadBack(cpus: seq<Cpu>, room: nat)
    requires Readable(cpus, room)
    ensures var b := Clip(Report(cpus), room) + [NUL];
      KeyValue(b, "total_us=") == cpus[0].total && KeyValue(b, "max_us=") == cpus[0].longest
  {
    var c := cpus[0];
    ReportStarts(cpus);
    StartFits(c);
    assert Tail(c)[0] == ' ';
    var rest := ClipKeeps(Head(0, c) + Middle(c), Tail(c), Report(cpus), room);
    ReadsLine(c, rest);
  }

  lemma ReadsLine(c: Cpu, rest: string)
    requires rest != [] && !IsDigit(rest[0])
    ensures var b := Head(0, c) + Middle(c) + rest;
      KeyValue(b, "total_us=") == c.total && KeyValue(b, "max_us=") == c.longest
  {
    Opening();
    ReadsTwo("cpu0 ", "total_us=", c.total, " ", "max_us=", c.longest, rest);
    Regroup("cpu" + Numeral(0) + " total_us=", Numeral(c.total), " max_us=", Numeral(c.longest), rest);
  }

  lemma Regroup(a: string, b: string, c: string, d: string, e: string)
    ensures a + b + (c + d) + e == a + b + (c + d + e)
  {
  }

  /** Both keys, as the program keeps them. */
  method ReadIrqTime(b: string) returns (total: int, longest: int)
    requires b != [] && b[|b| - 1] == NUL
    ensures total == KeyValue(b, "total_us=") && longest == KeyValue(b, "max_us=")
    ensures forall cpus: seq<Cpu>, room: nat ::
      (Readable(cpus, room) && b == Clip(Report(cpus), room) + [NUL]) ==>
        total == cpus[0].total && longest == cpus[0].longest
  {
    total := ReadKey(b, "total_us=");
    longest := ReadKey(b, "max_us=");
    forall cpus: seq<Cpu>, room: nat | Readable(cpus, room) && b == Clip(Report(cpus), room) + [NUL]
      ensures total == cpus[0].total && longest == cpus[0].longest
    {
      ReportReadBack(cpus, room);
    }
  }
}
