/** What a process sees of the descriptor machine: end of file on pipes, shared offsets and status flags. */
module OpenFiles {
  import opened Basics
  import opened Descriptors

  // ─── pipes ───

  ghost predicate SomeoneHolds(s: State, o: Object) { exists h :: h in s.held && s.held[h].obj == o }

  lemma HeldExactly(s: State, o: Object)
    requires CountsOk(s)
    ensures Ref(s, o) == 0 <==> !SomeoneHolds(s, o)
  {
    if SomeoneHolds(s, o) {
      var h :| h in s.held && s.held[h].obj == o;
      assert UnitOf(h, o) in Units(s.held, o);
    } else {
      assert Units(s.held, o) == {};
    }
  }

  /** What a read of a pipe returns: bytes, end of file, or "try again". */
  function PipeRead(s: State, pipe: nat, queued: nat, count: nat): int {
    if count == 0 then 0
    else if queued > 0 then (if count < queued then count else queued)
    else if Ref(s, PipeEnd(pipe, true)) == 0 then 0
    else -11
  }

  /** In every run a drained pipe reads end of file exactly when no write end is left in any table or in flight. */
  lemma PipeEofExactly(s: State, ops: seq<Op>, pipe: nat, count: nat)
    requires Inv(s) && count > 0
    ensures PipeRead(Run(s, ops), pipe, 0, count) == 0 <==> !SomeoneHolds(Run(s, ops), PipeEnd(pipe, true))
  {
    RunInv(s, ops);
    HeldExactly(Run(s, ops), PipeEnd(pipe, true));
  }

  /** A copy in flight ends in exactly one way: installed, it holds on in one table; dropped, it gives back one
      reference. */
  lemma FlightEndsOnce(s: State, h: Holder, k: Holder, cloexec: bool)
    requires Inv(s) && h.Flight? && h in s.held
    ensures var o := s.held[h].obj;
      && h !in Step(s, Drop(h)).held && Ref(Step(s, Drop(h)), o) == Ref(s, o) - 1
      && (Accepts(s, Install(h, k, cloexec)) ==>
            var s' := Step(s, Install(h, k, cloexec));
            && h !in s'.held && k in s'.held && s'.held[k].obj == o && s'.held[k].origin == s.held[h].origin
            && Ref(s', o) == Ref(s, o) - (if !PerFd(o) && TableHas(s.held, k.pid, o) then 1 else 0))
  {
    HeldExactly(s, s.held[h].obj);
  }

  // ─── offsets and status flags ───

  /** Same report, and the link, once made, stays. */
  ghost predicate SameReport(s: State, s': State, k: Holder) {
    k in s.held && k in s'.held && Offset(s', k) == Offset(s, k) && Status(s', k) == Status(s, k) &&
    s'.held[k].origin == s.held[k].origin && s'.held[k].cloexec == s.held[k].cloexec &&
    (s.held[k].slot != 0 ==> s'.held[k].slot == s.held[k].slot)
  }

  lemma ShareKeeps(s: State, h: Holder, k: Holder)
    requires Inv(s) && h in s.held && k in s.held
    ensures SameReport(s, Share(s, h), k)
  {
    FirstFreeIs(s.pool, FIRST);
    if Share(s, h) != s {
      FreeSlotUnused(s, FirstFree(s.pool, FIRST).value, k);
    }
  }

  lemma AddKeeps(s: State, h: Holder, d: Desc, k: Holder)
    requires h !in s.held && k in s.held
    ensures SameReport(s, Add(s, h, d), k)
  {
  }

  lemma CopyKeeps(s: State, h: Holder, x: Holder, cloexec: bool, k: Holder)
    requires Inv(s) && h in s.held && x !in s.held && k in s.held
    ensures SameReport(s, Copy(s, h, x, cloexec), k)
  {
    ShareKeeps(s, h, k);
    ShareInv(s, h);
    var s1 := Share(s, h);
    AddKeeps(s1, x, s1.held[h].(cloexec := cloexec), k);
  }

  lemma RemoveKeeps(s: State, h: Holder, k: Holder)
    requires h in s.held && k in s.held && k != h
    ensures SameReport(s, Remove(s, h), k)
  {
  }

  lemma InstallKeeps(s: State, h: Holder, x: Holder, cloexec: bool, k: Holder)
    requires h in s.held && x.Fd? && x !in s.held && k in s.held && k != h
    ensures SameReport(s, Installed(s, h, x, cloexec), k)
  {
  }

  lemma SameReportTrans(s: State, s1: State, s2: State, k: Holder)
    requires SameReport(s, s1, k) && SameReport(s1, s2, k)
    ensures SameReport(s, s2, k)
  {
  }

  lemma ForkOneKeeps(s: State, h: Holder, x: Holder, k: Holder)
    requires Inv(s) && k in s.held
    ensures SameReport(s, ForkOne(s, h, x), k)
  {
    if h in s.held && x !in s.held {
      CopyKeeps(s, h, x, s.held[h].cloexec, k);
    }
  }

  lemma {:induction false} ForkKeeps(s: State, parent: nat, child: nat, n: nat, k: Holder)
    requires Inv(s) && n <= MAX_FDS && k in s.held
    ensures SameReport(s, ForkUpTo(s, parent, child, n), k)
  {
    if n > 0 {
      var s1 := ForkUpTo(s, parent, child, n - 1);
      ForkKeeps(s, parent, child, n - 1, k);
      ForkInv(s, parent, child, n - 1);
      ForkOneKeeps(s1, Fd(parent, n - 1), Fd(child, n - 1), k);
      SameReportTrans(s, s1, ForkUpTo(s, parent, child, n), k);
    }
  }

  lemma {:induction false} ExitKeeps(s: State, pid: nat, n: nat, k: Holder)
    requires Inv(s) && k in s.held
    ensures k in ExitUpTo(s, pid, n).held ==> SameReport(s, ExitUpTo(s, pid, n), k)
  {
    if n > 0 {
      ExitKeeps(s, pid, n - 1, k);
      var s1 := ExitUpTo(s, pid, n - 1);
      var h := Fd(pid, n - 1);
      if h in s1.held {
        assert Remove(s1, h).held == s1.held - {h};
        if k in s1.held && k != h {
          RemoveKeeps(s1, h, k);
          SameReportTrans(s, s1, Remove(s1, h), k);
        }
      }
    }
  }

  /** Calls that may change what a descriptor reports: a seek, a read or write at the offset, a change of flags. */
  predicate Writes(op: Op) { op.Seek? || op.Read? || op.Write? || op.SetFlags? || op.SetCloexec? }

  /** No open, dup, pass, install, drop, close, fork, exit, pread or pwrite changes what any surviving descriptor
      reports. */
  lemma OthersKeep(s: State, op: Op, k: Holder)
    requires Inv(s) && !Writes(op) && k in s.held && k in Step(s, op).held
    ensures SameReport(s, Step(s, op), k)
  {
    if Accepts(s, op) {
      match op
      case Open(h, obj, flags) => AddKeeps(s, h, Desc(obj, s.opens, 0, 0, flags, false), k);
      case Dup(h, x, cloexec) => CopyKeeps(s, h, x, cloexec, k);
      case Pass(h, x) => CopyKeeps(s, h, x, false, k);
      case Install(h, x, cloexec) => InstallKeeps(s, h, x, cloexec, k);
      case Drop(h) => RemoveInv(s, h); RemoveKeeps(s, h, k);
      case Close(h) => RemoveInv(s, h); RemoveKeeps(s, h, k);
      case Fork(parent, child) => ForkKeeps(s, parent, child, MAX_FDS, k);
      case Exit(pid) => ExitKeeps(s, pid, MAX_FDS, k);
      case _ =>
    }
  }

  predicate MovesOffset(op: Op) { op.Seek? || op.Read? || op.Write? }

  /** Where the offset is after a seek, a read (which stops at the end of the file) or a write (which an append starts
      there). */
  function NewOffset(s: State, op: Op): nat
    requires MovesOffset(op) && op.h in s.held
  {
    match op
    case Seek(_, offset) => offset
    case Read(h, size, count) => if Offset(s, h) >= size then Offset(s, h) else Min(Offset(s, h) + count, size)
    case Write(h, size, n) => if Appends(Status(s, h)) then size + n else Offset(s, h) + n
    case _ => 0
  }

  /** `k` shows what is done through `h`: it is `h`, or shares its slot. */
  predicate Shows(s: State, h: Holder, k: Holder)
    requires h in s.held && k in s.held
  {
    k == h || (s.held[k].slot != 0 && s.held[k].slot == s.held[h].slot)
  }

  lemma OffsetReaches(s: State, h: Holder, offset: nat, k: Holder)
    requires PoolOk(s) && h in s.held && k in s.held
    ensures var s' := SetOffset(s, h, offset);
      && k in s'.held && s'.held[k] == s.held[k].(offset := s'.held[k].offset) && Status(s', k) == Status(s, k)
      && Offset(s', k) == if Shows(s, h, k) then offset else Offset(s, k)
  {
  }

  lemma StatusReaches(s: State, h: Holder, flags: nat, k: Holder)
    requires PoolOk(s) && h in s.held && k in s.held
    ensures var s' := SetStatus(s, h, flags);
      && k in s'.held && s'.held[k] == s.held[k].(flags := s'.held[k].flags) && Offset(s', k) == Offset(s, k)
      && Status(s', k) == if Shows(s, h, k) then flags else Status(s, k)
  {
  }

  /** A seek, a read, a write or a change of flags through one descriptor shows at exactly the descriptors that share
      its slot; those all come from the same open; close-on-exec changes at that descriptor alone. */
  lemma WriteReaches(s: State, op: Op, k: Holder)
    requires Inv(s) && Writes(op) && Accepts(s, op) && k in s.held
    ensures var s' := Step(s, op);
      && k in s'.held && (Shows(s, op.h, k) ==> s.held[k].origin == s.held[op.h].origin)
      && Offset(s', k) == (if Shows(s, op.h, k) && MovesOffset(op) then NewOffset(s, op) else Offset(s, k))
      && Status(s', k) == (if Shows(s, op.h, k) && op.SetFlags? then op.flags else Status(s, k))
      && s'.held[k].cloexec == (if k == op.h && op.SetCloexec? then op.cloexec else s.held[k].cloexec)
      && s'.held[k].slot == s.held[k].slot && s'.held[k].origin == s.held[k].origin
  {
    if MovesOffset(op) {
      assert Step(s, op) == SetOffset(s, op.h, NewOffset(s, op));
      OffsetReaches(s, op.h, NewOffset(s, op), k);
    } else if op.SetFlags? {
      StatusReaches(s, op.h, op.flags, k);
    }
  }

  ghost predicate Linked(s: State, h: Holder, k: Holder) {
    h in s.held && k in s.held && s.held[h].slot != 0 && s.held[h].slot == s.held[k].slot
  }

  ghost predicate StaysHeld(s: State, ops: seq<Op>, h: Holder) {
    h in Run(s, ops).held && (ops != [] ==> StaysHeld(s, ops[..|ops| - 1], h))
  }

  lemma StepLinked(s: State, op: Op, h: Holder, k: Holder)
    requires Inv(s) && Linked(s, h, k) && h in Step(s, op).held && k in Step(s, op).held
    ensures Linked(Step(s, op), h, k)
  {
    if Writes(op) {
      if Accepts(s, op) {
        WriteReaches(s, op, h);
        WriteReaches(s, op, k);
      }
    } else {
      OthersKeep(s, op, h);
      OthersKeep(s, op, k);
    }
  }

  /** Linked descriptors report the same offset and flags in every later state, for as long as both are held. */
  lemma {:induction false} LinkedForever(s: State, ops: seq<Op>, h: Holder, k: Holder)
    requires Inv(s) && Linked(s, h, k) && StaysHeld(s, ops, h) && StaysHeld(s, ops, k)
    ensures Linked(Run(s, ops), h, k)
    ensures Offset(Run(s, ops), h) == Offset(Run(s, ops), k) && Status(Run(s, ops), h) == Status(Run(s, ops), k)
  {
    RunInv(s, ops);
    if ops != [] {
      LinkedForever(s, ops[..|ops| - 1], h, k);
      RunInv(s, ops[..|ops| - 1]);
      StepLinked(Run(s, ops[..|ops| - 1]), ops[|ops| - 1], h, k);
    }
  }

  predicate PoolHasRoom(s: State) { exists i :: i in s.pool && s.pool[i].refs == 0 }

  lemma ShareLinksExactly(s: State, h: Holder)
    requires Inv(s) && h in s.held
    ensures Share(s, h).held[h].slot != 0 <==> UsesOffset(s.held[h].obj) && (s.held[h].slot != 0 || PoolHasRoom(s))
  {
    FirstFreeIs(s.pool, FIRST);
  }

  /** A copy is linked to its original exactly when the kind has an offset and the offset is already shared or the pool
      has room; the copy starts with the original's report either way. */
  lemma CopyLinksExactly(s: State, h: Holder, k: Holder, cloexec: bool)
    requires Inv(s) && h in s.held && k !in s.held
    ensures var s' := Copy(s, h, k, cloexec);
      && h in s'.held && k in s'.held && Offset(s', k) == Offset(s, h) && Status(s', k) == Status(s, h)
      && (Linked(s', h, k) <==> UsesOffset(s.held[h].obj) && (s.held[h].slot != 0 || PoolHasRoom(s)))
  {
    ShareLinksExactly(s, h);
    ShareInv(s, h);
    ShareKeeps(s, h, h);
    var s1 := Share(s, h);
    AddKeeps(s1, k, s1.held[h].(cloexec := cloexec), h);
    AddReports(s1, k, s1.held[h].(cloexec := cloexec));
  }

  lemma AddReports(s: State, k: Holder, d: Desc)
    ensures var s' := Add(s, k, d);
      && k in s'.held && s'.held[k] == d && (d.slot in s'.pool <==> d.slot in s.pool)
      && Offset(s', k) == (if d.slot in s.pool then s.pool[d.slot].offset else d.offset)
      && Status(s', k) == (if d.slot in s.pool then s.pool[d.slot].flags else d.flags)
  {
  }

  // ─── a full pool ───

  /** Pairs of descriptors, thirty to a process, behind the three that every process starts with. */
  function First(k: nat): Holder { Fd(k / 30, 2 * (k % 30) + 3) }
  function Second(k: nat): Holder { Fd(k / 30, 2 * (k % 30) + 4) }

  const FILE := TmpFile(0)

  /** `n` opens of one file, each followed by a dup. */
  function FillOps(n: nat): seq<Op> {
    if n == 0 then [] else FillOps(n - 1) + [Open(First(n - 1), FILE, 0)] + [Dup(First(n - 1), Second(n - 1), false)]
  }

  lemma RunSnoc(s: State, ops: seq<Op>, op: Op)
    ensures Run(s, ops + [op]) == Step(Run(s, ops), op)
  {
    assert (ops + [op])[..|ops|] == ops;
  }

  ghost predicate SlotsTaken(pool: map<nat, Slot>, n: nat) {
    forall i :: 1 <= i <= POOL_SIZE ==> i in pool && (pool[i].refs > 0 <==> i <= n)
  }

  ghost predicate NumbersBelow(held: map<Holder, Desc>, n: nat) {
    forall h :: h in held ==> h.Fd? && h.fd >= 3 && 30 * h.pid + (h.fd - 3) / 2 < n
  }

  /** After `n` rounds the first `n` slots are shared, the others free, and only descriptors of those rounds exist. */
  ghost predicate FilledTo(s: State, n: nat) { Inv(s) && SlotsTaken(s.pool, n) && NumbersBelow(s.held, n) }

  lemma {:induction false} LowestFree(pool: map<nat, Slot>, i: nat, n: nat)
    requires i <= n + 1 <= POOL_SIZE && n + 1 in pool && pool[n + 1].refs == 0
    requires forall j :: i <= j <= n ==> j in pool && pool[j].refs > 0
    ensures FirstFree(pool, i) == Some(n + 1)
    decreases POOL_SIZE - i
  {
    if i <= n {
      LowestFree(pool, i + 1, n);
    }
  }

  lemma OpenRound(s: State, n: nat)
    requires FilledTo(s, n)
    ensures var s1 := Step(s, Open(First(n), FILE, 0));
      && Inv(s1) && s1.pool == s.pool && First(n) in s1.held && s1.held[First(n)].obj == FILE
      && s1.held[First(n)].slot == 0
      && s1.held.Keys == s.held.Keys + {First(n)} && Second(n) !in s1.held
  {
    StepInv(s, Open(First(n), FILE, 0));
    assert First(n) !in s.held && Second(n) !in s.held;
    assert 0 !in s.pool;
  }

  lemma DupTakesSlot(s: State, h: Holder, k: Holder, n: nat)
    requires n < POOL_SIZE && h in s.held && s.held[h].obj == FILE && s.held[h].slot == 0 && SlotsTaken(s.pool, n)
    ensures SlotsTaken(Copy(s, h, k, false).pool, n + 1)
  {
    LowestFree(s.pool, FIRST, n);
    var pool := Copy(s, h, k, false).pool;
    assert pool == s.pool[n + 1 := Slot(2, s.held[h].offset, s.held[h].flags)];
  }

  lemma DupRound(s: State, h: Holder, k: Holder, n: nat)
    requires n < POOL_SIZE && Inv(s) && h in s.held && s.held[h].obj == FILE && s.held[h].slot == 0
    requires Accepts(s, Dup(h, k, false)) && SlotsTaken(s.pool, n)
    ensures var s' := Step(s, Dup(h, k, false));
      Inv(s') && s'.held.Keys == s.held.Keys + {k} && SlotsTaken(s'.pool, n + 1)
  {
    CopyInv(s, h, k, false);
    DupTakesSlot(s, h, k, n);
  }

  lemma TwoMore(held: map<Holder, Desc>, held': map<Holder, Desc>, n: nat)
    requires NumbersBelow(held, n) && held'.Keys == held.Keys + {First(n)} + {Second(n)}
    ensures NumbersBelow(held', n + 1)
  {
  }

  lemma Round(s: State, n: nat)
    requires FilledTo(s, n) && n < POOL_SIZE
    ensures FilledTo(Step(Step(s, Open(First(n), FILE, 0)), Dup(First(n), Second(n), false)), n + 1)
  {
    var s1 := Step(s, Open(First(n), FILE, 0));
    OpenRound(s, n);
    DupRound(s1, First(n), Second(n), n);
    TwoMore(s.held, Step(s1, Dup(First(n), Second(n), false)).held, n);
  }

  lemma NoneFilled(s: State)
    requires Boot(s)
    ensures FilledTo(s, 0)
  {
    BootInv(s);
  }

  /** One round, as a function of the state. */
  function Rounded(s: State, n: nat): State {
    Step(Step(s, Open(First(n), FILE, 0)), Dup(First(n), Second(n), false))
  }

  lemma RoundRuns(s: State, n: nat)
    ensures Run(s, FillOps(n + 1)) == Rounded(Run(s, FillOps(n)), n)
  {
    RunSnoc(s, FillOps(n), Open(First(n), FILE, 0));
    RunSnoc(s, FillOps(n) + [Open(First(n), FILE, 0)], Dup(First(n), Second(n), false));
  }

  lemma NextFilled(s: State, s': State, n: nat)
    requires FilledTo(s, n) && n < POOL_SIZE && s' == Rounded(s, n)
    ensures FilledTo(s', n + 1)
  {
    Round(s, n);
  }

  lemma {:induction false} Fills(s: State, n: nat)
    requires FilledTo(s, 0) && n <= POOL_SIZE
    ensures FilledTo(Run(s, FillOps(n)), n)
  {
    if n > 0 {
      var m: nat := n - 1;
      Fills(s, m);
      RoundRuns(s, m);
      NextFilled(Run(s, FillOps(m)), Run(s, FillOps(m + 1)), m);
    }
  }

  /** From boot: 512 files opened and duplicated fill the pool. The next open and dup make a copy that is not linked,
      and a seek through one of the two does not show at the other. */
  lemma FullPoolUnlinks(s: State, offset: nat)
    requires Boot(s)
    ensures var h, k := First(POOL_SIZE), Second(POOL_SIZE);
      var ops := FillOps(POOL_SIZE) + [Open(h, FILE, 0)] + [Dup(h, k, false)];
      var s2, s3 := Run(s, ops), Run(s, ops + [Seek(h, offset)]);
      && h in s2.held && k in s2.held && !Linked(s2, h, k)
      && h in s3.held && k in s3.held && Offset(s3, h) == offset && Offset(s3, k) == 0
  {
    var n := POOL_SIZE;
    var h, k := First(n), Second(n);
    var ops0 := FillOps(n);
    RunSnoc(s, ops0, Open(h, FILE, 0));
    RunSnoc(s, ops0 + [Open(h, FILE, 0)], Dup(h, k, false));
    RunSnoc(s, ops0 + [Open(h, FILE, 0)] + [Dup(h, k, false)], Seek(h, offset));
    NoneFilled(s);
    Fills(s, n);
    var s0 := Run(s, ops0);
    OpenRound(s0, n);
    UnlinkedDup(Step(s0, Open(h, FILE, 0)), h, k, offset);
  }

  lemma UnlinkedDup(s1: State, h: Holder, k: Holder, offset: nat)
    requires Inv(s1) && h in s1.held && k !in s1.held && h.Fd? && k.Fd? && k.fd < MAX_FDS && k.pid == h.pid
    requires s1.held[h].obj == FILE && s1.held[h].slot == 0 && s1.held[h].offset == 0 && !PoolHasRoom(s1)
    ensures var s2 := Step(s1, Dup(h, k, false));
      var s3 := Step(s2, Seek(h, offset));
      && h in s2.held && k in s2.held && !Linked(s2, h, k)
      && h in s3.held && k in s3.held && Offset(s3, h) == offset && Offset(s3, k) == 0
  {
    CopyLinksExactly(s1, h, k, false);
    CopyInv(s1, h, k, false);
    var s2 := Step(s1, Dup(h, k, false));
    assert 0 !in s1.pool;
    WriteReaches(s2, Seek(h, offset), h);
    WriteReaches(s2, Seek(h, offset), k);
  }
}
