/** What the accounting and the refinement give: no trace of an exited child, accesses served exactly as the plain
    machine permits, and places where the kernel's own rules leave the plain machine. */
module MemoryTheorems {
  import opened Basics
  import opened PteBits
  import opened PagedMemory
  import opened PlainMemory

  // ─── teardown restores every count ───

  /** Two leaves hold the same resource. */
  predicate SameHold(l: Leaf, k: Leaf) {
    (l.Present? || l.Reserved? <==> k.Present? || k.Reserved?) && (l.Present? || l.Reserved? ==> l.frame == k.frame) &&
    SlotOf(l) == SlotOf(k)
  }

  /** Equal holdings of all leaves mean equal reference counts and an equal swap bitmap. */
  lemma SameHoldsSameCounts(m: Machine, m': Machine)
    requires Inv(m) && Inv(m') && m'.ref.Keys == m.ref.Keys
    requires forall a: Addr :: SameHold(LeafAt(m, a), LeafAt(m', a))
    ensures m'.ref == m.ref && m'.used == m.used
  {
    forall f | f in m.ref ensures m'.ref[f] == m.ref[f] {
      forall a: Addr ensures a in Owners(m'.pt, f) <==> a in Owners(m.pt, f) {
        assert SameHold(LeafAt(m, a), LeafAt(m', a));
      }
      assert Owners(m'.pt, f) == Owners(m.pt, f);
    }
    forall s ensures s in m'.used <==> s in m.used {
      SlotMoves(m, m', s);
      SlotMoves(m', m, s);
    }
  }

  lemma SlotMoves(m: Machine, m': Machine, s: nat)
    requires Inv(m) && Inv(m')
    requires forall a: Addr :: SlotOf(LeafAt(m, a)) == SlotOf(LeafAt(m', a))
    ensures s in m.used ==> s in m'.used
  {
    if s in m.used {
      assert SlotNamed(m.pt, s);
      var a :| a in m.pt && m.pt[a].Swap? && m.pt[a].slot == s;
      assert SlotOf(LeafAt(m', a)) == {s};
      assert LeafOk(m', m'.pt[a]);
    }
  }

  /** Steps of process `c` on its own pages, and reclaim of them. */
  predicate OwnOp(op: Op, c: Pid) {
    match op
    case Map(a, _, _) => a.pid == c
    case Unmap(a) => a.pid == c
    case Protect(a, _, _) => a.pid == c
    case SwapIn(a, _) => a.pid == c
    case CowFault(a, _) => a.pid == c
    case Store(a, _, _) => a.pid == c
    case Reclaim(a, _) => a.pid == c
    case DontNeed(a, _) => a.pid == c
    case _ => false
  }

  ghost predicate OthersUntouched(m: Machine, m': Machine, c: Pid) {
    && m'.pages == m.pages && m'.ref.Keys == m.ref.Keys && m'.slots == m.slots && m'.area == m.area
    && forall b: Addr :: b.pid != c ==> LeafAt(m', b) == LeafAt(m, b)
  }

  lemma PutLocal(m: Machine, m1: Machine, a: Addr, l: Leaf)
    requires m1 == m.(mem := m1.mem, disk := m1.disk)
    ensures OthersUntouched(m, PutLeaf(m1, a, l), a.pid)
  {
  }

  lemma OwnStepLocal(m: Machine, op: Op, c: Pid)
    requires Inv(m) && OwnOp(op, c)
    ensures OthersUntouched(m, Step(m, op), c)
  {
    if Accepts(m, op) {
      match op
      case Map(a, prot, pick) =>
        var leaf := if prot.IsNone() then Reserved(pick.value, false, false, true)
          else Present(pick.value, prot.write, false, !prot.exec);
        PutLocal(m, m.(mem := m.mem[pick.value := ZeroPage()]), a, leaf);
      case Unmap(a) =>
      case Store(a, off, v) =>
      case Protect(a, prot, pick) =>
        if ProtectCopies(m, a, prot) {
          PutLocal(m, m.(mem := m.mem[pick.value := m.mem[m.pt[a].frame]]), a,
            ProtectLeaf(m.pt[a], prot, true, pick.value));
        } else {
          PutLocal(m, m, a, ProtectLeaf(m.pt[a], prot, false, 0));
        }
      case SwapIn(a, pick) =>
        PutLocal(m, m.(mem := m.mem[pick.value := m.disk[m.pt[a].slot]]), a, SwapInLeaf(m.pt[a], pick.value));
      case CowFault(a, pick) =>
        if IsShared(m, m.pt[a].frame) {
          PutLocal(m, m.(mem := m.mem[pick.value := m.mem[m.pt[a].frame]]), a, CowBreakLeaf(m.pt[a], true, pick.value));
        } else {
          PutLocal(m, m, a, CowBreakLeaf(m.pt[a], false, 0));
        }
      case Reclaim(a, slot) =>
        PutLocal(m, m.(disk := m.disk[slot := m.mem[m.pt[a].frame]]), a, SwapOutLeaf(m.pt[a], slot));
      case DontNeed(a, pick) =>
        if HasFrame(m, a) && m.pt[a].Present? && IsShared(m, m.pt[a].frame) {
          PutLocal(m, m.(mem := m.mem[pick.value := ZeroPage()]), a,
                   Present(pick.value, m.pt[a].writable || m.pt[a].cow, false, m.pt[a].nx));
        }
    }
  }

  lemma {:induction false} OwnRunLocal(m: Machine, ops: seq<Op>, c: Pid)
    requires Inv(m) && forall op :: op in ops ==> OwnOp(op, c)
    ensures Inv(Run(m, ops)) && OthersUntouched(m, Run(m, ops), c)
  {
    RunInv(m, ops);
    if ops != [] {
      var most := ops[..|ops| - 1];
      OwnRunLocal(m, most, c);
      assert ops[|ops| - 1] in ops;
      OwnStepLocal(Run(m, most), ops[|ops| - 1], c);
    }
  }

  /** Fork a child, let it map, write, reserve, be swapped and unmap as it likes, and let it exit: every frame's
      reference count and every bit of the swap bitmap is back at its value before the fork, and the parent's pages are
      unchanged but for the copy-on-write marker. */
  lemma ChildLeavesNoTrace(m: Machine, parent: Pid, child: Pid, ops: seq<Op>)
    requires Inv(m) && Accepts(m, Fork(parent, child)) && forall op :: op in ops ==> OwnOp(op, child)
    ensures var m' := Step(Run(Step(m, Fork(parent, child)), ops), Exit(child));
      && m'.ref == m.ref && m'.used == m.used
      && forall a: Addr :: LeafAt(m', a) == if a.pid == parent then SharedLeaf(LeafAt(m, a)) else LeafAt(m, a)
  {
    var m1 := Step(m, Fork(parent, child));
    StepInv(m, Fork(parent, child));
    OwnRunLocal(m1, ops, child);
    var m2 := Run(m1, ops);
    var m3 := Step(m2, Exit(child));
    forall a: Addr ensures LeafAt(m3, a) == if a.pid == parent then SharedLeaf(LeafAt(m, a)) else LeafAt(m, a) {
      NoTraceAt(m, m2, parent, child, a);
    }
    assert Inv(m3) && m3.ref.Keys == m.ref.Keys by { NoTraceFrames(m, m2, parent, child); }
    MarkersHoldNothing(m, m3, parent);
  }

  lemma NoTraceFrames(m: Machine, m2: Machine, parent: Pid, child: Pid)
    requires Inv(m) && Accepts(m, Fork(parent, child)) && Inv(m2)
    requires OthersUntouched(Step(m, Fork(parent, child)), m2, child)
    ensures Inv(Step(m2, Exit(child))) && Step(m2, Exit(child)).ref.Keys == m.ref.Keys
  {
    ForkInv(m, parent, child, m.pages);
    ExitInv(m2, child, m2.pages);
    assert m2.ref.Keys == m2.mem.Keys;
  }

  /** The copy-on-write marker holds no frame and no slot. */
  lemma MarkersHoldNothing(m: Machine, m': Machine, parent: Pid)
    requires Inv(m) && Inv(m') && m'.ref.Keys == m.ref.Keys
    requires forall a: Addr :: LeafAt(m', a) == if a.pid == parent then SharedLeaf(LeafAt(m, a)) else LeafAt(m, a)
    ensures m'.ref == m.ref && m'.used == m.used
  {
    forall a: Addr ensures SameHold(LeafAt(m, a), LeafAt(m', a)) {
      assert LeafAt(m', a) == LeafAt(m, a) || LeafAt(m', a) == SharedLeaf(LeafAt(m, a));
    }
    SameHoldsSameCounts(m, m');
  }

  lemma NoTraceAt(m: Machine, m2: Machine, parent: Pid, child: Pid, a: Addr)
    requires Inv(m) && Accepts(m, Fork(parent, child)) && Inv(m2)
    requires OthersUntouched(Step(m, Fork(parent, child)), m2, child)
    ensures LeafAt(Step(m2, Exit(child)), a) == if a.pid == parent then SharedLeaf(LeafAt(m, a)) else LeafAt(m, a)
  {
    ForkInv(m, parent, child, m.pages);
    ExitInv(m2, child, m2.pages);
    Beyond(m, a);
    Beyond(m2, a);
    NoTraceLeaf(m, Step(m, Fork(parent, child)), m2, Step(m2, Exit(child)), parent, child, a);
  }

  lemma Beyond(m: Machine, a: Addr)
    requires Inv(m)
    ensures a.page >= m.pages ==> LeafAt(m, a) == Free
  {
  }

  lemma NoTraceLeaf(m: Machine, m1: Machine, m2: Machine, m3: Machine, parent: Pid, child: Pid, a: Addr)
    requires ForkShape(m, m1, parent, child, m.pages) && OthersUntouched(m1, m2, child)
    requires ExitShape(m2, m3, child, m2.pages)
    requires parent != child && (a.pid == child ==> LeafAt(m, a) == Free)
    requires (a.page >= m.pages ==> LeafAt(m, a) == Free) && (a.page >= m2.pages ==> LeafAt(m2, a) == Free)
    ensures LeafAt(m3, a) == if a.pid == parent then SharedLeaf(LeafAt(m, a)) else LeafAt(m, a)
  {
    assert a.pid == parent ==> a == At(parent, a.page);
  }

  // ─── accesses ───

  /** What the page-fault handlers do for an access to `a` before it is retried. */
  function Touch(m: Machine, a: Addr, write: bool, pick: Option<nat>): Machine {
    var m1 := Step(m, SwapIn(a, pick));
    if write then Step(m1, CowFault(a, pick)) else m1
  }

  /** With a frame to spare, a read goes through exactly when the plain machine permits it, it sees the plain machine's
      contents, and serving it changes no page of any process. */
  lemma ReadServed(m: Machine, a: Addr, pick: Option<nat>)
    requires Good(m) && a in m.pt && PickOk(m, pick)
    ensures var m' := Touch(m, a, false, pick);
      && Good(m') && Abs(m') == Abs(m) && a in m'.pt
      && (m'.pt[a].Present? <==> Abs(m)[a].r)
      && (m'.pt[a].Present? ==> HasFrame(m', a) && m'.mem[m'.pt[a].frame] == Abs(m)[a].data)
      && (m.pt[a].Swap? ==> m'.pt[a] == SwapInLeaf(m.pt[a], pick.value) && !IsShared(m', pick.value))
      && (!m.pt[a].Swap? ==> m' == m)
  {
    var m' := Step(m, SwapIn(a, pick));
    StepExactly(m, SwapIn(a, pick));
    if m.pt[a].Swap? {
      assert Accepts(m, SwapIn(a, pick));
      assert m'.pt[a] == SwapInLeaf(m.pt[a], pick.value);
    }
    assert CellOf(m', m'.pt[a]) == Abs(m')[a] == Abs(m)[a];
  }

  lemma CowLeafAfter(m: Machine, a: Addr, pick: Option<nat>)
    requires Accepts(m, CowFault(a, pick))
    ensures var m' := Step(m, CowFault(a, pick)); a in m'.pt && m'.pt[a].Present? && m'.pt[a].writable
  {
  }

  lemma CowServed(m: Machine, a: Addr, pick: Option<nat>, off: nat, v: int)
    requires Good(m) && a in m.pt && !m.pt[a].Swap? && off < |Abs(m)[a].data|
    requires HasFrame(m, a) && IsShared(m, m.pt[a].frame) ==> PickOk(m, pick)
    ensures var m' := Step(m, CowFault(a, pick));
      Good(m') && Abs(m') == Abs(m) && (Accepts(m', Store(a, off, v)) <==> Abs(m)[a].w)
  {
    var m' := Step(m, CowFault(a, pick));
    StepExactly(m, CowFault(a, pick));
    assert LeafOk(m, m.pt[a]) && HasFrame(m, a);
    if m.pt[a].Present? && m.pt[a].cow {
      CowLeafAfter(m, a, pick);
      StoreServed(m', a, off, v);
    } else {
      assert m' == m;
      StoreServed(m, a, off, v);
    }
  }

  /** A page that is present without the marker takes a store exactly when it is writable. */
  lemma StoreServed(m: Machine, a: Addr, off: nat, v: int)
    requires Inv(m) && a in m.pt && !m.pt[a].Swap? && off < |Abs(m)[a].data|
    requires m.pt[a].Present? ==> m.pt[a].writable || !m.pt[a].cow
    ensures Accepts(m, Store(a, off, v)) <==> Abs(m)[a].w
  {
    assert LeafOk(m, m.pt[a]) && HasFrame(m, a);
    assert CellOf(m, m.pt[a]) == Abs(m)[a];
  }

  /** The same for writes: the store the handlers prepare is accepted exactly when the plain machine permits it. */
  lemma WriteServed(m: Machine, a: Addr, pick: Option<nat>, off: nat, v: int)
    requires Good(m) && a in m.pt && PickOk(m, pick) && off < |Abs(m)[a].data|
    ensures var m' := Touch(m, a, true, pick);
      && Good(m') && Abs(m') == Abs(m)
      && (Accepts(m', Store(a, off, v)) <==> Abs(m)[a].w)
  {
    ReadServed(m, a, pick);
    CowServed(Touch(m, a, false, pick), a, pick, off, v);
  }

  /** A load in any state of a guarded run returns the plain machine's word. */
  lemma LoadIsPlain(m: Machine, ops: seq<Op>, a: Addr, off: nat)
    requires Good(m) && GuardedRun(m, ops) && HasFrame(Run(m, ops), a) && Run(m, ops).pt[a].Present?
    requires off < |Run(m, ops).mem[Run(m, ops).pt[a].frame]|
    ensures a in PlainRun(m, ops) && off < |PlainRun(m, ops)[a].data|
    ensures Run(m, ops).mem[Run(m, ops).pt[a].frame][off] == PlainRun(m, ops)[a].data[off]
  {
    RunRefinesPlain(m, ops);
  }

  // ─── where the kernel leaves the plain machine ───

  /** Whenever a frame is shared without the copy-on-write marker, mprotect to read-write on one side lets that side's
      next store change the other side's private page. */
  lemma SharedWriteSeen(m: Machine, a: Addr, b: Addr, prot: Prot, pick: Option<nat>, off: nat, v: int)
    requires Inv(m) && a != b && HasFrame(m, a) && b in m.pt && Pins(m.pt[b], m.pt[a].frame)
    requires prot.write && !m.pt[a].cow && off < |m.mem[m.pt[a].frame]|
    ensures var m' := Step(Step(m, Protect(a, prot, pick)), Store(a, off, v));
      b in m'.pt && m'.pt[b] == m.pt[b] && ContentsOf(m', m'.pt[b]) == ContentsOf(m, m.pt[b])[off := v]
  {
    GrantedInPlace(m, a, prot, pick);
  }

  lemma GrantedInPlace(m: Machine, a: Addr, prot: Prot, pick: Option<nat>)
    requires HasFrame(m, a) && prot.write && !m.pt[a].cow
    ensures var m' := Step(m, Protect(a, prot, pick));
      && m'.mem == m.mem && m'.disk == m.disk && m'.pt == m.pt[a := m'.pt[a]]
      && m'.pt[a].Present? && m'.pt[a].writable && m'.pt[a].frame == m.pt[a].frame
  {
  }

  const READ_ONLY := Prot(true, false, false)
  const READ_WRITE := Prot(true, true, false)
  const NO_ACCESS := Prot(false, false, false)

  function TwoFrames(): Machine {
    Machine(4, map[], map[1 := ZeroPage(), 2 := ZeroPage()], map[1 := 0, 2 := 0], map[], {}, Disabled, {})
  }

  lemma RunSnoc(m: Machine, ops: seq<Op>, op: Op)
    ensures Run(m, ops + [op]) == Step(Run(m, ops), op)
  {
    assert (ops + [op])[..|ops|] == ops;
  }

  lemma ForkOnePage(m: Machine)
    requires m == Step(TwoFrames(), Map(At(1, 0), READ_ONLY, Some(1)))
    ensures Inv(m) && Inv(Step(m, Fork(1, 2)))
    ensures var m' := Step(m, Fork(1, 2));
      && LeafAt(m', At(1, 0)) == LeafAt(m', At(2, 0)) == Present(1, false, false, true)
      && m'.mem == m.mem && m.mem == map[1 := ZeroPage(), 2 := ZeroPage()]
  {
    InitInv(TwoFrames());
    StepInv(TwoFrames(), Map(At(1, 0), READ_ONLY, Some(1)));
    assert m.pt == map[At(1, 0) := Present(1, false, false, true)];
    assert m.mem == map[1 := ZeroPage(), 2 := ZeroPage()];
    ForkInv(m, 1, 2, m.pages);
    StepInv(m, Fork(1, 2));
  }

  /** From boot: map a read-only page, fork, make the child's copy writable, store: the parent reads the child's word.
      */
  lemma ForkedReadOnlyPageShared()
    ensures var ops := [Map(At(1, 0), READ_ONLY, Some(1)), Fork(1, 2), Protect(At(2, 0), READ_WRITE, None)];
      var before, after := Run(TwoFrames(), ops), Run(TwoFrames(), ops + [Store(At(2, 0), 0, 7)]);
      At(1, 0) in before.pt && Abs(before)[At(1, 0)].data == ZeroPage() &&
      At(1, 0) in after.pt && Abs(after)[At(1, 0)].data == ZeroPage()[0 := 7]
  {
    var o0, o1, o2 := Map(At(1, 0), READ_ONLY, Some(1)), Fork(1, 2), Protect(At(2, 0), READ_WRITE, None);
    var m1 := Step(TwoFrames(), o0);
    ForkOnePage(m1);
    var m2 := Step(m1, o1);
    RunSnoc(TwoFrames(), [], o0);
    RunSnoc(TwoFrames(), [o0], o1);
    RunSnoc(TwoFrames(), [o0, o1], o2);
    RunSnoc(TwoFrames(), [o0, o1, o2], Store(At(2, 0), 0, 7));
    assert [] + [o0] == [o0] && [o0] + [o1] == [o0, o1] && [o0, o1] + [o2] == [o0, o1, o2];
    SharedWriteSeen(m2, At(2, 0), At(1, 0), READ_WRITE, None, 0, 7);
  }

  /** A page that is swapped out when access is revoked stays accessible: the next read is served with its contents. */
  lemma RevokedSwappedPageReadable(m: Machine, a: Addr, pick: Option<nat>)
    requires Good(m) && a in m.pt && m.pt[a].Swap? && PickOk(m, pick)
    ensures var m1 := Step(m, Protect(a, NO_ACCESS, None));
      m1 == m && var m2 := Touch(m1, a, false, pick);
      a in m2.pt && m2.pt[a].Present? && Abs(m2)[a].data == Abs(m)[a].data
  {
    assert ProtectLeaf(m.pt[a], NO_ACCESS, false, 0) == m.pt[a];
    assert m.pt[a := m.pt[a]] == m.pt;
    assert m.pt[a].slot in m.used;
    assert (m.used - {m.pt[a].slot}) + {m.pt[a].slot} == m.used;
    ReadServed(m, a, pick);
  }
}
