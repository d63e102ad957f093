/** The memory machine next to a plain one. The plain machine knows nothing of frames, slots or sharing: every process
    has a map from page to contents and permission, and a store changes one page of one process. */
module PlainMemory {
  import opened Basics
  import opened PteBits
  import opened PagedMemory

  datatype Cell = Cell(data: Contents, r: bool, w: bool)
  type Plain = map<Addr, Cell>

  function PlainStep(s: Plain, op: Op, accepted: bool): Plain {
    if !accepted then s
    else
      match op
      case Map(a, prot, _) => s[a := Cell(ZeroPage(), !prot.IsNone(), prot.write)]
      case Unmap(a) => s - {a}
      case Protect(a, prot, _) => if a in s then s[a := s[a].(r := !prot.IsNone(), w := prot.write)] else s
      case Store(a, off, v) => if a in s && off < |s[a].data| then s[a := s[a].(data := s[a].data[off := v])] else s
      case DontNeed(a, _) => if a in s then s[a := s[a].(data := ZeroPage())] else s
      case Fork(parent, child) => s + CopyOf(s, parent, child)
      case Exit(pid) => map a | a in s && a.pid != pid :: s[a]
      case SwapIn(_, _) | CowFault(_, _) | Reclaim(_, _) | SwapOn(_) | BeginDrain | EndDrain => s
  }

  function CopyOf(s: Plain, parent: Pid, child: Pid): Plain {
    map a | a in (set b | b in s && b.pid == parent :: At(child, b.page)) :: s[At(parent, a.page)]
  }

  // ─── the abstraction ───

  function ContentsOf(m: Machine, l: Leaf): Contents {
    if (l.Present? || l.Reserved?) && l.frame in m.mem then m.mem[l.frame]
    else if l.Swap? && l.slot in m.disk then m.disk[l.slot]
    else []
  }

  /** An access the fault handlers will serve: a swapped page is brought back; a copy-on-write page is made writable. */
  predicate Readable(l: Leaf) { l.Present? || l.Swap? }
  predicate Writable(l: Leaf) { (l.Present? || l.Swap?) && (l.writable || l.cow) }

  function CellOf(m: Machine, l: Leaf): Cell { Cell(ContentsOf(m, l), Readable(l), Writable(l)) }

  function Abs(m: Machine): Plain { map a | a in m.pt :: CellOf(m, m.pt[a]) }

  /** No two leaves name one frame if one of them may write it. */
  ghost predicate Exclusive(m: Machine) {
    forall a, b ::
      (a in m.pt && b in m.pt && (m.pt[a].Present? || m.pt[a].Reserved?) && m.pt[a].writable &&
       Pins(m.pt[b], m.pt[a].frame)) ==> a == b
  }

  ghost predicate Good(m: Machine) { Inv(m) && Exclusive(m) }

  // ─── reference counts as sharing ───

  lemma SoleOwner(m: Machine, a: Addr, b: Addr)
    requires Inv(m) && HasFrame(m, a) && !IsShared(m, m.pt[a].frame) && b in m.pt && Pins(m.pt[b], m.pt[a].frame)
    ensures a == b
  {
    var o := Owners(m.pt, m.pt[a].frame);
    assert a in o && b in o && |o| <= 1;
    if a != b {
      assert {a, b} <= o;
      assert |{a, b}| == 2;
      SubsetSize({a, b}, o);
    }
  }

  lemma SubsetSize<T>(s: set<T>, t: set<T>)
    requires s <= t
    ensures |s| <= |t|
  {
    assert t == s + (t - s);
  }

  lemma FreeUnowned(m: Machine, f: nat, b: Addr)
    requires Inv(m) && FreeFrame(m, f) && b in m.pt
    ensures !Pins(m.pt[b], f)
  {
    assert Owners(m.pt, f) == {};
    assert Pins(m.pt[b], f) ==> b in Owners(m.pt, f);
  }

  lemma SharedHasOther(m: Machine, a: Addr) returns (b: Addr)
    requires Inv(m) && HasFrame(m, a) && IsShared(m, m.pt[a].frame)
    ensures b != a && b in m.pt && Pins(m.pt[b], m.pt[a].frame)
  {
    var o := Owners(m.pt, m.pt[a].frame);
    assert a in o && |o - {a}| == |o| - 1 > 0;
    b :| b in o - {a};
  }

  lemma AllUnowned(m: Machine, f: nat)
    requires Inv(m) && FreeFrame(m, f)
    ensures forall b :: b in m.pt ==> !Pins(m.pt[b], f)
  {
    forall b | b in m.pt ensures !Pins(m.pt[b], f) { FreeUnowned(m, f, b); }
  }

  lemma AllSole(m: Machine, a: Addr)
    requires Inv(m) && HasFrame(m, a) && !IsShared(m, m.pt[a].frame)
    ensures forall b :: b in m.pt && Pins(m.pt[b], m.pt[a].frame) ==> b == a
  {
    forall b | b in m.pt && Pins(m.pt[b], m.pt[a].frame) ensures b == a { SoleOwner(m, a, b); }
  }

  // ─── when a step is exactly the plain step ───

  /** What a caller would have to check, step by step, for the step to behave as on the plain machine. */
  ghost predicate Guard(m: Machine, op: Op) {
    match op
    case Protect(a, prot, _) => a in m.pt ==> ProtectShown(m.pt[a], prot) && ProtectUnshared(m, a, prot)
    case DontNeed(a, _) => a in m.pt ==> m.pt[a].Present? || ContentsOf(m, m.pt[a]) == ZeroPage()
    case Fork(parent, _) => forall a :: a in m.pt && a.pid == parent ==> m.pt[a].Present?
    case _ => true
  }

  /** mprotect shows in what later accesses may do, unless it revokes all access from a swapped-out page or write access
      from a copy-on-write page. */
  predicate ProtectShown(l: Leaf, prot: Prot) {
    if prot.IsNone() then !l.Swap?
    else (!prot.write && (l.Present? || l.Reserved? || l.Swap?)) ==> !l.cow
  }

  /** mprotect grants write access on a frame of its own, unless the frame is shared without the copy-on-write marker.
      */
  predicate ProtectUnshared(m: Machine, a: Addr, prot: Prot) {
    prot.write && HasFrame(m, a) && !m.pt[a].cow ==> !IsShared(m, m.pt[a].frame)
  }

  /** A rewrite of the leaf at `a` in a memory that differs only on frames and slots no other leaf names. */
  lemma PutLeafAbs(m: Machine, m1: Machine, a: Addr, l: Leaf)
    requires Inv(m) && m1 == m.(mem := m1.mem, disk := m1.disk)
    requires forall b :: b in m.pt && b != a ==> ContentsOf(m1, m.pt[b]) == ContentsOf(m, m.pt[b])
    ensures Abs(PutLeaf(m1, a, l)) == Abs(m)[a := CellOf(m1, l)]
  {
    var m' := PutLeaf(m1, a, l);
    forall b | b in m'.pt ensures Abs(m')[b] == Abs(m)[a := CellOf(m1, l)][b] {
      if b != a {
        assert m'.pt[b] == m.pt[b];
      }
    }
  }

  lemma FreshFrameContents(m: Machine, f: nat, data: Contents)
    requires Inv(m) && FreeFrame(m, f)
    ensures forall b :: b in m.pt ==> ContentsOf(m.(mem := m.mem[f := data]), m.pt[b]) == ContentsOf(m, m.pt[b])
  {
    AllUnowned(m, f);
  }

  lemma PutExclusive(m: Machine, m1: Machine, a: Addr, l: Leaf)
    requires Inv(m) && Exclusive(m) && m1 == m.(mem := m1.mem, disk := m1.disk)
    requires (l.Present? || l.Reserved?) ==> forall b :: b in m.pt && b != a ==> !Pins(m.pt[b], l.frame)
    ensures Exclusive(PutLeaf(m1, a, l))
  {
  }

  lemma MapRefines(m: Machine, a: Addr, prot: Prot, pick: Option<nat>)
    requires Good(m) && Accepts(m, Map(a, prot, pick))
    ensures Exclusive(Step(m, Map(a, prot, pick)))
    ensures Abs(Step(m, Map(a, prot, pick))) == PlainStep(Abs(m), Map(a, prot, pick), true)
  {
    var f := pick.value;
    var m1 := m.(mem := m.mem[f := ZeroPage()]);
    var leaf := if prot.IsNone() then Reserved(f, false, false, true) else Present(f, prot.write, false, !prot.exec);
    AllUnowned(m, f);
    FreshFrameContents(m, f, ZeroPage());
    PutExclusive(m, m1, a, leaf);
    PutLeafAbs(m, m1, a, leaf);
  }

  /** A rewrite that shows nothing. */
  lemma PutHidden(m: Machine, m1: Machine, a: Addr, l: Leaf)
    requires Good(m) && a in m.pt && m1 == m.(mem := m1.mem, disk := m1.disk)
    requires forall b :: b in m.pt && b != a ==> ContentsOf(m1, m.pt[b]) == ContentsOf(m, m.pt[b])
    requires (l.Present? || l.Reserved?) ==> forall b :: b in m.pt && b != a ==> !Pins(m.pt[b], l.frame)
    requires CellOf(m1, l) == CellOf(m, m.pt[a])
    ensures Exclusive(PutLeaf(m1, a, l)) && Abs(PutLeaf(m1, a, l)) == Abs(m)
  {
    PutExclusive(m, m1, a, l);
    PutLeafAbs(m, m1, a, l);
    SameMap(Abs(m)[a := Abs(m)[a]], Abs(m));
  }

  lemma SwapInHidden(m: Machine, a: Addr, f: nat)
    requires Good(m) && a in m.pt && m.pt[a].Swap? && m.pt[a].slot in m.disk && FreeFrame(m, f)
    ensures Exclusive(SwapInEffect(m, a, f)) && Abs(SwapInEffect(m, a, f)) == Abs(m)
  {
    AllUnowned(m, f);
    FreshFrameContents(m, f, m.disk[m.pt[a].slot]);
    PutHidden(m, m.(mem := m.mem[f := m.disk[m.pt[a].slot]]), a, SwapInLeaf(m.pt[a], f));
  }

  lemma SwapInRefines(m: Machine, a: Addr, pick: Option<nat>)
    requires Good(m) && Accepts(m, SwapIn(a, pick))
    ensures Exclusive(Step(m, SwapIn(a, pick)))
    ensures Abs(Step(m, SwapIn(a, pick))) == Abs(m)
  {
    SwapInHidden(m, a, pick.value);
  }

  lemma CowCopyHidden(m: Machine, a: Addr, f: nat)
    requires Good(m) && HasFrame(m, a) && m.pt[a].Present? && m.pt[a].cow && FreeFrame(m, f)
    ensures var m' := PutLeaf(m.(mem := m.mem[f := m.mem[m.pt[a].frame]]), a, CowBreakLeaf(m.pt[a], true, f));
      Exclusive(m') && Abs(m') == Abs(m)
  {
    AllUnowned(m, f);
    FreshFrameContents(m, f, m.mem[m.pt[a].frame]);
    PutHidden(m, m.(mem := m.mem[f := m.mem[m.pt[a].frame]]), a, CowBreakLeaf(m.pt[a], true, f));
  }

  lemma CowOwnHidden(m: Machine, a: Addr)
    requires Good(m) && HasFrame(m, a) && m.pt[a].Present? && m.pt[a].cow && !IsShared(m, m.pt[a].frame)
    ensures var m' := PutLeaf(m, a, CowBreakLeaf(m.pt[a], false, 0)); Exclusive(m') && Abs(m') == Abs(m)
  {
    AllSole(m, a);
    PutHidden(m, m, a, CowBreakLeaf(m.pt[a], false, 0));
  }

  lemma CowRefines(m: Machine, a: Addr, pick: Option<nat>)
    requires Good(m) && Accepts(m, CowFault(a, pick))
    ensures Exclusive(Step(m, CowFault(a, pick)))
    ensures Abs(Step(m, CowFault(a, pick))) == Abs(m)
  {
    if IsShared(m, m.pt[a].frame) {
      CowCopyHidden(m, a, pick.value);
    } else {
      CowOwnHidden(m, a);
    }
  }

  lemma ReclaimHidden(m: Machine, a: Addr, slot: nat)
    requires Good(m) && HasFrame(m, a) && m.pt[a].Present? && slot !in m.used
    ensures Exclusive(ReclaimEffect(m, a, slot)) && Abs(ReclaimEffect(m, a, slot)) == Abs(m)
  {
    var m1 := m.(disk := m.disk[slot := m.mem[m.pt[a].frame]]);
    forall b | b in m.pt && b != a ensures ContentsOf(m1, m.pt[b]) == ContentsOf(m, m.pt[b]) {
      assert LeafOk(m, m.pt[b]);
    }
    PutHidden(m, m1, a, SwapOutLeaf(m.pt[a], slot));
  }

  lemma ReclaimRefines(m: Machine, a: Addr, slot: nat)
    requires Good(m) && Accepts(m, Reclaim(a, slot))
    ensures Exclusive(Step(m, Reclaim(a, slot)))
    ensures Abs(Step(m, Reclaim(a, slot))) == Abs(m)
  {
    ReclaimHidden(m, a, slot);
  }

  /** New contents for a frame that only `a` names change the page at `a` and no other page of any process. */
  lemma OwnFrameAbs(m: Machine, a: Addr, data: Contents)
    requires Good(m) && HasFrame(m, a)
    requires forall b :: b in m.pt && Pins(m.pt[b], m.pt[a].frame) ==> b == a
    ensures var m1 := m.(mem := m.mem[m.pt[a].frame := data]);
      Exclusive(m1) && Abs(m1) == Abs(m)[a := CellOf(m, m.pt[a]).(data := data)]
  {
    var m1 := m.(mem := m.mem[m.pt[a].frame := data]);
    var want := Abs(m)[a := CellOf(m, m.pt[a]).(data := data)];
    forall b ensures (b in Abs(m1) <==> b in want) && (b in want ==> Abs(m1)[b] == want[b]) {
      OwnFrameAt(m, a, data, b);
    }
    SameMap(Abs(m1), want);
  }

  lemma OwnFrameAt(m: Machine, a: Addr, data: Contents, b: Addr)
    requires Inv(m) && HasFrame(m, a) && (b in m.pt && Pins(m.pt[b], m.pt[a].frame) ==> b == a)
    ensures b in m.pt ==>
      CellOf(m.(mem := m.mem[m.pt[a].frame := data]), m.pt[b])
      == if b == a then CellOf(m, m.pt[a]).(data := data) else CellOf(m, m.pt[b])
  {
  }

  /** A store changes the page it goes to and no other page of any process. */
  lemma StoreRefines(m: Machine, a: Addr, off: nat, v: int)
    requires Good(m) && Accepts(m, Store(a, off, v))
    ensures Exclusive(Step(m, Store(a, off, v)))
    ensures Abs(Step(m, Store(a, off, v))) == PlainStep(Abs(m), Store(a, off, v), true)
  {
    OwnFrameAbs(m, a, m.mem[m.pt[a].frame][off := v]);
  }

  lemma DontNeedData(m: Machine, a: Addr, pick: Option<nat>)
    requires Good(m) && Accepts(m, DontNeed(a, pick))
    ensures Exclusive(Step(m, DontNeed(a, pick)))
    ensures Abs(Step(m, DontNeed(a, pick)))
         == if m.pt[a].Present? then Abs(m)[a := CellOf(m, m.pt[a]).(data := ZeroPage())] else Abs(m)
  {
    if m.pt[a].Present? {
      assert HasFrame(m, a);
      var f := m.pt[a].frame;
      if IsShared(m, f) {
        var m1 := m.(mem := m.mem[pick.value := ZeroPage()]);
        var leaf := Present(pick.value, m.pt[a].writable || m.pt[a].cow, false, m.pt[a].nx);
        AllUnowned(m, pick.value);
        FreshFrameContents(m, pick.value, ZeroPage());
        PutExclusive(m, m1, a, leaf);
        PutLeafAbs(m, m1, a, leaf);
      } else {
        AllSole(m, a);
        OwnFrameAbs(m, a, ZeroPage());
      }
    }
  }

  lemma ProtectData(m: Machine, a: Addr, prot: Prot, pick: Option<nat>)
    requires Good(m) && Accepts(m, Protect(a, prot, pick))
    ensures var copies := ProtectCopies(m, a, prot);
      var l := ProtectLeaf(m.pt[a], prot, copies, if copies then pick.value else 0);
      Abs(Step(m, Protect(a, prot, pick))) == Abs(m)[a := Cell(ContentsOf(m, m.pt[a]), Readable(l), Writable(l))]
  {
    if ProtectCopies(m, a, prot) {
      var m1 := m.(mem := m.mem[pick.value := m.mem[m.pt[a].frame]]);
      FreshFrameContents(m, pick.value, m.mem[m.pt[a].frame]);
      PutLeafAbs(m, m1, a, ProtectLeaf(m.pt[a], prot, true, pick.value));
    } else {
      PutLeafAbs(m, m, a, ProtectLeaf(m.pt[a], prot, false, 0));
    }
  }

  /** mprotect keeps contents always, and shows the asked permissions exactly when it neither revokes all access from a
      swapped-out page nor write access from a copy-on-write page. */
  lemma ProtectShownExactly(m: Machine, a: Addr, prot: Prot, pick: Option<nat>)
    requires Good(m) && Accepts(m, Protect(a, prot, pick))
    ensures Abs(Step(m, Protect(a, prot, pick))) == PlainStep(Abs(m), Protect(a, prot, pick), true)
       <==> ProtectShown(m.pt[a], prot)
  {
    var l := ProtectLeaf(m.pt[a], prot, ProtectCopies(m, a, prot), if ProtectCopies(m, a, prot) then pick.value else 0);
    ProtectData(m, a, prot, pick);
    var after, want := Abs(Step(m, Protect(a, prot, pick))), PlainStep(Abs(m), Protect(a, prot, pick), true);
    assert after[a] == Cell(ContentsOf(m, m.pt[a]), Readable(l), Writable(l));
    assert want[a] == Cell(ContentsOf(m, m.pt[a]), !prot.IsNone(), prot.write);
  }

  /** mprotect keeps write access exclusive exactly when it does not grant it on a frame that is shared without the
      copy-on-write marker. */
  lemma ProtectExclusiveExactly(m: Machine, a: Addr, prot: Prot, pick: Option<nat>)
    requires Good(m) && Accepts(m, Protect(a, prot, pick))
    ensures Exclusive(Step(m, Protect(a, prot, pick))) <==> ProtectUnshared(m, a, prot)
  {
    var m' := Step(m, Protect(a, prot, pick));
    if ProtectCopies(m, a, prot) {
      var m1 := m.(mem := m.mem[pick.value := m.mem[m.pt[a].frame]]);
      AllUnowned(m, pick.value);
      PutExclusive(m, m1, a, ProtectLeaf(m.pt[a], prot, true, pick.value));
    } else if !HasFrame(m, a) {
      PutExclusive(m, m, a, ProtectLeaf(m.pt[a], prot, false, 0));
    } else if !ProtectUnshared(m, a, prot) {
      var b := SharedHasOther(m, a);
      assert m'.pt[a].writable && m'.pt[b] == m.pt[b];
    } else {
      ProtectKeepsFrame(m, a, prot);
    }
  }

  lemma ProtectKeepsFrame(m: Machine, a: Addr, prot: Prot)
    requires Good(m) && HasFrame(m, a) && !ProtectCopies(m, a, prot) && ProtectUnshared(m, a, prot)
    ensures Exclusive(PutLeaf(m, a, ProtectLeaf(m.pt[a], prot, false, 0)))
  {
    var l := ProtectLeaf(m.pt[a], prot, false, 0);
    if l.writable && !m.pt[a].writable {
      AllSole(m, a);
    }
    var m' := PutLeaf(m, a, l);
    forall x, y | x in m'.pt && y in m'.pt && (m'.pt[x].Present? || m'.pt[x].Reserved?) && m'.pt[x].writable &&
      Pins(m'.pt[y], m'.pt[x].frame)
      ensures x == y
    {
      assert Pins(m.pt[y], m.pt[x].frame);
    }
  }

  // ─── fork and exit ───

  lemma LeafInTable(m: Machine, a: Addr)
    requires Inv(m)
    ensures a in m.pt <==> LeafAt(m, a) != Free
  {
  }

  lemma ForkAbsAt(m: Machine, parent: Pid, child: Pid, a: Addr)
    requires Inv(m) && Accepts(m, Fork(parent, child))
    ensures var m' := Step(m, Fork(parent, child));
      && (a.pid != child ==> (a in m'.pt <==> a in m.pt))
      && (a.pid == child ==> (a in m'.pt <==> LeafAt(m, At(parent, a.page)).Present?))
      && (a in m'.pt ==> CellOf(m', m'.pt[a]) == CellOf(m, LeafAt(m, if a.pid == child then At(parent, a.page) else a)))
  {
    var m' := Step(m, Fork(parent, child));
    ForkInv(m, parent, child, m.pages);
    LeafInTable(m, a);
    LeafInTable(m', a);
    LeafInTable(m, At(parent, a.page));
    assert LeafAt(m', a) ==
           if a.page < m.pages && (a.pid == parent || a.pid == child) && LeafAt(m, At(parent, a.page)).Present?
           then SharedLeaf(LeafAt(m, At(parent, a.page))) else LeafAt(m, a);
  }

  lemma ForkExclusive(m: Machine, parent: Pid, child: Pid)
    requires Good(m) && Accepts(m, Fork(parent, child))
    ensures Exclusive(Step(m, Fork(parent, child)))
  {
    var m' := Step(m, Fork(parent, child));
    ForkInv(m, parent, child, m.pages);
    forall a, b | a in m'.pt && b in m'.pt && (m'.pt[a].Present? || m'.pt[a].Reserved?) && m'.pt[a].writable &&
      Pins(m'.pt[b], m'.pt[a].frame)
      ensures a == b
    {
      LeafInTable(m', a);
      LeafInTable(m', b);
      assert LeafAt(m', a) == LeafAt(m, a);
      var b0 := if LeafAt(m', b) == LeafAt(m, b) then b else At(parent, b.page);
      assert Pins(LeafAt(m, b0), m.pt[a].frame);
      LeafInTable(m, b0);
      assert a == b0;
    }
  }

  /** Fork gives the child the parent's pages exactly when every page of the parent is present: a page that is swapped
      out or reserved at that moment is missing from the child. */
  lemma ForkExactly(m: Machine, parent: Pid, child: Pid)
    requires Good(m) && Accepts(m, Fork(parent, child))
    ensures Abs(Step(m, Fork(parent, child))) == PlainStep(Abs(m), Fork(parent, child), true)
       <==> Guard(m, Fork(parent, child))
  {
    var m' := Step(m, Fork(parent, child));
    var want := PlainStep(Abs(m), Fork(parent, child), true);
    if Guard(m, Fork(parent, child)) {
      forall a ensures (a in Abs(m') <==> a in want) && (a in want ==> Abs(m')[a] == want[a]) {
        ForkGuardedAt(m, parent, child, a);
      }
      SameMap(Abs(m'), want);
    } else {
      var a :| a in m.pt && a.pid == parent && !m.pt[a].Present?;
      ForkAbsAt(m, parent, child, At(child, a.page));
      CopyDomain(Abs(m), parent, child, At(child, a.page));
      assert a == At(parent, a.page);
      assert At(child, a.page) in want && At(child, a.page) !in Abs(m');
    }
  }

  lemma ForkGuardedAt(m: Machine, parent: Pid, child: Pid, a: Addr)
    requires Good(m) && Accepts(m, Fork(parent, child)) && Guard(m, Fork(parent, child))
    ensures var after, want := Abs(Step(m, Fork(parent, child))), PlainStep(Abs(m), Fork(parent, child), true);
      (a in after <==> a in want) && (a in want ==> after[a] == want[a])
  {
    ForkAbsAt(m, parent, child, a);
    CopyDomain(Abs(m), parent, child, a);
    LeafInTable(m, At(parent, a.page));
  }

  lemma SameMap<K, V>(x: map<K, V>, y: map<K, V>)
    requires forall k :: (k in x <==> k in y) && (k in y ==> x[k] == y[k])
    ensures x == y
  {
    assert x.Keys == y.Keys;
  }

  lemma CopyDomain(s: Plain, parent: Pid, child: Pid, a: Addr)
    ensures a in CopyOf(s, parent, child) <==> a.pid == child && At(parent, a.page) in s
  {
    if a.pid == child && At(parent, a.page) in s {
      assert a == At(child, At(parent, a.page).page);
    }
  }

  lemma ExitRefines(m: Machine, pid: Pid)
    requires Good(m)
    ensures Exclusive(Step(m, Exit(pid)))
    ensures Abs(Step(m, Exit(pid))) == PlainStep(Abs(m), Exit(pid), true)
  {
    var m' := Step(m, Exit(pid));
    forall a: Addr ensures (a in m'.pt <==> a in m.pt && a.pid != pid) && (a in m'.pt ==> m'.pt[a] == m.pt[a]) {
      ExitAt(m, pid, a);
    }
    ExitInv(m, pid, m.pages);
    ExitAbs(m, m', pid);
  }

  lemma ExitAbs(m: Machine, m': Machine, pid: Pid)
    requires m'.mem == m.mem && m'.disk == m.disk
    requires forall a: Addr :: (a in m'.pt <==> a in m.pt && a.pid != pid) && (a in m'.pt ==> m'.pt[a] == m.pt[a])
    ensures Abs(m') == PlainStep(Abs(m), Exit(pid), true)
  {
    var want := PlainStep(Abs(m), Exit(pid), true);
    forall a ensures (a in Abs(m') <==> a in want) && (a in want ==> Abs(m')[a] == want[a]) {
      assert a in Abs(m') <==> a in m.pt && a.pid != pid;
    }
    SameMap(Abs(m'), want);
  }

  lemma ExitAt(m: Machine, pid: Pid, a: Addr)
    requires Inv(m)
    ensures var m' := Step(m, Exit(pid));
      (a in m'.pt <==> a in m.pt && a.pid != pid) && (a in m'.pt ==> m'.pt[a] == m.pt[a])
  {
    ExitInv(m, pid, m.pages);
    LeafInTable(m, a);
    LeafInTable(Step(m, Exit(pid)), a);
  }

  lemma UnmapRefines(m: Machine, a: Addr)
    requires Good(m) && Accepts(m, Unmap(a))
    ensures Exclusive(Step(m, Unmap(a)))
    ensures Abs(Step(m, Unmap(a))) == PlainStep(Abs(m), Unmap(a), true)
  {
    var m' := DelLeaf(m, a);
    DelAbs(m, a);
    assert forall b :: b in m'.pt ==> b in m.pt && m'.pt[b] == m.pt[b];
  }

  lemma DelAbs(m: Machine, a: Addr)
    ensures Abs(DelLeaf(m, a)) == Abs(m) - {a}
  {
    SameMap(Abs(DelLeaf(m, a)), Abs(m) - {a});
  }

  // ─── one step, all runs ───

  /** A step from a good state is the plain step and leads to a good state, if and only if the guard holds. */
  lemma StepExactly(m: Machine, op: Op)
    requires Good(m)
    ensures Good(Step(m, op)) && Abs(Step(m, op)) == PlainStep(Abs(m), op, Accepts(m, op))
       <==> (Accepts(m, op) ==> Guard(m, op))
  {
    StepInv(m, op);
    if Accepts(m, op) {
      match op
      case Map(a, prot, pick) => MapRefines(m, a, prot, pick);
      case Unmap(a) => UnmapRefines(m, a);
      case Protect(a, prot, pick) =>
        ProtectShownExactly(m, a, prot, pick);
        ProtectExclusiveExactly(m, a, prot, pick);
      case SwapIn(a, pick) => SwapInRefines(m, a, pick);
      case CowFault(a, pick) => CowRefines(m, a, pick);
      case Store(a, off, v) => StoreRefines(m, a, off, v);
      case Reclaim(a, slot) => ReclaimRefines(m, a, slot);
      case DontNeed(a, pick) => DontNeedExactly(m, a, pick);
      case Fork(parent, child) =>
        ForkExclusive(m, parent, child);
        ForkExactly(m, parent, child);
      case Exit(pid) => ExitRefines(m, pid);
      case SwapOn(_) => SameTable(m, op);
      case BeginDrain => SameTable(m, op);
      case EndDrain => SameTable(m, op);
    }
  }

  lemma SameTable(m: Machine, op: Op)
    requires Good(m) && (op.SwapOn? || op.BeginDrain? || op.EndDrain?)
    ensures Exclusive(Step(m, op)) && Abs(Step(m, op)) == Abs(m)
  {
    AbsSame(m, Step(m, op));
  }

  lemma AbsSame(m: Machine, m': Machine)
    requires m'.pt == m.pt && m'.mem == m.mem && m'.disk == m.disk
    ensures Abs(m') == Abs(m) && (Exclusive(m) ==> Exclusive(m'))
  {
    SameMap(Abs(m'), Abs(m));
  }

  /** MADV_DONTNEED zeroes exactly the present pages: a page that is swapped out or reserved keeps its contents. */
  lemma DontNeedExactly(m: Machine, a: Addr, pick: Option<nat>)
    requires Good(m) && Accepts(m, DontNeed(a, pick))
    ensures Exclusive(Step(m, DontNeed(a, pick)))
    ensures Abs(Step(m, DontNeed(a, pick))) == PlainStep(Abs(m), DontNeed(a, pick), true)
       <==> Guard(m, DontNeed(a, pick))
  {
    DontNeedData(m, a, pick);
    var want := PlainStep(Abs(m), DontNeed(a, pick), true);
    assert want == Abs(m)[a := CellOf(m, m.pt[a]).(data := ZeroPage())];
    if !m.pt[a].Present? {
      assert want == Abs(m) <==> want[a] == Abs(m)[a];
    }
  }

  ghost predicate GuardedRun(m: Machine, ops: seq<Op>) {
    ops == [] ||
    (var m0 := Run(m, ops[..|ops| - 1]);
     GuardedRun(m, ops[..|ops| - 1]) && (Accepts(m0, ops[|ops| - 1]) ==> Guard(m0, ops[|ops| - 1])))
  }

  /** The plain machine fed with the same steps, refused where the memory machine refuses them. */
  function PlainRun(m: Machine, ops: seq<Op>): Plain {
    if ops == [] then Abs(m)
    else PlainStep(PlainRun(m, ops[..|ops| - 1]), ops[|ops| - 1], Accepts(Run(m, ops[..|ops| - 1]), ops[|ops| - 1]))
  }

  /** In every state of every guarded run, contents and permissions of every page of every process are those of the
      plain machine: swapping, reservations, copy-on-write sharing and draining are invisible. */
  lemma {:induction false} RunRefinesPlain(m: Machine, ops: seq<Op>)
    requires Good(m) && GuardedRun(m, ops)
    ensures Good(Run(m, ops))
    ensures Abs(Run(m, ops)) == PlainRun(m, ops)
  {
    if ops != [] {
      RunRefinesPlain(m, ops[..|ops| - 1]);
      StepExactly(Run(m, ops[..|ops| - 1]), ops[|ops| - 1]);
    }
  }
}
