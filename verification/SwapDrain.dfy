/** swapoff: bar new swap-outs, bring every swapped page back, then disable the device or re-arm it. */
module SwapDrain {
  import opened Basics
  import opened PteBits
  import opened PagedMemory
  import opened PlainMemory

  function FreeFrames(m: Machine): set<nat> { set f | f in m.ref && m.ref[f] == 0 }

  predicate NoSwapLeaf(m: Machine, pid: Pid) { forall a :: a in m.pt && a.pid == pid ==> !m.pt[a].Swap? }

  /** Every swapped page belongs to one of the spaces the drain looks at. */
  predicate Covered(m: Machine, spaces: seq<Pid>) { forall a :: a in m.pt && m.pt[a].Swap? ==> a.pid in spaces }

  // ─── any interleaving ───

  ghost predicate DrainStep(op: Op) { !op.EndDrain? && !op.SwapOn? }

  ghost predicate LessSwapped(m: Machine, m': Machine) {
    && m'.area == m.area && m'.slots == m.slots && m'.used <= m.used
    && forall a :: a in m'.pt && m'.pt[a].Swap? ==> a in m.pt && m.pt[a].Swap? && m'.pt[a].slot == m.pt[a].slot
  }

  lemma ForkNoNewSwap(m: Machine, parent: Pid, child: Pid)
    requires Inv(m) && Accepts(m, Fork(parent, child))
    ensures LessSwapped(m, Step(m, Fork(parent, child)))
  {
    var m' := Step(m, Fork(parent, child));
    ForkInv(m, parent, child, m.pages);
    forall a | a in m'.pt && m'.pt[a].Swap? ensures a in m.pt && m'.pt[a] == m.pt[a] {
      LeafInTable(m, a);
      assert LeafAt(m', a) == LeafAt(m, a);
    }
  }

  lemma ExitNoNewSwap(m: Machine, pid: Pid)
    requires Inv(m)
    ensures LessSwapped(m, Step(m, Exit(pid)))
  {
    var m' := Step(m, Exit(pid));
    ExitInv(m, pid, m.pages);
    forall a | a in m'.pt ensures a in m.pt && m'.pt[a] == m.pt[a] {
      ExitAt(m, pid, a);
    }
    forall s | s in m'.used ensures s in m.used {
      assert SlotNamed(m'.pt, s);
      var a :| a in m'.pt && m'.pt[a].Swap? && m'.pt[a].slot == s;
      assert LeafOk(m, m.pt[a]);
    }
  }

  /** While the area drains no step of anyone swaps a page out: slots in use and swapped pages only go away. */
  lemma DrainingShrinks(m: Machine, op: Op)
    requires Inv(m) && m.area == Draining && DrainStep(op)
    ensures LessSwapped(m, Step(m, op))
  {
    if Accepts(m, op) {
      match op
      case Fork(parent, child) => ForkNoNewSwap(m, parent, child);
      case Exit(pid) => ExitNoNewSwap(m, pid);
      case Map(_, _, _) => LeafNoNewSwap(m, op);
      case Protect(_, _, _) => LeafNoNewSwap(m, op);
      case SwapIn(_, _) => LeafNoNewSwap(m, op);
      case CowFault(_, _) => LeafNoNewSwap(m, op);
      case DontNeed(_, _) => LeafNoNewSwap(m, op);
      case Unmap(_) =>
      case Store(_, _, _) =>
    }
  }

  lemma PutNoNewSwap(m: Machine, m1: Machine, a: Addr, l: Leaf)
    requires m1 == m.(mem := m1.mem) && (l.Swap? ==>
      l.slot in m.used && a in m.pt && m.pt[a].Swap? && m.pt[a].slot == l.slot)
    ensures LessSwapped(m, PutLeaf(m1, a, l))
  {
  }

  lemma LeafNoNewSwap(m: Machine, op: Op)
    requires Inv(m) && Accepts(m, op) && (op.Map? || op.Protect? || op.SwapIn? || op.CowFault? || op.DontNeed?)
    ensures LessSwapped(m, Step(m, op))
  {
    match op
    case Map(a, prot, pick) =>
      var leaf := if prot.IsNone() then Reserved(pick.value, false, false, true)
        else Present(pick.value, prot.write, false, !prot.exec);
      PutNoNewSwap(m, m.(mem := m.mem[pick.value := ZeroPage()]), a, leaf);
    case Protect(a, prot, pick) =>
      assert LeafOk(m, m.pt[a]);
      if ProtectCopies(m, a, prot) {
        PutNoNewSwap(m, m.(mem := m.mem[pick.value := m.mem[m.pt[a].frame]]), a,
          ProtectLeaf(m.pt[a], prot, true, pick.value));
      } else {
        PutNoNewSwap(m, m, a, ProtectLeaf(m.pt[a], prot, false, 0));
      }
    case SwapIn(a, pick) =>
      PutNoNewSwap(m, m.(mem := m.mem[pick.value := m.disk[m.pt[a].slot]]), a, SwapInLeaf(m.pt[a], pick.value));
    case CowFault(a, pick) =>
      if IsShared(m, m.pt[a].frame) {
        PutNoNewSwap(m, m.(mem := m.mem[pick.value := m.mem[m.pt[a].frame]]), a,
          CowBreakLeaf(m.pt[a], true, pick.value));
      } else {
        PutNoNewSwap(m, m, a, CowBreakLeaf(m.pt[a], false, 0));
      }
    case DontNeed(a, pick) =>
      if HasFrame(m, a) && m.pt[a].Present? && IsShared(m, m.pt[a].frame) {
        PutNoNewSwap(m, m.(mem := m.mem[pick.value := ZeroPage()]), a,
                     Present(pick.value, m.pt[a].writable || m.pt[a].cow, false, m.pt[a].nx));
      }
  }

  lemma {:induction false} DrainingRunShrinks(m: Machine, ops: seq<Op>)
    requires Inv(m) && m.area == Draining && forall op :: op in ops ==> DrainStep(op)
    ensures Inv(Run(m, ops)) && LessSwapped(m, Run(m, ops))
  {
    RunInv(m, ops);
    if ops != [] {
      var most := ops[..|ops| - 1];
      DrainingRunShrinks(m, most);
      assert ops[|ops| - 1] in ops;
      DrainingShrinks(Run(m, most), ops[|ops| - 1]);
    }
  }

  lemma {:induction false} RunSplit(m: Machine, ops: seq<Op>, k: nat)
    requires k <= |ops|
    ensures Run(m, ops) == Run(Run(m, ops[..k]), ops[k..])
  {
    if k == |ops| {
      assert ops[..k] == ops;
    } else {
      var most := ops[..|ops| - 1];
      RunSplit(m, most, k);
      assert most[..k] == ops[..k] && most[k..] == ops[k..][..|ops| - k - 1];
    }
  }

  /** The drain got to page `a` at step `i` with a frame to spare. */
  ghost predicate Visited(m: Machine, ops: seq<Op>, a: Addr, i: nat) {
    i < |ops| && ops[i].SwapIn? && ops[i].a == a && PickOk(Run(m, ops[..i]), ops[i].pick)
  }

  lemma VisitedGone(m: Machine, ops: seq<Op>, a: Addr, i: nat)
    requires Inv(m) && m.area == Draining && (forall op :: op in ops ==> DrainStep(op)) && Visited(m, ops, a, i)
    ensures a in Run(m, ops).pt ==> !Run(m, ops).pt[a].Swap?
  {
    var before := Run(m, ops[..i]);
    var after := Step(before, ops[i]);
    DrainingRunShrinks(m, ops[..i]);
    StepInv(before, ops[i]);
    DrainingShrinks(before, ops[i]);
    assert a in before.pt && before.pt[a].Swap? ==> LeafOk(before, before.pt[a]);
    assert a in after.pt ==> !after.pt[a].Swap?;
    assert ops[..i + 1][..i] == ops[..i];
    assert Run(m, ops[..i + 1]) == after;
    RunSplit(m, ops, i + 1);
    DrainingRunShrinks(after, ops[i + 1..]);
  }

  /** However the drain's swap-ins interleave with faults, maps, unmaps, forks and exits of all processes: once every
      page that was swapped out when the drain began has been visited with a frame to spare, no slot is in use, and
      ending the drain disables the device. */
  lemma DrainAmongOthers(m: Machine, ops: seq<Op>)
    requires Inv(m) && m.area == Draining && (forall op :: op in ops ==> DrainStep(op))
    requires forall a :: a in m.pt && m.pt[a].Swap? ==> exists i :: Visited(m, ops, a, i)
    ensures Run(m, ops).used == {}
    ensures Step(Run(m, ops), EndDrain).area == Disabled
  {
    var m' := Run(m, ops);
    DrainingRunShrinks(m, ops);
    forall s ensures s !in m'.used {
      if s in m'.used {
        assert SlotNamed(m'.pt, s);
        var a :| a in m'.pt && m'.pt[a].Swap? && m'.pt[a].slot == s;
        var i :| Visited(m, ops, a, i);
        VisitedGone(m, ops, a, i);
      }
    }
  }

  // ─── the drain itself ───

  /** `m'` is `m` after `n` swap-ins of pages of the spaces `pids`: same pages, contents and permissions; each swap-in
      gave back one slot and took one frame. */
  ghost predicate Drained(m: Machine, m': Machine, pids: seq<Pid>, n: nat) {
    && Good(m') && Abs(m') == Abs(m) && m'.pt.Keys == m.pt.Keys
    && m' == m.(pt := m'.pt, mem := m'.mem, ref := m'.ref, used := m'.used)
    && m'.used <= m.used && |m'.used| == |m.used| - n && |FreeFrames(m')| == |FreeFrames(m)| - n
    && forall a :: a in m.pt ==> m'.pt[a] == m.pt[a] || (a.pid in pids && m.pt[a].Swap? && !m'.pt[a].Swap?)
  }

  lemma DrainedNext(m: Machine, m1: Machine, m2: Machine, pids: seq<Pid>, more: seq<Pid>, n: nat, k: nat)
    requires Drained(m, m1, pids, n) && Drained(m1, m2, more, k) && forall p :: p in more ==> p in pids
    ensures Drained(m, m2, pids, n + k)
  {
  }

  lemma SwapInCounts(m: Machine, a: Addr, f: nat)
    requires Good(m) && Accepts(m, SwapIn(a, Some(f)))
    ensures var m' := Step(m, SwapIn(a, Some(f)));
      m'.used == m.used - {m.pt[a].slot} && FreeFrames(m') == FreeFrames(m) - {f} &&
        m'.pt == m.pt[a := SwapInLeaf(m.pt[a], f)]
  {
    var m' := Step(m, SwapIn(a, Some(f)));
    assert m'.ref == m.ref[f := 1];
  }

  lemma SwapInDrains(m: Machine, a: Addr, f: nat)
    requires Good(m) && Accepts(m, SwapIn(a, Some(f)))
    ensures Drained(m, Step(m, SwapIn(a, Some(f))), [a.pid], 1)
  {
    SwapInCounts(m, a, f);
    SwapInRefines(m, a, Some(f));
    StepInv(m, SwapIn(a, Some(f)));
    assert LeafOk(m, m.pt[a]);
  }

  predicate NoSwapBelow(m: Machine, pid: Pid, page: nat) {
    forall a :: a in m.pt && a.pid == pid && a.page < page ==> !m.pt[a].Swap?
  }

  /** A leaf that is not a swap entry stays so. */
  lemma DrainedNoSwapBelow(m: Machine, m': Machine, pids: seq<Pid>, n: nat, pid: Pid, page: nat)
    requires Drained(m, m', pids, n) && NoSwapBelow(m, pid, page)
    requires At(pid, page) in m'.pt ==> !m'.pt[At(pid, page)].Swap?
    ensures NoSwapBelow(m', pid, page + 1)
  {
    forall a | a in m'.pt && a.pid == pid && a.page < page + 1 ensures !m'.pt[a].Swap? {
      if a.page == page {
        assert a == At(pid, page);
      }
    }
  }

  ghost predicate NoSwapIn(m: Machine, spaces: seq<Pid>) { forall p :: p in spaces ==> NoSwapLeaf(m, p) }

  lemma DrainedNoSwapIn(m: Machine, m': Machine, pids: seq<Pid>, n: nat, spaces: seq<Pid>, k: nat)
    requires Drained(m, m', pids, n) && k < |spaces| && NoSwapIn(m, spaces[..k]) && NoSwapLeaf(m', spaces[k])
    ensures NoSwapIn(m', spaces[..k + 1])
  {
    assert spaces[..k + 1] == spaces[..k] + [spaces[k]];
  }

  lemma DrainedStart(m: Machine, pids: seq<Pid>)
    requires Good(m)
    ensures Drained(m, m, pids, 0)
  {
  }

  lemma NoSwapAnywhere(m: Machine, pid: Pid)
    requires Inv(m) && NoSwapBelow(m, pid, m.pages)
    ensures NoSwapLeaf(m, pid)
  {
  }

  lemma SwapLeafUses(m: Machine, a: Addr)
    requires Inv(m) && a in m.pt && m.pt[a].Swap?
    ensures m.used != {}
  {
    assert LeafOk(m, m.pt[a]);
  }

  /** What the area is armed with is not part of what processes see. */
  lemma AreaSame(m: Machine, m': Machine)
    requires Good(m) && m' == m.(area := m'.area, slots := m'.slots) && m.used <= m'.slots
    requires m'.area == Disabled ==> m'.slots == {}
    ensures Good(m') && Abs(m') == Abs(m)
  {
    forall a | a in m'.pt ensures LeafOk(m', m'.pt[a]) {
      assert LeafOk(m, m.pt[a]);
    }
    SameCells(m, m');
  }

  lemma SameCells(m: Machine, m': Machine)
    requires m'.pt == m.pt && m'.mem == m.mem && m'.disk == m.disk
    ensures Abs(m') == Abs(m)
  {
    assert Abs(m').Keys == Abs(m).Keys;
  }

  /** Every snapshot lists the spaces that live. */
  ghost predicate Snapshots(snaps: nat -> seq<Pid>, live: seq<Pid>) {
    forall k: nat, p :: p in snaps(k) <==> p in live
  }

  lemma SameSpaces(m: Machine, snaps: nat -> seq<Pid>, live: seq<Pid>, k: nat)
    requires Snapshots(snaps, live) && NoSwapIn(m, snaps(k))
    ensures NoSwapIn(m, live)
  {
    forall p | p in live ensures NoSwapLeaf(m, p) {
      assert p in snaps(k);
    }
  }

  class Kernel {
    var m: Machine
    var device: nat

    constructor (m: Machine, device: nat)
      requires Good(m)
      ensures this.m == m && this.device == device
    {
      this.m := m;
      this.device := device;
    }

    /** Bring the page at `a` back from its slot, if a frame is left. */
    method SwapInPage(a: Addr) returns (ok: bool)
      requires Good(m) && m.area == Draining && a in m.pt && m.pt[a].Swap?
      modifies this`m
      ensures ok ==> Drained(old(m), m, [a.pid], 1) && a in m.pt && m.pt[a].Present?
      ensures !ok ==> m == old(m) && FreeFrames(m) == {} && m.used != {}
    {
      if FreeFrames(m) == {} {
        SwapLeafUses(m, a);
        return false;
      }
      var f :| f in FreeFrames(m);
      assert LeafOk(m, m.pt[a]);
      SwapInDrains(m, a, f);
      SwapInCounts(m, a, f);
      m := SwapInEffect(m, a, f);
      ok := true;
    }

    /** Swap in every swap entry of one address space, page by page; stop when no frame is left. */
    method DrainSpace(pid: Pid) returns (drained: nat, oom: bool)
      requires Good(m) && m.area == Draining
      modifies this`m
      ensures Drained(old(m), m, [pid], drained)
      ensures if oom then FreeFrames(m) == {} && m.used != {} else NoSwapLeaf(m, pid)
    {
      drained, oom := 0, false;
      var page, pages := 0, m.pages;
      DrainedStart(m, [pid]);
      while page < pages
        invariant page <= pages == m.pages
        invariant Drained(old(m), m, [pid], drained) && NoSwapBelow(m, pid, page)
      {
        ghost var before := m;
        if At(pid, page) in m.pt && m.pt[At(pid, page)].Swap? {
          var ok := SwapInPage(At(pid, page));
          if !ok {
            return drained, true;
          }
          DrainedNext(old(m), before, m, [pid], [pid], drained, 1);
          DrainedNoSwapBelow(before, m, [pid], 1, pid, page);
          drained := drained + 1;
        } else {
          DrainedStart(m, [pid]);
          DrainedNoSwapBelow(m, m, [pid], 0, pid, page);
        }
        page := page + 1;
      }
      NoSwapAnywhere(m, pid);
    }

    /** One pass over a snapshot of the live address spaces. */
    method DrainRound(spaces: seq<Pid>) returns (drained: nat, oom: bool)
      requires Good(m) && m.area == Draining
      modifies this`m
      ensures Drained(old(m), m, spaces, drained)
      ensures if oom then FreeFrames(m) == {} && m.used != {} else NoSwapIn(m, spaces)
    {
      drained, oom := 0, false;
      var i := 0;
      DrainedStart(m, spaces);
      while i < |spaces|
        invariant i <= |spaces|
        invariant Drained(old(m), m, spaces, drained)
        invariant NoSwapIn(m, spaces[..i])
      {
        var n;
        ghost var before := m;
        n, oom := DrainSpace(spaces[i]);
        DrainedNext(old(m), before, m, spaces, [spaces[i]], drained, n);
        drained := drained + n;
        if oom {
          return;
        }
        DrainedNoSwapIn(before, m, [spaces[i]], n, spaces, i);
        i := i + 1;
      }
      assert spaces[..i] == spaces;
    }

    /** Rounds until no slot is in use, no frame is left, or four rounds in a row found nothing. Round `k` takes the
        snapshot `snaps(k)` of the spaces that live meanwhile. */
    method DrainAll(snaps: nat -> seq<Pid>, ghost live: seq<Pid>) returns (total: nat, oom: bool)
      requires Good(m) && m.area == Draining && Snapshots(snaps, live)
      modifies this`m
      ensures Drained(old(m), m, live, total)
      ensures if oom then FreeFrames(m) == {} && m.used != {}
              else m.used == {} || NoSwapIn(m, live)
    {
      total, oom := 0, false;
      var idle, round := 0, 0;
      while idle < 4
        invariant idle <= 4
        invariant Drained(old(m), m, live, total)
        invariant idle > 0 ==> NoSwapIn(m, live)
        decreases |m.used|, 4 - idle
      {
        var n;
        ghost var before := m;
        n, oom := DrainRound(snaps(round));
        DrainedNext(old(m), before, m, live, snaps(round), total, n);
        total := total + n;
        if oom {
          return;
        }
        if m.used == {} {
          return;
        }
        SameSpaces(m, snaps, live, round);
        idle := if n == 0 then idle + 1 else 0;
        round := round + 1;
      }
    }

    /** swapoff of the device `dev` (None: no such device). It succeeds exactly when every swapped page belongs to a
        space in the snapshot and there are as many free frames as slots in use. No outcome changes what any process
        sees. */
    method SwapOff(dev: Option<nat>, snaps: nat -> seq<Pid>, ghost live: seq<Pid>) returns (r: int)
      requires Good(m) && Snapshots(snaps, live)
      modifies this`m
      ensures r == if dev.None? then -19
                   else if old(m).area == Disabled || dev.value != device then -22
                   else if old(m).area == Draining then -16
                   else if Covered(old(m), live) && |old(m).used| <= |FreeFrames(old(m))| then 0
                   else -12
      ensures Good(m) && Abs(m) == Abs(old(m))
      ensures r == 0 ==> m.area == Disabled && m.used == {} && m.slots == {} && Covered(m, [])
      ensures r == -12 ==> m.area == Armed && m.slots == old(m).slots && m.used <= old(m).used
      ensures r in {-16, -19, -22} ==> m == old(m)
    {
      if dev.None? {
        return -19;
      }
      if m.area == Disabled || dev.value != device {
        return -22;
      }
      if m.area == Draining {
        return -16;
      }
      AreaSame(m, m.(area := Draining));
      m := m.(area := Draining);
      ghost var quiet := m;
      var drained, oom := DrainAll(snaps, live);
      DrainOutcome(quiet, m, live, drained, oom);
      if oom || m.used != {} {
        AreaSame(m, m.(area := Armed));
        m := m.(area := Armed);
        return -12;
      }
      AreaSame(m, m.(area := Disabled, slots := {}));
      m := m.(area := Disabled, slots := {});
      r := 0;
    }

    /** swapon arms a disabled area with every slot free. */
    method SwapOn(flags: nat, dev: Option<nat>, boot: bool, there: bool, slots: set<nat>) returns (r: int)
      requires Good(m)
      modifies this
      ensures r == if flags != 0 then -22 else if dev.None? then -19 else if boot then -1
                   else if old(m).area != Disabled then -16 else if !there then -19 else 0
      ensures Good(m) && Abs(m) == Abs(old(m))
      ensures r == 0 ==> m.area == Armed && m.slots == slots && m.used == {} && device == dev.value
      ensures r != 0 ==> m == old(m) && device == old(device)
    {
      if flags != 0 {
        return -22;
      }
      if dev.None? {
        return -19;
      }
      if boot {
        return -1;
      }
      if m.area != Disabled {
        return -16;
      }
      if !there {
        return -19;
      }
      var next := m.(area := Armed, used := {}, slots := slots);
      AreaSame(m, next);
      m := next;
      device := dev.value;
      r := 0;
    }
  }

  /** What the counts say about how the drain ended. */
  lemma DrainOutcome(m: Machine, m': Machine, spaces: seq<Pid>, n: nat, oom: bool)
    requires Good(m) && Drained(m, m', spaces, n)
    requires if oom then FreeFrames(m') == {} && m'.used != {} else m'.used == {} || NoSwapIn(m', spaces)
    ensures (!oom && m'.used == {}) <==> Covered(m, spaces) && |m.used| <= |FreeFrames(m)|
    ensures m'.used == {} ==> Covered(m', [])
  {
    assert m'.used == {} ==> Covered(m', []) by {
      forall a | a in m'.pt && m'.pt[a].Swap? ensures m'.used != {} { SwapLeafUses(m', a); }
    }
    if !oom && m'.used == {} {
      forall a | a in m.pt && m.pt[a].Swap? ensures a.pid in spaces {
        DrainedOrUsed(m, m', spaces, n, a);
      }
    } else if !oom {
      var s :| s in m'.used;
      StillSwapped(m, m', spaces, n, s);
    }
  }

  lemma DrainedOrUsed(m: Machine, m': Machine, spaces: seq<Pid>, n: nat, a: Addr)
    requires Drained(m, m', spaces, n) && a in m.pt && m.pt[a].Swap?
    ensures a.pid in spaces || m'.used != {}
  {
    if m'.pt[a] == m.pt[a] {
      SwapLeafUses(m', a);
    }
  }

  lemma StillSwapped(m: Machine, m': Machine, spaces: seq<Pid>, n: nat, s: nat)
    requires Drained(m, m', spaces, n) && s in m'.used && NoSwapIn(m', spaces)
    ensures !Covered(m, spaces)
  {
    assert SlotNamed(m'.pt, s);
    var a :| a in m'.pt && m'.pt[a].Swap? && m'.pt[a].slot == s;
    assert m.pt[a].Swap?;
  }
}
