/** The memory machine: leaf page tables of all address spaces, reference-counted frames, swap slots, and the steps that
    change them. One step is what the kernel does under one hold of an address space's VM lock to one leaf (or, for fork
    and exit, to one whole space). Frame and slot choices made by the allocators are part of a step, so a statement over
    all runs covers every allocation policy, every reclaim schedule and every interleaving of processes. */
module PagedMemory {
  import opened Basics
  import opened PteBits

  type Pid = nat
  datatype Addr = At(pid: Pid, page: nat)

  type Contents = seq<int>
  const PAGE_WORDS: nat := 512

  function ZeroPage(): Contents { seq(PAGE_WORDS, _ => 0) }

  datatype Area = Disabled | Armed | Draining

  /** `pages` bounds the page numbers of an address space. `pt` holds the non-zero leaves of all spaces. `mem` and `ref`
      range over all frames of RAM. `slots` are the slots of the armed swap device, `used` the bits set in its bitmap.
      */
  datatype Machine = Machine(
    pages: nat, pt: map<Addr, Leaf>, mem: map<nat, Contents>, ref: map<nat, nat>,
    disk: map<nat, Contents>, used: set<nat>, area: Area, slots: set<nat>)

  datatype Op =
    | Map(a: Addr, prot: Prot, pick: Option<nat>)
    | Unmap(a: Addr)
    | Protect(a: Addr, prot: Prot, pick: Option<nat>)
    | SwapIn(a: Addr, pick: Option<nat>)
    | CowFault(a: Addr, pick: Option<nat>)
    | Store(a: Addr, off: nat, v: int)
    | Reclaim(a: Addr, slot: nat)
    | DontNeed(a: Addr, pick: Option<nat>)
    | Fork(parent: Pid, child: Pid)
    | Exit(pid: Pid)
    | SwapOn(device: set<nat>)
    | BeginDrain
    | EndDrain

  predicate Pins(l: Leaf, f: nat) { (l.Present? || l.Reserved?) && l.frame == f }

  function LeafAt(m: Machine, a: Addr): Leaf { if a in m.pt then m.pt[a] else Free }

  // ─── resource bookkeeping: pmm.addRef / pmm.freePage / allocSlot / freeSlot ───

  function DropRef(ref: map<nat, nat>, l: Leaf): map<nat, nat> {
    if (l.Present? || l.Reserved?) && l.frame in ref && ref[l.frame] > 0 then ref[l.frame := ref[l.frame] - 1] else ref
  }

  function PinRef(ref: map<nat, nat>, l: Leaf): map<nat, nat> {
    if (l.Present? || l.Reserved?) && l.frame in ref then ref[l.frame := ref[l.frame] + 1] else ref
  }

  function SlotOf(l: Leaf): set<nat> { if l.Swap? then {l.slot} else {} }

  /** Replace the leaf at `a`: what the old leaf held is given back, what the new one holds is taken. */
  function PutLeaf(m: Machine, a: Addr, l: Leaf): Machine {
    m.(pt := m.pt[a := l],
       ref := PinRef(DropRef(m.ref, LeafAt(m, a)), l),
       used := (m.used - SlotOf(LeafAt(m, a))) + SlotOf(l))
  }

  /** Zero the leaf at `a` and reclaim what it held (the teardown rule of munmap and exit). */
  function DelLeaf(m: Machine, a: Addr): Machine {
    m.(pt := m.pt - {a}, ref := DropRef(m.ref, LeafAt(m, a)), used := m.used - SlotOf(LeafAt(m, a)))
  }

  predicate FreeFrame(m: Machine, f: nat) { f in m.ref && m.ref[f] == 0 }

  predicate PickOk(m: Machine, pick: Option<nat>) { pick.Some? && FreeFrame(m, pick.value) }

  predicate IsShared(m: Machine, f: nat) { f in m.ref && m.ref[f] > 1 }

  predicate HasFrame(m: Machine, a: Addr) {
    a in m.pt && (m.pt[a].Present? || m.pt[a].Reserved?) && m.pt[a].frame in m.mem
  }

  predicate ProtectCopies(m: Machine, a: Addr, prot: Prot) {
    HasFrame(m, a) && prot.write && m.pt[a].cow && IsShared(m, m.pt[a].frame)
  }

  // ─── when a step takes effect ───

  /** A step that is not accepted changes nothing: the call returns an errno or the access gets a signal. */
  predicate Accepts(m: Machine, op: Op) {
    match op
    case Map(a, _, pick) => a.page < m.pages && a !in m.pt && PickOk(m, pick)
    case Unmap(a) => a in m.pt
    case Protect(a, prot, pick) => a in m.pt && (ProtectCopies(m, a, prot) ==> PickOk(m, pick))
    case SwapIn(a, pick) =>
      a in m.pt && m.pt[a].Swap? && m.pt[a].slot in m.disk && m.area != Disabled && PickOk(m, pick)
    case CowFault(a, pick) =>
      HasFrame(m, a) && m.pt[a].Present? && m.pt[a].cow && (IsShared(m, m.pt[a].frame) ==> PickOk(m, pick))
    case Store(a, off, _) =>
      HasFrame(m, a) && m.pt[a].Present? && m.pt[a].writable && off < |m.mem[m.pt[a].frame]|
    case Reclaim(a, slot) =>
      HasFrame(m, a) && m.pt[a].Present? && m.pt[a].nx && m.area == Armed && !IsShared(m, m.pt[a].frame) &&
      slot in m.slots && slot !in m.used
    case DontNeed(a, pick) =>
      a in m.pt && (HasFrame(m, a) && m.pt[a].Present? && IsShared(m, m.pt[a].frame) ==> PickOk(m, pick))
    case Fork(parent, child) => parent != child && forall a :: a in m.pt ==> a.pid != child
    case Exit(_) => true
    case SwapOn(_) => m.area == Disabled
    case BeginDrain => m.area == Armed
    case EndDrain => m.area == Draining
  }

  function Step(m: Machine, op: Op): Machine {
    if !Accepts(m, op) then m else Effect(m, op)
  }

  function Effect(m: Machine, op: Op): Machine
    requires Accepts(m, op)
  {
    match op
    case Map(a, prot, pick) => MapEffect(m, a, prot, pick.value)
    case Unmap(a) => DelLeaf(m, a)
    case Protect(a, prot, pick) => ProtectEffect(m, a, prot, pick)
    case SwapIn(a, pick) => SwapInEffect(m, a, pick.value)
    case CowFault(a, pick) => CowEffect(m, a, pick)
    case Store(a, off, v) => StoreEffect(m, a, off, v)
    case Reclaim(a, slot) => ReclaimEffect(m, a, slot)
    case DontNeed(a, pick) => DontNeedEffect(m, a, pick)
    case Fork(parent, child) => ForkUpTo(m, parent, child, m.pages)
    case Exit(pid) => ExitUpTo(m, pid, m.pages)
    case SwapOn(device) => m.(area := Armed, used := {}, slots := device)
    case BeginDrain => m.(area := Draining)
    case EndDrain => if m.used == {} then m.(area := Disabled, slots := {}) else m.(area := Armed)
  }

  /** mmap's eager anonymous page: a zeroed frame, or a reservation of one for PROT_NONE. */
  function MapEffect(m: Machine, a: Addr, prot: Prot, f: nat): Machine {
    var leaf := if prot.IsNone() then Reserved(f, false, false, true) else Present(f, prot.write, false, !prot.exec);
    PutLeaf(m.(mem := m.mem[f := ZeroPage()]), a, leaf)
  }

  function ProtectEffect(m: Machine, a: Addr, prot: Prot, pick: Option<nat>): Machine
    requires Accepts(m, Protect(a, prot, pick))
  {
    if ProtectCopies(m, a, prot) then
      var m1 := m.(mem := m.mem[pick.value := m.mem[m.pt[a].frame]]);
      PutLeaf(m1, a, ProtectLeaf(m.pt[a], prot, true, pick.value))
    else PutLeaf(m, a, ProtectLeaf(m.pt[a], prot, false, 0))
  }

  function SwapInEffect(m: Machine, a: Addr, f: nat): Machine
    requires a in m.pt && m.pt[a].Swap? && m.pt[a].slot in m.disk
  {
    PutLeaf(m.(mem := m.mem[f := m.disk[m.pt[a].slot]]), a, SwapInLeaf(m.pt[a], f))
  }

  function CowEffect(m: Machine, a: Addr, pick: Option<nat>): Machine
    requires Accepts(m, CowFault(a, pick))
  {
    if IsShared(m, m.pt[a].frame) then
      PutLeaf(m.(mem := m.mem[pick.value := m.mem[m.pt[a].frame]]), a, CowBreakLeaf(m.pt[a], true, pick.value))
    else PutLeaf(m, a, CowBreakLeaf(m.pt[a], false, 0))
  }

  function StoreEffect(m: Machine, a: Addr, off: nat, v: int): Machine
    requires Accepts(m, Store(a, off, v))
  {
    m.(mem := m.mem[m.pt[a].frame := m.mem[m.pt[a].frame][off := v]])
  }

  function ReclaimEffect(m: Machine, a: Addr, slot: nat): Machine
    requires HasFrame(m, a)
  {
    PutLeaf(m.(disk := m.disk[slot := m.mem[m.pt[a].frame]]), a, SwapOutLeaf(m.pt[a], slot))
  }

  /** MADV_DONTNEED on an anonymous page: a present page is zeroed (on a fresh frame when the old one is shared); a leaf
      that is not present is left as it is. */
  function DontNeedEffect(m: Machine, a: Addr, pick: Option<nat>): Machine
    requires Accepts(m, DontNeed(a, pick))
  {
    if !HasFrame(m, a) || !m.pt[a].Present? then m
    else if IsShared(m, m.pt[a].frame) then
      var leaf := Present(pick.value, m.pt[a].writable || m.pt[a].cow, false, m.pt[a].nx);
      PutLeaf(m.(mem := m.mem[pick.value := ZeroPage()]), a, leaf)
    else m.(mem := m.mem[m.pt[a].frame := ZeroPage()])
  }

  /** Fork's walk: present leaves are shared with the child (write access replaced by the copy-on-write marker on both
      sides); leaves that are not present are skipped. */
  function ForkLeaf(m: Machine, parent: Pid, child: Pid, page: nat): Machine {
    var a := At(parent, page);
    if a in m.pt && m.pt[a].Present? then
      PutLeaf(PutLeaf(m, a, SharedLeaf(m.pt[a])), At(child, page), SharedLeaf(m.pt[a]))
    else m
  }

  function ForkUpTo(m: Machine, parent: Pid, child: Pid, k: nat): Machine {
    if k == 0 then m else ForkLeaf(ForkUpTo(m, parent, child, k - 1), parent, child, k - 1)
  }

  function ExitUpTo(m: Machine, pid: Pid, k: nat): Machine {
    if k == 0 then m else DelLeaf(ExitUpTo(m, pid, k - 1), At(pid, k - 1))
  }

  /** A run: any sequence of steps by any processes. */
  function Run(m: Machine, ops: seq<Op>): Machine {
    if ops == [] then m else Step(Run(m, ops[..|ops| - 1]), ops[|ops| - 1])
  }

  // ─── accounting ───

  ghost function Owners(pt: map<Addr, Leaf>, f: nat): set<Addr> { set a | a in pt && Pins(pt[a], f) }

  ghost predicate LeafOk(m: Machine, l: Leaf) {
    match l
    case Present(f, _, _, _) => f in m.ref
    case Reserved(f, _, _, _) => f in m.ref
    case Swap(s, _, _, _) => s in m.used && s in m.disk
    case _ => false
  }

  ghost predicate SlotNamed(pt: map<Addr, Leaf>, s: nat) { exists a :: a in pt && pt[a].Swap? && pt[a].slot == s }

  /** Exact accounting: a frame's reference count is the number of present and reserved leaves naming it; a slot is
      marked used exactly when a swap leaf names it, and only one does. */
  ghost predicate Inv(m: Machine) {
    && m.mem.Keys == m.ref.Keys
    && (forall a :: a in m.pt ==> a.page < m.pages && LeafOk(m, m.pt[a]))
    && (forall f :: f in m.ref ==> m.ref[f] == |Owners(m.pt, f)|)
    && (forall s :: s in m.used ==> SlotNamed(m.pt, s))
    && (forall a, b :: a in m.pt && b in m.pt && m.pt[a].Swap? && m.pt[b].Swap? && m.pt[a].slot == m.pt[b].slot ==>
      a == b)
    && m.used <= m.slots && (m.area == Disabled ==> m.slots == {})
  }

  /** The machine at boot: no mapping, every frame free, no swap device. */
  ghost predicate Init(m: Machine) {
    && m.pt == map[] && m.used == {} && m.slots == {} && m.area == Disabled
    && m.mem.Keys == m.ref.Keys && forall f :: f in m.ref ==> m.ref[f] == 0
  }

  lemma InitInv(m: Machine)
    requires Init(m)
    ensures Inv(m)
  {
    forall f | f in m.ref ensures m.ref[f] == |Owners(m.pt, f)| {
      assert Owners(m.pt, f) == {};
    }
  }

  lemma OwnersPut(pt: map<Addr, Leaf>, a: Addr, l: Leaf, f: nat)
    ensures |Owners(pt[a := l], f)|
         == |Owners(pt, f)| - (if a in pt && Pins(pt[a], f) then 1 else 0) + (if Pins(l, f) then 1 else 0)
  {
    var before, after := Owners(pt, f), Owners(pt[a := l], f);
    if Pins(l, f) {
      assert after == before + {a};
    } else {
      assert after == before - {a};
    }
  }

  lemma OwnersDel(pt: map<Addr, Leaf>, a: Addr, f: nat)
    ensures |Owners(pt - {a}, f)| == |Owners(pt, f)| - (if a in pt && Pins(pt[a], f) then 1 else 0)
  {
    assert Owners(pt - {a}, f) == Owners(pt, f) - {a};
  }

  /** The new leaf may be written over the old one: its frame is RAM, its slot a free slot of the device or the old
      leaf's own slot. */
  ghost predicate MayPut(m: Machine, a: Addr, l: Leaf) {
    && a.page < m.pages
    && match l
       case Present(f, _, _, _) => f in m.ref
       case Reserved(f, _, _, _) => f in m.ref
       case Swap(s, _, _, _) => s in m.disk && s in m.slots &&
         (s !in m.used || (a in m.pt && m.pt[a].Swap? && m.pt[a].slot == s))
       case _ => false
  }

  lemma PutCount(pt: map<Addr, Leaf>, ref: map<nat, nat>, a: Addr, l: Leaf, f: nat)
    requires f in ref && ref[f] == |Owners(pt, f)|
    ensures var ref' := PinRef(DropRef(ref, if a in pt then pt[a] else Free), l);
      f in ref' && ref'[f] == |Owners(pt[a := l], f)|
  {
    OwnersPut(pt, a, l, f);
    assert a in pt && Pins(pt[a], f) ==> a in Owners(pt, f);
  }

  lemma PutCounts(m: Machine, a: Addr, l: Leaf)
    requires Inv(m) && MayPut(m, a, l)
    ensures var m' := PutLeaf(m, a, l);
      m'.ref.Keys == m.ref.Keys && forall f :: f in m'.ref ==> m'.ref[f] == |Owners(m'.pt, f)|
  {
    var m' := PutLeaf(m, a, l);
    forall f | f in m'.ref ensures m'.ref[f] == |Owners(m'.pt, f)| {
      PutCount(m.pt, m.ref, a, l, f);
    }
  }

  lemma PutSlots(m: Machine, a: Addr, l: Leaf)
    requires Inv(m) && MayPut(m, a, l)
    ensures var m' := PutLeaf(m, a, l);
      && (forall s :: s in m'.used ==> SlotNamed(m'.pt, s))
      && (forall b :: b in m'.pt && m'.pt[b].Swap? ==> m'.pt[b].slot in m'.used)
  {
    var m' := PutLeaf(m, a, l);
    forall s | s in m'.used ensures SlotNamed(m'.pt, s) {
      if l.Swap? && l.slot == s {
        assert a in m'.pt;
      } else {
        assert SlotNamed(m.pt, s);
        var b :| b in m.pt && m.pt[b].Swap? && m.pt[b].slot == s;
        assert b in m'.pt && m'.pt[b] == m.pt[b];
      }
    }
  }

  lemma PutLeaves(m: Machine, a: Addr, l: Leaf)
    requires Inv(m) && MayPut(m, a, l)
    ensures var m' := PutLeaf(m, a, l);
      m'.ref.Keys == m.ref.Keys && forall b :: b in m'.pt ==> b.page < m'.pages && LeafOk(m', m'.pt[b])
  {
    var m' := PutLeaf(m, a, l);
    forall b | b in m'.pt ensures b.page < m'.pages && LeafOk(m', m'.pt[b]) {
      if b != a {
        assert LeafOk(m, m.pt[b]);
      }
    }
  }

  lemma PutUnique(m: Machine, a: Addr, l: Leaf)
    requires Inv(m) && MayPut(m, a, l)
    ensures var m' := PutLeaf(m, a, l);
      && m'.used <= m'.slots
      && forall b, c ::
           b in m'.pt && c in m'.pt && m'.pt[b].Swap? && m'.pt[c].Swap? && m'.pt[b].slot == m'.pt[c].slot ==> b == c
  {
    assert forall b :: b in m.pt && m.pt[b].Swap? ==> m.pt[b].slot in m.used;
  }

  /** Writing one leaf keeps the accounting exact. */
  lemma PutLeafInv(m: Machine, a: Addr, l: Leaf)
    requires Inv(m) && MayPut(m, a, l)
    ensures Inv(PutLeaf(m, a, l))
  {
    PutCounts(m, a, l);
    PutSlots(m, a, l);
    PutLeaves(m, a, l);
    PutUnique(m, a, l);
  }

  lemma DelCounts(m: Machine, a: Addr)
    requires Inv(m)
    ensures var m' := DelLeaf(m, a);
      m'.ref.Keys == m.ref.Keys && forall f :: f in m'.ref ==> m'.ref[f] == |Owners(m'.pt, f)|
  {
    var m' := DelLeaf(m, a);
    forall f | f in m'.ref ensures m'.ref[f] == |Owners(m'.pt, f)| {
      OwnersDel(m.pt, a, f);
      if a in m.pt && Pins(m.pt[a], f) {
        assert a in Owners(m.pt, f);
      }
    }
  }

  lemma DelSlots(m: Machine, a: Addr)
    requires Inv(m)
    ensures forall s :: s in DelLeaf(m, a).used ==> SlotNamed(DelLeaf(m, a).pt, s)
  {
    var m' := DelLeaf(m, a);
    forall s | s in m'.used ensures SlotNamed(m'.pt, s) {
      assert SlotNamed(m.pt, s);
      var b :| b in m.pt && m.pt[b].Swap? && m.pt[b].slot == s;
      assert b in m'.pt && m'.pt[b] == m.pt[b];
    }
  }

  /** Tearing one leaf down keeps the accounting exact. */
  lemma DelLeafInv(m: Machine, a: Addr)
    requires Inv(m)
    ensures Inv(DelLeaf(m, a))
  {
    DelCounts(m, a);
    DelSlots(m, a);
  }

  /** What fork leaves behind after `k` pages: the parent's present leaves and their copies in the child are the shared
      form, nothing else changed. */
  ghost predicate ForkShape(m: Machine, m': Machine, parent: Pid, child: Pid, k: nat) {
    && m' == m.(pt := m'.pt, ref := m'.ref)
    && forall a: Addr ::
         var p := At(parent, a.page);
         LeafAt(m', a) ==
           if a.page < k && (a.pid == parent || a.pid == child) && LeafAt(m, p).Present? then SharedLeaf(LeafAt(m, p))
           else LeafAt(m, a)
  }

  lemma ForkLeafInv(m: Machine, parent: Pid, child: Pid, page: nat)
    requires Inv(m) && parent != child && page < m.pages && At(child, page) !in m.pt
    ensures Inv(ForkLeaf(m, parent, child, page))
  {
    var a := At(parent, page);
    if a in m.pt && m.pt[a].Present? {
      var l := SharedLeaf(m.pt[a]);
      PutLeafInv(m, a, l);
      PutLeafInv(PutLeaf(m, a, l), At(child, page), l);
    }
  }

  lemma ForkLeafShape(m: Machine, parent: Pid, child: Pid, page: nat)
    requires parent != child && At(child, page) !in m.pt
    ensures var m' := ForkLeaf(m, parent, child, page);
      && m' == m.(pt := m'.pt, ref := m'.ref)
      && forall a: Addr ::
           LeafAt(m', a) ==
             if a.page == page && (a.pid == parent || a.pid == child) && LeafAt(m, At(parent, page)).Present?
             then SharedLeaf(LeafAt(m, At(parent, page))) else LeafAt(m, a)
  {
    var a := At(parent, page);
    if a in m.pt && m.pt[a].Present? {
      assert SlotOf(m.pt[a]) == {} && SlotOf(SharedLeaf(m.pt[a])) == {};
    }
  }

  lemma ForkShapeStep(m: Machine, m0: Machine, parent: Pid, child: Pid, k: nat)
    requires parent != child && ForkShape(m, m0, parent, child, k)
    requires forall a: Addr :: a in m.pt ==> a.pid != child
    ensures At(child, k) !in m0.pt || m0.pt[At(child, k)] == Free
    ensures At(child, k) !in m0.pt ==> ForkShape(m, ForkLeaf(m0, parent, child, k), parent, child, k + 1)
  {
    assert LeafAt(m0, At(child, k)) == LeafAt(m, At(child, k)) == Free;
    assert LeafAt(m0, At(parent, k)) == LeafAt(m, At(parent, k));
    if At(child, k) !in m0.pt {
      ForkLeafShape(m0, parent, child, k);
    }
  }

  lemma {:induction false} ForkInv(m: Machine, parent: Pid, child: Pid, k: nat)
    requires Inv(m) && Accepts(m, Fork(parent, child)) && k <= m.pages
    ensures Inv(ForkUpTo(m, parent, child, k))
    ensures ForkShape(m, ForkUpTo(m, parent, child, k), parent, child, k)
  {
    if k > 0 {
      ForkInv(m, parent, child, k - 1);
      ForkNext(m, ForkUpTo(m, parent, child, k - 1), parent, child, k - 1);
    }
  }

  lemma ForkNext(m: Machine, m0: Machine, parent: Pid, child: Pid, k: nat)
    requires Inv(m0) && ForkShape(m, m0, parent, child, k) && k < m0.pages
    requires parent != child && forall a: Addr :: a in m.pt ==> a.pid != child
    ensures Inv(ForkLeaf(m0, parent, child, k)) && ForkShape(m, ForkLeaf(m0, parent, child, k), parent, child, k + 1)
  {
    ForkShapeStep(m, m0, parent, child, k);
    assert At(child, k) in m0.pt ==> LeafOk(m0, m0.pt[At(child, k)]);
    ForkLeafInv(m0, parent, child, k);
  }

  ghost predicate ExitShape(m: Machine, m': Machine, pid: Pid, k: nat) {
    && m' == m.(pt := m'.pt, ref := m'.ref, used := m'.used)
    && forall a: Addr :: LeafAt(m', a) == if a.pid == pid && a.page < k then Free else LeafAt(m, a)
  }

  lemma ExitShapeStep(m: Machine, m0: Machine, pid: Pid, k: nat)
    requires ExitShape(m, m0, pid, k)
    ensures ExitShape(m, DelLeaf(m0, At(pid, k)), pid, k + 1)
  {
  }

  lemma {:induction false} ExitInv(m: Machine, pid: Pid, k: nat)
    requires Inv(m)
    ensures Inv(ExitUpTo(m, pid, k))
    ensures ExitShape(m, ExitUpTo(m, pid, k), pid, k)
  {
    if k > 0 {
      ExitInv(m, pid, k - 1);
      ExitShapeStep(m, ExitUpTo(m, pid, k - 1), pid, k - 1);
      DelLeafInv(ExitUpTo(m, pid, k - 1), At(pid, k - 1));
    }
  }

  lemma MemUpdateInv(m: Machine, mem: map<nat, Contents>, disk: map<nat, Contents>)
    requires Inv(m) && mem.Keys == m.mem.Keys && m.disk.Keys <= disk.Keys
    ensures Inv(m.(mem := mem, disk := disk))
  {
  }

  lemma StepInvFault(m: Machine, op: Op)
    requires Inv(m) && Accepts(m, op) && (op.Map? || op.SwapIn? || op.CowFault? || op.DontNeed? || op.Reclaim?)
    ensures Inv(Step(m, op))
  {
    match op
    case Map(a, prot, pick) =>
      MemUpdateInv(m, m.mem[pick.value := ZeroPage()], m.disk);
      var leaf := if prot.IsNone() then Reserved(pick.value, false, false, true)
        else Present(pick.value, prot.write, false, !prot.exec);
      PutLeafInv(m.(mem := m.mem[pick.value := ZeroPage()]), a, leaf);
    case SwapIn(a, pick) =>
      MemUpdateInv(m, m.mem[pick.value := m.disk[m.pt[a].slot]], m.disk);
      PutLeafInv(m.(mem := m.mem[pick.value := m.disk[m.pt[a].slot]]), a, SwapInLeaf(m.pt[a], pick.value));
    case CowFault(a, pick) =>
      if IsShared(m, m.pt[a].frame) {
        MemUpdateInv(m, m.mem[pick.value := m.mem[m.pt[a].frame]], m.disk);
        PutLeafInv(m.(mem := m.mem[pick.value := m.mem[m.pt[a].frame]]), a, CowBreakLeaf(m.pt[a], true, pick.value));
      } else {
        PutLeafInv(m, a, CowBreakLeaf(m.pt[a], false, 0));
      }
    case Reclaim(a, slot) =>
      MemUpdateInv(m, m.mem, m.disk[slot := m.mem[m.pt[a].frame]]);
      PutLeafInv(m.(disk := m.disk[slot := m.mem[m.pt[a].frame]]), a, SwapOutLeaf(m.pt[a], slot));
    case DontNeed(a, pick) =>
      if HasFrame(m, a) && m.pt[a].Present? && IsShared(m, m.pt[a].frame) {
        MemUpdateInv(m, m.mem[pick.value := ZeroPage()], m.disk);
        PutLeafInv(m.(mem := m.mem[pick.value := ZeroPage()]), a,
                   Present(pick.value, m.pt[a].writable || m.pt[a].cow, false, m.pt[a].nx));
      }
  }

  lemma StepInvProtect(m: Machine, a: Addr, prot: Prot, pick: Option<nat>)
    requires Inv(m) && Accepts(m, Protect(a, prot, pick))
    ensures Inv(ProtectEffect(m, a, prot, pick))
  {
    if ProtectCopies(m, a, prot) {
      var m1 := m.(mem := m.mem[pick.value := m.mem[m.pt[a].frame]]);
      MemUpdateInv(m, m1.mem, m.disk);
      PutLeafInv(m1, a, ProtectLeaf(m.pt[a], prot, true, pick.value));
    } else {
      PutLeafInv(m, a, ProtectLeaf(m.pt[a], prot, false, 0));
    }
  }

  /** Every step keeps the accounting exact. */
  lemma StepInv(m: Machine, op: Op)
    requires Inv(m)
    ensures Inv(Step(m, op))
  {
    if Accepts(m, op) {
      match op
      case Map(_, _, _) => StepInvFault(m, op);
      case SwapIn(_, _) => StepInvFault(m, op);
      case CowFault(_, _) => StepInvFault(m, op);
      case Reclaim(_, _) => StepInvFault(m, op);
      case DontNeed(_, _) => StepInvFault(m, op);
      case Unmap(a) => DelLeafInv(m, a);
      case Protect(a, prot, pick) => StepInvProtect(m, a, prot, pick);
      case Store(a, off, v) => MemUpdateInv(m, m.mem[m.pt[a].frame := m.mem[m.pt[a].frame][off := v]], m.disk);
      case Fork(parent, child) => ForkInv(m, parent, child, m.pages);
      case Exit(pid) => ExitInv(m, pid, m.pages);
      case SwapOn(_) =>
      case BeginDrain =>
      case EndDrain =>
    }
  }

  /** In every state of every run the reference counts and the swap bitmap are exact. */
  lemma {:induction false} RunInv(m: Machine, ops: seq<Op>)
    requires Inv(m)
    ensures Inv(Run(m, ops))
  {
    if ops != [] {
      RunInv(m, ops[..|ops| - 1]);
      StepInv(Run(m, ops[..|ops| - 1]), ops[|ops| - 1]);
    }
  }

  /** From boot, without the invariant: a frame's count is the number of leaves that name it, a slot is in use exactly
      when a leaf names it, and then only one does. */
  lemma FromBoot(m: Machine, ops: seq<Op>)
    requires Init(m)
    ensures var q := Run(m, ops);
      && (forall f :: f in q.ref ==> q.ref[f] == |Owners(q.pt, f)|)
      && (forall s :: s in q.used <==> SlotNamed(q.pt, s))
      && (forall a, b :: a in q.pt && b in q.pt && q.pt[a].Swap? && q.pt[b].Swap? && q.pt[a].slot == q.pt[b].slot ==>
        a == b)
  {
    InitInv(m);
    RunInv(m, ops);
  }
}
