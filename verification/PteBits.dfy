/** Leaf page-table entries field by field, and the abstract leaf each entry stands for.

    The kernel writes 64-bit words; the memory machine (module PagedMemory) works on `Leaf` values. Every rewrite of a
    word the kernel performs is given here on the bits it touches, together with the rewrite of the leaf it must be, and
    a lemma that decoding commutes with the two. */
module PteBits {
  /** The bits of an entry: 0 present, 1 writable, 2 user (in a swap entry: saved writable), 3 write-through (in a swap
      entry: saved copy-on-write), 9 copy-on-write, 10 PROT_NONE marker, 11 swap marker, 12-51 `field`, 63 no-execute.
      `rest` holds the bits no rewrite looks at (accessed, dirty, global, ignored). */
  datatype Pte = Pte(present: bool, writable: bool, bit2: bool, bit3: bool, cow: bool, noneMark: bool, swapMark: bool,
                     field: nat, nx: bool, rest: nat)

  const ZERO := Pte(false, false, false, false, false, false, false, 0, false, 0)

  /** Both the address mask 0xFFFF_FFFF_F000 and the slot mask 0xF_FFFF_FFFF keep 36 bits of the field. */
  const FIELD_LIMIT: nat := 0x10_0000_0000

  /** What an entry stands for. `Present` and `Reserved` (a PROT_NONE reservation) pin a frame, `Swap` a swap slot. */
  datatype Leaf =
    | Free
    | Present(frame: nat, writable: bool, cow: bool, nx: bool)
    | Reserved(frame: nat, writable: bool, cow: bool, nx: bool)
    | Swap(slot: nat, writable: bool, cow: bool, nx: bool)
    | Unknown

  /** The protection argument of mmap and mprotect. */
  datatype Prot = Prot(read: bool, write: bool, exec: bool) {
    predicate IsNone() { !read && !write && !exec }
  }

  // ─── kernel/mm/pte_kind.zig ───

  datatype Kind = KPresent | KFree | KSwap | KProtNone | KUnknown
  datatype TeardownAction = Nothing | DropFrame | DropSlot

  function Classify(pte: Pte): Kind {
    if pte.present then KPresent
    else if pte == ZERO then KFree
    else if pte.swapMark then KSwap
    else if pte.noneMark then KProtNone
    else KUnknown
  }

  function Teardown(pte: Pte): TeardownAction {
    match Classify(pte)
    case KPresent | KProtNone => DropFrame
    case KSwap => DropSlot
    case KFree | KUnknown => Nothing
  }

  function EncodeSwapEntry(slot: nat): Pte { ZERO.(swapMark := true, field := slot) }

  function FieldOf(pte: Pte): nat { pte.field % FIELD_LIMIT }

  /** The abstraction function: the leaf an entry stands for. */
  function Decode(pte: Pte): Leaf {
    match Classify(pte)
    case KPresent => Present(FieldOf(pte), pte.writable, pte.cow, pte.nx)
    case KProtNone => Reserved(FieldOf(pte), pte.writable, pte.cow, pte.nx)
    case KSwap => Swap(FieldOf(pte), pte.bit2, pte.bit3, pte.nx)
    case KFree => Free
    case KUnknown => Unknown
  }

  /** Tearing an entry down reclaims exactly what its leaf pins: one frame reference, one slot, or nothing. */
  lemma TeardownMatchesLeaf(pte: Pte)
    ensures Teardown(pte) == DropFrame <==> Decode(pte).Present? || Decode(pte).Reserved?
    ensures Teardown(pte) == DropSlot <==> Decode(pte).Swap?
    ensures Teardown(pte) == Nothing <==> Decode(pte).Free? || Decode(pte).Unknown?
  {
  }

  /** The slot written into a swap entry is read back exactly when it fits 36 bits. The kernel's comments promise 40;
      its slot table has 65536, so the difference never shows. */
  lemma SwapEntryRoundTrip(slot: nat)
    ensures Decode(EncodeSwapEntry(slot)) == Swap(slot, false, false, false) <==> slot < FIELD_LIMIT
  {
  }

  // ─── kernel/mm/cow_pte.zig ───

  function SharedPte(pte: Pte): Pte {
    if !pte.writable then pte else pte.(writable := false, cow := true)
  }

  function SharedLeaf(l: Leaf): Leaf {
    match l
    case Present(f, w, c, nx) => Present(f, false, c || w, nx)
    case _ => l
  }

  // ─── kernel/mm/swap.zig: swapOut and swapIn ───

  function SwapOutPte(pte: Pte, slot: nat): Pte {
    EncodeSwapEntry(slot).(nx := pte.nx, bit2 := pte.writable, bit3 := pte.cow)
  }

  function SwapInPte(pte: Pte, frame: nat): Pte {
    ZERO.(field := frame, present := true, bit2 := true, writable := pte.bit2, cow := pte.bit3, nx := pte.nx)
  }

  function SwapOutLeaf(l: Leaf, slot: nat): Leaf {
    match l
    case Present(_, w, c, nx) => Swap(slot, w, c, nx)
    case _ => l
  }

  function SwapInLeaf(l: Leaf, frame: nat): Leaf {
    match l
    case Swap(_, w, c, nx) => Present(frame, w, c, nx)
    case _ => l
  }

  // ─── kernel/mm/mprotect.zig: the rewrite of one live leaf ───

  /** mprotect's rewrite of one non-zero entry. `copy` is the fresh frame a copy-on-write entry is moved to when its
      frame is `shared` with another entry. */
  function ProtectPte(pte: Pte, prot: Prot, shared: bool, copy: nat): Pte {
    if Classify(pte) == KSwap then
      if prot.IsNone() then pte else pte.(bit2 := prot.write, nx := !prot.exec)
    else if prot.IsNone() then pte.(noneMark := true, present := false)
    else
      var e := pte.(present := true, noneMark := false, nx := !prot.exec, bit2 := true);
      if !prot.write then e.(writable := false)
      else if !e.cow then e.(writable := true)
      else if shared then e.(field := copy, cow := false, writable := true)
      else e.(cow := false, writable := true)
  }

  function ProtectLeaf(l: Leaf, prot: Prot, shared: bool, copy: nat): Leaf {
    match l
    case Swap(s, _, c, _) => if prot.IsNone() then l else Swap(s, prot.write, c, !prot.exec)
    case Present(f, w, c, nx) => ReprotectLeaf(f, w, c, nx, prot, shared, copy)
    case Reserved(f, w, c, nx) => ReprotectLeaf(f, w, c, nx, prot, shared, copy)
    case _ => l
  }

  function ReprotectLeaf(f: nat, w: bool, c: bool, nx: bool, prot: Prot, shared: bool, copy: nat): Leaf {
    if prot.IsNone() then Reserved(f, w, c, nx)
    else if !prot.write then Present(f, false, c, !prot.exec)
    else Present(if c && shared then copy else f, true, false, !prot.exec)
  }

  // ─── kernel/arch/x86_64/idt.zig: the copy-on-write fault ───

  function CowBreakPte(pte: Pte, shared: bool, copy: nat): Pte {
    if shared then pte.(field := copy, cow := false, writable := true) else pte.(cow := false, writable := true)
  }

  function CowBreakLeaf(l: Leaf, shared: bool, copy: nat): Leaf {
    match l
    case Present(f, _, _, nx) => Present(if shared then copy else f, true, false, nx)
    case _ => l
  }

  // Every rewrite of an entry is the rewrite of the leaf it stands for. The swap marker on a present entry is the one
  // combination that would decode wrongly later (PROT_NONE would turn it into a swap entry); no rewrite produces it.

  lemma SharedCommutes(pte: Pte)
    requires Decode(pte).Present?
    ensures Decode(SharedPte(pte)) == SharedLeaf(Decode(pte)) && SharedPte(pte).swapMark == pte.swapMark
  {
  }

  lemma SwapOutCommutes(pte: Pte, slot: nat)
    requires Decode(pte).Present? && slot < FIELD_LIMIT
    ensures Decode(SwapOutPte(pte, slot)) == SwapOutLeaf(Decode(pte), slot)
  {
  }

  lemma SwapInCommutes(pte: Pte, frame: nat)
    requires Decode(pte).Swap? && frame < FIELD_LIMIT
    ensures Decode(SwapInPte(pte, frame)) == SwapInLeaf(Decode(pte), frame) && !SwapInPte(pte, frame).swapMark
  {
  }

  lemma ProtectSwapped(pte: Pte, prot: Prot, shared: bool, copy: nat)
    requires Classify(pte) == KSwap
    ensures var out := ProtectPte(pte, prot, shared, copy);
      Decode(out) == ProtectLeaf(Decode(pte), prot, shared, copy) && !out.present
  {
  }

  lemma ProtectRevoked(pte: Pte, prot: Prot, shared: bool, copy: nat)
    requires (Classify(pte) == KPresent || Classify(pte) == KProtNone) && !pte.swapMark && prot.IsNone()
    ensures var out := ProtectPte(pte, prot, shared, copy);
      Decode(out) == ProtectLeaf(Decode(pte), prot, shared, copy) && !out.present
  {
  }

  lemma ProtectGranted(pte: Pte, prot: Prot, shared: bool, copy: nat)
    requires (Classify(pte) == KPresent || Classify(pte) == KProtNone) && !pte.swapMark && !prot.IsNone()
    requires copy < FIELD_LIMIT
    ensures var out := ProtectPte(pte, prot, shared, copy);
      Decode(out) == ProtectLeaf(Decode(pte), prot, shared, copy) && out.present && !out.swapMark
  {
    var out := ProtectPte(pte, prot, shared, copy);
    assert FieldOf(out) == if prot.write && pte.cow && shared then copy else FieldOf(pte);
  }

  lemma ProtectCommutes(pte: Pte, prot: Prot, shared: bool, copy: nat)
    requires !Decode(pte).Free? && !Decode(pte).Unknown? && copy < FIELD_LIMIT
    requires pte.present ==> !pte.swapMark
    ensures Decode(ProtectPte(pte, prot, shared, copy)) == ProtectLeaf(Decode(pte), prot, shared, copy)
    ensures var out := ProtectPte(pte, prot, shared, copy); out.present ==> !out.swapMark
  {
    if Classify(pte) == KSwap {
      ProtectSwapped(pte, prot, shared, copy);
    } else if prot.IsNone() {
      ProtectRevoked(pte, prot, shared, copy);
    } else {
      ProtectGranted(pte, prot, shared, copy);
    }
  }

  lemma CowBreakCommutes(pte: Pte, shared: bool, copy: nat)
    requires Decode(pte).Present? && copy < FIELD_LIMIT
    ensures Decode(CowBreakPte(pte, shared, copy)) == CowBreakLeaf(Decode(pte), shared, copy)
  {
  }

  /** An eviction followed by a fault gives back the permissions and markers the page had, on the new frame. */
  lemma SwapRoundTrip(pte: Pte, slot: nat, frame: nat)
    requires Decode(pte).Present? && slot < FIELD_LIMIT && frame < FIELD_LIMIT
    ensures Decode(SwapInPte(SwapOutPte(pte, slot), frame))
         == Present(frame, Decode(pte).writable, Decode(pte).cow, Decode(pte).nx)
  {
  }
}
