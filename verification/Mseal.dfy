/** mseal: a bounded list of sealed ranges per address space, and every call that changes mappings beside it. */
module Mseal {
  import opened Basics

  const MAX_SEALS: nat := 32

  datatype Range = Range(base: nat, len: nat)

  /** Where a page's contents are: in a frame, on swap, in a frame access was revoked from, or still to be read. */
  datatype Where = Ram | Swapped | Reserved | Demand

  /** The record of the region table a page lies in: none (heap, attachments, buffers, and frames a record left behind),
      one of anonymous memory, or one of a file that starts at `base`, from which missing pages are read. */
  datatype Kind = Loose | Anon | File(base: nat)

  /** `origin` names the mapping a page belongs to. */
  datatype Page = Page(origin: nat, prot: nat, kind: Kind, at: Where)

  /** A buffer of a user-space driver, and the thread that owns it. */
  datatype Dma = Dma(tid: nat, len: nat)

  /** `start` and `brk` bound the heap; `shm` maps the base of a SysV attachment to its length. */
  datatype Space = Space(pages: map<nat, Page>, seals: seq<Range>, start: nat, brk: nat,
                         shm: map<nat, nat>, dma: map<nat, Dma>)
  type World = map<nat, Space>

  // ─── the seal table ───

  predicate In(r: Range, p: nat) { r.base <= p < r.base + r.len }

  /** Whether [lo, lo+n) touches a sealed range. */
  predicate Touches(seals: seq<Range>, lo: nat, n: nat) {
    n > 0 && exists i :: 0 <= i < |seals| && lo < seals[i].base + seals[i].len && seals[i].base < lo + n
  }

  predicate Sealed(seals: seq<Range>, p: nat) { exists i :: 0 <= i < |seals| && In(seals[i], p) }

  function Add(seals: seq<Range>, lo: nat, n: nat): Option<seq<Range>> {
    if exists i :: 0 <= i < |seals| && seals[i].base <= lo && lo + n <= seals[i].base + seals[i].len then Some(seals)
    else if |seals| >= MAX_SEALS then None
    else Some(seals + [Range(lo, n)])
  }

  ghost predicate NonEmpty(seals: seq<Range>) { forall i :: 0 <= i < |seals| ==> seals[i].len > 0 }

  /** The interval test of the table is the page-by-page test. */
  lemma TouchesExactly(seals: seq<Range>, lo: nat, n: nat)
    requires NonEmpty(seals)
    ensures Touches(seals, lo, n) <==> exists p :: lo <= p < lo + n && Sealed(seals, p)
  {
    if Touches(seals, lo, n) {
      var i :| 0 <= i < |seals| && lo < seals[i].base + seals[i].len && seals[i].base < lo + n;
      var p := if lo < seals[i].base then seals[i].base else lo;
      assert In(seals[i], p) && Sealed(seals, p);
    }
    if p :| lo <= p < lo + n && Sealed(seals, p) {
      var i :| 0 <= i < |seals| && In(seals[i], p);
    }
  }

  /** A successful add seals exactly the named pages on top of those sealed before, within the table's bound. */
  lemma AddSealsRange(seals: seq<Range>, lo: nat, n: nat, p: nat)
    requires n > 0 && Add(seals, lo, n).Some? && NonEmpty(seals) && |seals| <= MAX_SEALS
    ensures var seals' := Add(seals, lo, n).value;
      (Sealed(seals', p) <==> Sealed(seals, p) || lo <= p < lo + n) && NonEmpty(seals') && |seals'| <= MAX_SEALS
  {
    var seals' := Add(seals, lo, n).value;
    if seals' == seals {
      var i :| 0 <= i < |seals| && seals[i].base <= lo && lo + n <= seals[i].base + seals[i].len;
      assert lo <= p < lo + n ==> In(seals[i], p);
    } else {
      assert seals'[|seals|] == Range(lo, n) && forall i :: 0 <= i < |seals| ==> seals'[i] == seals[i];
    }
  }

  // ─── calls ───

  datatype Op =
    | Map(pid: nat, lo: nat, n: nat, origin: nat, prot: nat, backed: bool, fixed: bool, stop: Stop)
    | Unmap(pid: nat, lo: nat, n: nat, fits: bool)
    | Protect(pid: nat, lo: nat, n: nat, prot: nat)
    | Remap(pid: nat, lo: nat, n: nat, how: Move)
    | Discard(pid: nat, lo: nat, n: nat)
    | Seal(pid: nat, lo: nat, n: nat)
    | Brk(pid: nat, end: nat, origin: nat, fits: bool)
    | ShmAttach(pid: nat, lo: nat, n: nat, origin: nat, prot: nat)
    | ShmDetach(pid: nat, lo: nat)
    | DmaAlloc(pid: nat, tid: nat, lo: nat, n: nat, origin: nat)
    | DmaFree(pid: nat, tid: nat, lo: nat)
    | ThreadExit(pid: nat, tid: nat)
    | Evict(pid: nat, p: nat)
    | Fault(pid: nat, p: nat)
    | Fork(parent: nat, child: nat)

  /** What mmap runs out of: slots of the region table, which are counted first; a limit or frames, which are asked for
      when a fixed mapping has already displaced what was there; or nothing. */
  datatype Stop = NoSlot | NoMemory | Nothing

  /** What mremap does with [lo, lo+n) once it is admitted. */
  datatype Move =
    | Shrink(keep: nat)
    | Grow(newN: nat)
    | Relocate(dst: nat, newN: nat, fixed: bool, page: Page)

  const READ_WRITE: nat := 3

  function NewPage(origin: nat, prot: nat, kind: Kind): Page {
    Page(origin, prot, kind, if kind.File? then Demand else if prot == 0 then Reserved else Ram)
  }

  function KindOf(backed: bool, lo: nat): Kind { if backed then File(lo) else Anon }

  predicate Free(pages: map<nat, Page>, lo: nat, n: nat) { forall p :: lo <= p < lo + n ==> p !in pages }

  predicate AllMapped(pages: map<nat, Page>, lo: nat, n: nat) { forall p :: lo <= p < lo + n ==> p in pages }

  predicate Tracked(pages: map<nat, Page>, lo: nat, n: nat) {
    forall p :: lo <= p < lo + n ==> p in pages && pages[p].kind != Loose
  }

  /** What MAP_FIXED may land on: a loose page stops it. */
  predicate Displaceable(pages: map<nat, Page>, lo: nat, n: nat) {
    forall p :: lo <= p < lo + n && p in pages ==> pages[p].kind != Loose
  }

  /** Page `p` lies in the record of a file mapping that starts at `base`. */
  predicate InFile(pages: map<nat, Page>, base: nat, p: nat) { p in pages && pages[p].kind == File(base) }

  /** Whether [lo, lo+n) meets an attachment, which only shmdt may touch. */
  predicate Attached(s: Space, lo: nat, n: nat) { exists a :: a in s.shm && lo < a + s.shm[a] && a < lo + n }

  /** The record of a file page after its record was cut at `lo` and `lo + n`. */
  function Cut(page: Page, p: nat, lo: nat, n: nat): Page {
    if page.kind.File? && n > 0 then
      var from := if p < lo then 0 else if p < lo + n then lo else lo + n;
      page.(kind := File(if page.kind.base < from then from else page.kind.base))
    else page
  }

  function Without(pages: map<nat, Page>, lo: nat, n: nat): map<nat, Page> {
    map p | p in pages && !(lo <= p < lo + n) :: Cut(pages[p], p, lo, n)
  }

  function Filled(lo: nat, n: nat, page: Page): map<nat, Page> {
    if n == 0 then map[] else Filled(lo, n - 1, page)[lo + n - 1 := page]
  }

  /** The pages of [lo, lo+n) moved to `dst`, cut or extended to `m` pages. */
  function Moved(pages: map<nat, Page>, lo: nat, n: nat, dst: nat, m: nat, page: Page): map<nat, Page> {
    if m == 0 then map[]
    else
      var last := if m - 1 < n && lo + m - 1 in pages then pages[lo + m - 1] else page;
      Moved(pages, lo, n, dst, m - 1, page)[dst + m - 1 := last]
  }

  /** mprotect of one page: revoked contents keep their frame, swapped ones their slot. */
  function Reprotected(page: Page, prot: nat): Page {
    match page.at
    case Ram => page.(prot := prot, at := if prot == 0 then Reserved else Ram)
    case Reserved => page.(prot := prot, at := if prot == 0 then Reserved else Ram)
    case _ => page.(prot := prot)
  }

  /** madvise may not throw away sealed anonymous contents that could not be written back. */
  predicate DiscardBlocked(s: Space, p: nat) {
    p in s.pages && Sealed(s.seals, p) && s.pages[p].kind == Anon && s.pages[p].prot < 2
  }

  /** 0, or the errno; -1 is the refusal by a seal. */
  function Code(w: World, op: Op): int {
    if op.Fork? then (if op.parent !in w || op.child in w || w[op.parent].shm != map[] then -11 else 0)
    else if op.pid !in w then -3
    else SpaceCode(w[op.pid], op)
  }

  function SpaceCode(s: Space, op: Op): int {
    match op
    case Map(_, lo, n, _, _, _, fixed, stop) =>
      if n == 0 then -22
      else if fixed && Attached(s, lo, n) then -22
      else if fixed && Touches(s.seals, lo, n) then -1
      else if !(if fixed then Displaceable(s.pages, lo, n) else Free(s.pages, lo, n)) || stop != Nothing then -12
      else 0
    case Unmap(_, lo, n, fits) =>
      if n == 0 || Attached(s, lo, n) then -22 else if Touches(s.seals, lo, n) then -1 else if !fits then -12 else 0
    case Protect(_, lo, n, _) =>
      if Touches(s.seals, lo, n) then -1
      else if Attached(s, lo, n) then -22
      else if !AllMapped(s.pages, lo, n) then -12
      else 0
    case Remap(_, lo, n, how) =>
      if Touches(s.seals, lo, n) then -1
      else if how.Relocate? && how.fixed && Touches(s.seals, how.dst, how.newN) then -1
      else if !RemapFits(s, lo, n, how) then -12
      else 0
    case Discard(_, lo, n) =>
      if n == 0 || Attached(s, lo, n) then -22
      else if !Tracked(s.pages, lo, n) then -12
      else if exists p :: lo <= p < lo + n && DiscardBlocked(s, p) then -1
      else 0
    case Seal(_, lo, n) =>
      if n == 0 then 0 else if !AllMapped(s.pages, lo, n) || Add(s.seals, lo, n).None? then -12 else 0
    case Brk(_, end, _, fits) =>
      if end < s.start || (end > s.brk && (!fits || !Free(s.pages, s.brk, end - s.brk))) then -12 else 0
    case ShmAttach(_, lo, n, _, _) => if n == 0 || !Free(s.pages, lo, n) || lo in s.shm then -22 else 0
    case ShmDetach(_, lo) => if lo !in s.shm || !AllMapped(s.pages, lo, s.shm[lo]) then -22 else 0
    case DmaAlloc(_, _, lo, n, _) => if n == 0 || !Free(s.pages, lo, n) || lo in s.dma then -12 else 0
    case DmaFree(_, tid, lo) => if lo !in s.dma || s.dma[lo].tid != tid then -22 else 0
    case _ => 0
  }

  predicate RemapFits(s: Space, lo: nat, n: nat, how: Move) {
    && n > 0 && AllMapped(s.pages, lo, n) && !Attached(s, lo, n)
    && (s.pages[lo].kind.File? ==> forall p :: lo <= p < lo + n ==> InFile(s.pages, lo, p))
    && match how
       case Shrink(keep) => keep <= n
       case Grow(newN) => newN > n && Growable(s.pages, lo, n, newN)
       case Relocate(dst, newN, fixed, _) =>
         && !s.pages[lo].kind.File?
         && newN > 0 && (dst + newN <= lo || lo + n <= dst)
         && !Attached(s, dst, newN) && (if fixed then Displaceable(s.pages, dst, newN) else Free(s.pages, dst, newN))
  }

  /** The pages to grow into are free. Those of a file record itself count as free while nothing is in them. */
  predicate Growable(pages: map<nat, Page>, lo: nat, n: nat, newN: nat) {
    forall p :: lo + n <= p < lo + newN && p in pages ==>
      InFile(pages, lo, lo) && InFile(pages, lo, p) && pages[p].at == Demand
  }

  function Step(w: World, op: Op): World {
    if op.Fork? then (if Code(w, op) == 0 then w[op.child := Child(w[op.parent])] else w)
    else if op.pid !in w then w
    else w[op.pid := SpaceStep(w[op.pid], op)]
  }

  /** Fork copies entries that are present, and the regions from which a file's pages are read again. */
  predicate Copied(page: Page) { page.at == Ram || page.kind.File? }

  function Child(s: Space): Space {
    s.(pages := map p | p in s.pages && Copied(s.pages[p]) :: s.pages[p], dma := map[])
  }

  /** A refused call changes nothing, but for mprotect over a hole, which changes the pages that exist and then reports,
      and a fixed mapping that meets a limit when what it lands on is gone. */
  function SpaceStep(s: Space, op: Op): Space {
    var code := SpaceCode(s, op);
    if op.Map? && code == -12 && op.fixed && Displaceable(s.pages, op.lo, op.n) && op.stop == NoMemory then
      s.(pages := Without(s.pages, op.lo, op.n))
    else if code != 0 && !(op.Protect? && code == -12) then s
    else Effect(s, op)
  }

  function Effect(s: Space, op: Op): Space {
    match op
    case Map(_, lo, n, origin, prot, backed, _, _) =>
      s.(pages := Without(s.pages, lo, n) + Filled(lo, n, NewPage(origin, prot, KindOf(backed, lo))))
    case Unmap(_, lo, n, _) => s.(pages := Without(s.pages, lo, n))
    case Protect(_, lo, n, prot) =>
      s.(pages := map p | p in s.pages ::
           var page := Cut(s.pages[p], p, lo, n);
           if lo <= p < lo + n then Reprotected(page, prot) else page)
    case Remap(_, lo, n, how) => s.(pages := Remapped(s.pages, lo, n, how))
    case Discard(_, lo, n) =>
      s.(pages := map p | p in s.pages ::
           if lo <= p < lo + n && s.pages[p].kind.File? then s.pages[p].(at := Demand) else s.pages[p])
    case Seal(_, lo, n) => if n == 0 || Add(s.seals, lo, n).None? then s else s.(seals := Add(s.seals, lo, n).value)
    case Brk(_, end, origin, _) =>
      if end > s.brk then
        s.(pages := s.pages + Filled(s.brk, end - s.brk, NewPage(origin, READ_WRITE, Loose)), brk := end)
      else s.(pages := Without(s.pages, end, s.brk - end), brk := end)
    case ShmAttach(_, lo, n, origin, prot) =>
      s.(pages := s.pages + Filled(lo, n, Page(origin, prot, Loose, Ram)), shm := s.shm[lo := n])
    case ShmDetach(_, lo) =>
      if lo in s.shm then s.(pages := Without(s.pages, lo, s.shm[lo]), shm := s.shm - {lo}) else s
    case DmaAlloc(_, tid, lo, n, origin) =>
      s.(pages := s.pages + Filled(lo, n, Page(origin, READ_WRITE, Loose, Ram)), dma := s.dma[lo := Dma(tid, n)])
    case DmaFree(_, _, lo) =>
      if lo in s.dma then s.(pages := Without(s.pages, lo, s.dma[lo].len), dma := s.dma - {lo}) else s
    case ThreadExit(_, tid) =>
      s.(pages := map p | p in s.pages && !Owned(s, tid, p) :: s.pages[p],
         dma := map lo | lo in s.dma && s.dma[lo].tid != tid :: s.dma[lo])
    case Evict(_, p) =>
      if p in s.pages && s.pages[p].at == Ram && !s.pages[p].kind.File?
      then s.(pages := s.pages[p := s.pages[p].(at := Swapped)])
      else s
    case Fault(_, p) =>
      if p in s.pages && (s.pages[p].at == Swapped || s.pages[p].at == Demand)
      then s.(pages := s.pages[p := s.pages[p].(at := Ram)])
      else s
    case Fork(_, _) => s
  }

  /** Page `p` lies in a driver buffer of thread `tid`. */
  predicate Owned(s: Space, tid: nat, p: nat) {
    exists lo :: lo in s.dma && s.dma[lo].tid == tid && lo <= p < lo + s.dma[lo].len
  }

  function Remapped(pages: map<nat, Page>, lo: nat, n: nat, how: Move): map<nat, Page> {
    match how
    case Shrink(keep) => if keep <= n then Without(pages, lo + keep, n - keep) else pages
    case Grow(newN) => if lo !in pages || newN <= n then pages else Grown(pages, lo, n, newN)
    case Relocate(dst, newN, _, page) =>
      Without(Without(pages, dst, newN), lo, n) + Moved(pages, lo, n, dst, newN, page)
  }

  /** Growth in place. A file record gets the length asked for, also when it was longer: the pages behind its new end
      are in no record any more, and those that were not in a frame are gone. */
  function Grown(pages: map<nat, Page>, lo: nat, n: nat, newN: nat): map<nat, Page>
    requires lo in pages && newN > n
  {
    var first := pages[lo];
    if first.kind.File? then
      Filled(lo + n, newN - n, Page(first.origin, first.prot, File(lo), Demand)) +
      map p | p in pages && !Drops(pages, lo, newN, p) ::
        if InFile(pages, lo, p) && p >= lo + newN then pages[p].(kind := Loose) else pages[p]
    else pages + Filled(lo + n, newN - n, Page(first.origin, READ_WRITE, Anon, Ram))
  }

  /** Growing the file record at `lo` to `newN` pages loses page `p`. */
  predicate Drops(pages: map<nat, Page>, lo: nat, newN: nat, p: nat) {
    InFile(pages, lo, lo) && InFile(pages, lo, p) && p >= lo + newN && pages[p].at == Demand
  }

  function Run(w: World, ops: seq<Op>): World {
    if ops == [] then w else Step(Run(w, ops[..|ops| - 1]), ops[|ops| - 1])
  }

  // ─── what sealing promises ───

  ghost predicate SealsOk(s: Space) { NonEmpty(s.seals) && |s.seals| <= MAX_SEALS }

  ghost predicate Inv(w: World) { forall pid :: pid in w ==> SealsOk(w[pid]) }

  /** Page `p` is sealed and mapped by `origin` with `prot`. */
  ghost predicate HeldIn(s: Space, p: nat, origin: nat, prot: nat) {
    Sealed(s.seals, p) && p in s.pages && s.pages[p].origin == origin && s.pages[p].prot == prot
  }

  ghost predicate Held(w: World, pid: nat, p: nat, origin: nat, prot: nat) {
    pid in w && HeldIn(w[pid], p, origin, prot)
  }

  /** The calls that take pages without asking the seals: a break that moves below the page, shmdt of the attachment
      it lies in, the end of the driver buffer it lies in, by the call or with the thread that owns it, and mremap that
      grows the front of the file record it lies in. */
  predicate TakesIn(s: Space, op: Op, p: nat) {
    match op
    case Remap(_, lo, n, Grow(newN)) => SpaceCode(s, op) == 0 && Drops(s.pages, lo, newN, p)
    case Brk(_, end, _, _) => s.start <= end <= p < s.brk
    case ShmDetach(_, lo) => lo in s.shm && lo <= p < lo + s.shm[lo] && AllMapped(s.pages, lo, s.shm[lo])
    case DmaFree(_, tid, lo) => lo in s.dma && s.dma[lo].tid == tid && lo <= p < lo + s.dma[lo].len
    case ThreadExit(_, tid) => Owned(s, tid, p)
    case _ => false
  }

  predicate Takes(w: World, op: Op, pid: nat, p: nat) {
    !op.Fork? && op.pid == pid && pid in w && TakesIn(w[pid], op, p)
  }

  lemma {:induction false} FilledAt(lo: nat, n: nat, page: Page, p: nat)
    ensures p in Filled(lo, n, page) <==> lo <= p < lo + n
  {
    if n > 0 {
      FilledAt(lo, n - 1, page, p);
    }
  }

  lemma {:induction false} MovedAt(pages: map<nat, Page>, lo: nat, n: nat, dst: nat, m: nat, page: Page, p: nat)
    ensures p in Moved(pages, lo, n, dst, m, page) <==> dst <= p < dst + m
  {
    if m > 0 {
      MovedAt(pages, lo, n, dst, m - 1, page, p);
    }
  }

  lemma SealedOutside(seals: seq<Range>, lo: nat, n: nat, p: nat)
    requires NonEmpty(seals) && Sealed(seals, p) && !Touches(seals, lo, n)
    ensures !(lo <= p < lo + n)
  {
    TouchesExactly(seals, lo, n);
  }

  /** `after` has page `p` mapped as `before` has. */
  ghost predicate SameMapping(before: map<nat, Page>, after: map<nat, Page>, p: nat)
    requires p in before
  {
    p in after && after[p].origin == before[p].origin && after[p].prot == before[p].prot
  }

  lemma GrowKeepsExactly(s: Space, lo: nat, n: nat, newN: nat, p: nat)
    requires p in s.pages && RemapFits(s, lo, n, Grow(newN))
    ensures SameMapping(s.pages, Grown(s.pages, lo, n, newN), p) <==> !Drops(s.pages, lo, newN, p)
  {
    var first := s.pages[lo];
    FilledAt(lo + n, newN - n, Page(first.origin, first.prot, File(lo), Demand), p);
    FilledAt(lo + n, newN - n, Page(first.origin, READ_WRITE, Anon, Ram), p);
  }

  lemma MoveKeeps(s: Space, lo: nat, n: nat, how: Move, p: nat)
    requires NonEmpty(s.seals) && Sealed(s.seals, p) && p in s.pages
    requires !Touches(s.seals, lo, n) && RemapFits(s, lo, n, how) && !how.Grow?
    requires how.Relocate? && how.fixed ==> !Touches(s.seals, how.dst, how.newN)
    ensures SameMapping(s.pages, Remapped(s.pages, lo, n, how), p)
  {
    SealedOutside(s.seals, lo, n, p);
    if how.Relocate? {
      MovedAt(s.pages, lo, n, how.dst, how.newN, how.page, p);
      if how.fixed {
        SealedOutside(s.seals, how.dst, how.newN, p);
      }
    }
  }

  /** mremap leaves a sealed page alone exactly when it does not drop it behind a grown file record. */
  lemma RemapKeepsExactly(s: Space, op: Op, p: nat, origin: nat, prot: nat)
    requires NonEmpty(s.seals) && HeldIn(s, p, origin, prot) && op.Remap?
    ensures HeldIn(SpaceStep(s, op), p, origin, prot) <==> !TakesIn(s, op, p)
  {
    if SpaceCode(s, op) == 0 {
      if op.how.Grow? {
        GrowKeepsExactly(s, op.lo, op.n, op.how.newN, p);
      } else {
        MoveKeeps(s, op.lo, op.n, op.how, p);
      }
    }
  }

  /** mmap, munmap, mprotect, madvise and mseal leave a sealed page alone. */
  lemma AskingKeeps(s: Space, op: Op, p: nat, origin: nat, prot: nat)
    requires NonEmpty(s.seals) && |s.seals| <= MAX_SEALS && HeldIn(s, p, origin, prot)
    requires op.Map? || op.Unmap? || op.Protect? || op.Discard? || op.Seal?
    ensures HeldIn(SpaceStep(s, op), p, origin, prot)
  {
    match op
    case Map(_, lo, n, o, q, backed, fixed, _) =>
      FilledAt(lo, n, NewPage(o, q, KindOf(backed, lo)), p);
      if fixed && !Touches(s.seals, lo, n) && n > 0 {
        SealedOutside(s.seals, lo, n, p);
      }
    case Unmap(_, lo, n, _) =>
      if !Touches(s.seals, lo, n) {
        SealedOutside(s.seals, lo, n, p);
      }
    case Protect(_, lo, n, _) =>
      if !Touches(s.seals, lo, n) {
        SealedOutside(s.seals, lo, n, p);
      }
    case Discard(_, lo, n) =>
    case Seal(_, lo, n) =>
      if SpaceCode(s, op) == 0 && n > 0 {
        AddSealsRange(s.seals, lo, n, p);
      }
  }

  /** The break, detach and the end of a driver buffer leave it alone exactly when they do not take it. */
  lemma TakersKeepExactly(s: Space, op: Op, p: nat, origin: nat, prot: nat)
    requires HeldIn(s, p, origin, prot) && (op.Brk? || op.ShmDetach? || op.DmaFree? || op.ThreadExit?)
    ensures HeldIn(SpaceStep(s, op), p, origin, prot) <==> !TakesIn(s, op, p)
  {
    if op.Brk? && op.end > s.brk {
      FilledAt(s.brk, op.end - s.brk, NewPage(op.origin, READ_WRITE, Loose), p);
    }
  }

  /** New attachments and buffers take free pages only, and paging moves contents only. */
  lemma OthersKeep(s: Space, op: Op, p: nat, origin: nat, prot: nat)
    requires HeldIn(s, p, origin, prot) && (op.ShmAttach? || op.DmaAlloc? || op.Evict? || op.Fault?)
    ensures HeldIn(SpaceStep(s, op), p, origin, prot)
  {
    if op.ShmAttach? {
      FilledAt(op.lo, op.n, Page(op.origin, op.prot, Loose, Ram), p);
    } else if op.DmaAlloc? {
      FilledAt(op.lo, op.n, Page(op.origin, READ_WRITE, Loose, Ram), p);
    }
  }

  lemma SealsUntouched(s: Space, op: Op)
    ensures SpaceStep(s, op).seals == s.seals ||
      (op.Seal? && op.n > 0 && Add(s.seals, op.lo, op.n) == Some(SpaceStep(s, op).seals))
  {
  }

  lemma InvKept(w: World, op: Op)
    requires Inv(w)
    ensures Inv(Step(w, op))
  {
    if !op.Fork? && op.pid in w {
      SealsUntouched(w[op.pid], op);
      if op.Seal? && op.n > 0 && Add(w[op.pid].seals, op.lo, op.n).Some? {
        AddSealsRange(w[op.pid].seals, op.lo, op.n, 0);
      }
      assert SealsOk(SpaceStep(w[op.pid], op));
    }
  }

  /** A sealed page keeps its mapping, its protection and its seal through any one call, except exactly the calls that
      take it without asking. */
  lemma StepKeepsExactly(w: World, op: Op, pid: nat, p: nat, origin: nat, prot: nat)
    requires Inv(w) && Held(w, pid, p, origin, prot)
    ensures Inv(Step(w, op))
    ensures Held(Step(w, op), pid, p, origin, prot) <==> !Takes(w, op, pid, p)
  {
    InvKept(w, op);
    if !op.Fork? && op.pid == pid {
      if op.Remap? {
        RemapKeepsExactly(w[pid], op, p, origin, prot);
      } else if op.Map? || op.Unmap? || op.Protect? || op.Discard? || op.Seal? {
        AskingKeeps(w[pid], op, p, origin, prot);
      } else if op.Brk? || op.ShmDetach? || op.DmaFree? || op.ThreadExit? {
        TakersKeepExactly(w[pid], op, p, origin, prot);
      } else {
        OthersKeep(w[pid], op, p, origin, prot);
      }
    }
  }

  /** No call of the run takes page `p` of `pid`. */
  ghost predicate NeverTaken(w: World, ops: seq<Op>, pid: nat, p: nat) {
    ops == [] || (NeverTaken(w, ops[..|ops| - 1], pid, p) && !Takes(Run(w, ops[..|ops| - 1]), ops[|ops| - 1], pid, p))
  }

  /** Once sealed, always sealed: in every later state of every run in which no break, detach, end of a driver buffer or
      growth of its file record takes the page. */
  lemma {:induction false} SealedForever(w: World, ops: seq<Op>, pid: nat, p: nat, origin: nat, prot: nat)
    requires Inv(w) && Held(w, pid, p, origin, prot) && NeverTaken(w, ops, pid, p)
    ensures Inv(Run(w, ops)) && Held(Run(w, ops), pid, p, origin, prot)
  {
    if ops != [] {
      var most := ops[..|ops| - 1];
      SealedForever(w, most, pid, p, origin, prot);
      StepKeepsExactly(Run(w, most), ops[|ops| - 1], pid, p, origin, prot);
    }
  }

  /** A call by which `pid` maps page `p` anew. */
  predicate Fills(op: Op, pid: nat, p: nat) {
    match op
    case Map(q, lo, n, _, _, _, _, _) => q == pid && lo <= p < lo + n
    case Remap(q, lo, n, how) =>
      q == pid &&
      (match how
       case Shrink(_) => false
       case Grow(newN) => lo <= p < lo + newN
       case Relocate(dst, newN, _, _) => dst <= p < dst + newN)
    case Brk(q, end, _, _) => q == pid && p < end
    case ShmAttach(q, lo, n, _, _) => q == pid && lo <= p < lo + n
    case DmaAlloc(q, _, lo, n, _) => q == pid && lo <= p < lo + n
    case Fork(_, child) => child == pid
    case _ => false
  }

  lemma MissingStays(w: World, op: Op, pid: nat, p: nat)
    requires pid in w && p !in w[pid].pages && !Fills(op, pid, p)
    ensures pid in Step(w, op) && p !in Step(w, op)[pid].pages
  {
    if !op.Fork? && op.pid == pid {
      var s := w[pid];
      match op
      case Map(_, lo, n, o, q, backed, _, _) => FilledAt(lo, n, NewPage(o, q, KindOf(backed, lo)), p);
      case Remap(_, lo, n, how) => RemapMissing(s.pages, lo, n, how, p);
      case Brk(_, end, o, _) =>
        FilledAt(s.brk, if end > s.brk then end - s.brk else 0, NewPage(o, READ_WRITE, Loose), p);
      case ShmAttach(_, lo, n, o, q) => FilledAt(lo, n, Page(o, q, Loose, Ram), p);
      case DmaAlloc(_, _, lo, n, o) => FilledAt(lo, n, Page(o, READ_WRITE, Loose, Ram), p);
      case _ =>
    }
  }

  lemma RemapMissing(pages: map<nat, Page>, lo: nat, n: nat, how: Move, p: nat)
    requires p !in pages
    requires how.Grow? ==> !(lo <= p < lo + how.newN)
    requires how.Relocate? ==> !(how.dst <= p < how.dst + how.newN)
    ensures p !in Remapped(pages, lo, n, how)
  {
    match how
    case Shrink(_) =>
    case Grow(newN) =>
      if lo in pages && newN > n {
        var first := pages[lo];
        FilledAt(lo + n, newN - n, Page(first.origin, first.prot, File(lo), Demand), p);
        FilledAt(lo + n, newN - n, Page(first.origin, READ_WRITE, Anon, Ram), p);
      }
    case Relocate(dst, newN, _, page) => MovedAt(pages, lo, n, dst, newN, page, p);
  }

  lemma {:induction false} MissingForever(w: World, ops: seq<Op>, pid: nat, p: nat)
    requires pid in w && p !in w[pid].pages && forall op :: op in ops ==> !Fills(op, pid, p)
    ensures pid in Run(w, ops) && p !in Run(w, ops)[pid].pages
  {
    if ops != [] {
      var most := ops[..|ops| - 1];
      MissingForever(w, most, pid, p);
      assert ops[|ops| - 1] in ops;
      MissingStays(Run(w, most), ops[|ops| - 1], pid, p);
    }
  }

  /** A forked child inherits the seals. It has a sealed page of its parent, then and in every later state of every run
      that neither takes it nor maps it anew, exactly when the page was in a frame at the fork or is read from a file.
  */
  lemma ChildSealedExactly(w: World, parent: nat, child: nat, ops: seq<Op>, p: nat, origin: nat, prot: nat)
    requires Inv(w) && Held(w, parent, p, origin, prot) && Code(w, Fork(parent, child)) == 0
    requires NeverTaken(Step(w, Fork(parent, child)), ops, child, p) && forall op :: op in ops ==> !Fills(op, child, p)
    ensures Held(Run(Step(w, Fork(parent, child)), ops), child, p, origin, prot) <==> Copied(w[parent].pages[p])
  {
    var w' := Step(w, Fork(parent, child));
    if Copied(w[parent].pages[p]) {
      SealedForever(w', ops, child, p, origin, prot);
    } else {
      MissingForever(w', ops, child, p);
    }
  }

  /** A range that meets a sealed page anywhere is refused as a whole: by the seal, or by an attachment met first. */
  lemma PartlySealedRefused(w: World, op: Op, p: nat)
    requires Inv(w) && (op.Unmap? || op.Protect? || op.Remap? || (op.Map? && op.fixed)) && op.pid in w
    requires Sealed(w[op.pid].seals, p) && op.lo <= p < op.lo + op.n
    ensures Code(w, op) == (if (op.Unmap? || op.Map?) && Attached(w[op.pid], op.lo, op.n) then -22 else -1)
    ensures Step(w, op) == w
  {
    TouchesExactly(w[op.pid].seals, op.lo, op.n);
  }

  // ─── runs ───

  function Fresh(): World { map[1 := Space(map[], [], 10, 10, map[], map[])] }

  lemma RunThree(w: World, x: Op, y: Op, z: Op)
    ensures Run(w, [x, y]) == Step(Step(w, x), y) && Run(w, [x, y, z]) == Step(Run(w, [x, y]), z)
  {
    assert [x, y, z][..2] == [x, y] && [x, y][..1] == [x] && [x][..0] == [];
    assert Run(w, [x]) == Step(w, x);
  }

  lemma OneFilled(lo: nat, page: Page)
    ensures Filled(lo, 1, page) == map[lo := page]
  {
    assert Filled(lo, 0, page) == map[];
  }

  lemma SealOne(s: Space, lo: nat)
    requires lo in s.pages && s.seals == []
    ensures SpaceStep(s, Seal(1, lo, 1)) == s.(seals := [Range(lo, 1)]) && Sealed([Range(lo, 1)], lo)
  {
    assert AllMapped(s.pages, lo, 1);
    assert [] + [Range(lo, 1)] == [Range(lo, 1)];
    assert Add(s.seals, lo, 1) == Some([Range(lo, 1)]);
    assert In([Range(lo, 1)][0], lo);
  }

  lemma GrowOne(page: Page)
    requires page == NewPage(7, READ_WRITE, Loose)
    ensures SpaceStep(Fresh()[1], Brk(1, 11, 7, true)) == Space(map[10 := page], [], 10, 11, map[], map[])
  {
    OneFilled(10, page);
    assert map[] + map[10 := page] == map[10 := page];
  }

  lemma AttachOne(page: Page)
    requires page == Page(7, READ_WRITE, Loose, Ram)
    ensures SpaceStep(Fresh()[1], ShmAttach(1, 30, 1, 7, READ_WRITE))
         == Space(map[30 := page], [], 10, 10, map[30 := 1], map[])
  {
    OneFilled(30, page);
    assert map[] + map[30 := page] == map[30 := page];
  }

  /** Grow the heap by a page, seal it, shrink the heap: the sealed page is gone. */
  lemma BreakTakesSealed()
    ensures var x, y, z := Brk(1, 11, 7, true), Seal(1, 10, 1), Brk(1, 10, 0, true);
      Held(Run(Fresh(), [x, y]), 1, 10, 7, READ_WRITE) && !Held(Run(Fresh(), [x, y, z]), 1, 10, 7, READ_WRITE)
  {
    var x, y, z := Brk(1, 11, 7, true), Seal(1, 10, 1), Brk(1, 10, 0, true);
    var page := NewPage(7, READ_WRITE, Loose);
    var s := Space(map[10 := page], [], 10, 11, map[], map[]);
    RunThree(Fresh(), x, y, z);
    GrowOne(page);
    SealOne(s, 10);
    assert Step(Fresh(), x)[1] == s;
    StepKeepsExactly(Run(Fresh(), [x, y]), z, 1, 10, 7, READ_WRITE);
  }

  /** Attach shared memory, seal it, detach it: the sealed page is gone. */
  lemma DetachTakesSealed()
    ensures var x, y, z := ShmAttach(1, 30, 1, 7, READ_WRITE), Seal(1, 30, 1), ShmDetach(1, 30);
      Held(Run(Fresh(), [x, y]), 1, 30, 7, READ_WRITE) && !Held(Run(Fresh(), [x, y, z]), 1, 30, 7, READ_WRITE)
  {
    var x, y, z := ShmAttach(1, 30, 1, 7, READ_WRITE), Seal(1, 30, 1), ShmDetach(1, 30);
    var page := Page(7, READ_WRITE, Loose, Ram);
    var s := Space(map[30 := page], [], 10, 10, map[30 := 1], map[]);
    RunThree(Fresh(), x, y, z);
    AttachOne(page);
    SealOne(s, 30);
    assert Step(Fresh(), x)[1] == s;
    StepKeepsExactly(Run(Fresh(), [x, y]), z, 1, 30, 7, READ_WRITE);
  }

  /** Ten pages of a file, none of them read yet. */
  function TenPages(): map<nat, Page> { Filled(100, 10, NewPage(7, 1, File(100))) }

  lemma {:induction false} FilledIs(lo: nat, n: nat, page: Page, p: nat)
    requires lo <= p < lo + n
    ensures p in Filled(lo, n, page) && Filled(lo, n, page)[p] == page
  {
    var m: nat := n - 1;
    if p < lo + m {
      FilledIs(lo, m, page, p);
    }
  }

  lemma TenPagesAt(p: nat)
    ensures p in TenPages() <==> 100 <= p < 110
    ensures 100 <= p < 110 ==> TenPages()[p] == Page(7, 1, File(100), Demand)
  {
    FilledAt(100, 10, NewPage(7, 1, File(100)), p);
    if 100 <= p < 110 {
      FilledIs(100, 10, NewPage(7, 1, File(100)), p);
    }
  }

  lemma MapTen()
    ensures SpaceStep(Fresh()[1], Map(1, 100, 10, 7, 1, true, false, Nothing)) == Fresh()[1].(pages := TenPages())
  {
    assert Without(map[], 100, 10) + TenPages() == TenPages();
  }

  lemma TenPagesGrow(seals: seq<Range>)
    requires !Touches(seals, 100, 2)
    ensures var s := Fresh()[1].(pages := TenPages(), seals := seals);
      SpaceCode(s, Remap(1, 100, 2, Grow(4))) == 0 && Drops(s.pages, 100, 4, 109)
  {
    forall p: nat
      ensures p in TenPages() <==> 100 <= p < 110
      ensures 100 <= p < 110 ==> TenPages()[p] == Page(7, 1, File(100), Demand)
    {
      TenPagesAt(p);
    }
    assert RemapFits(Fresh()[1].(pages := TenPages(), seals := seals), 100, 2, Grow(4));
  }

  lemma SealedTen()
    ensures var x, y := Map(1, 100, 10, 7, 1, true, false, Nothing), Seal(1, 109, 1);
      Step(Step(Fresh(), x), y) == map[1 := Fresh()[1].(pages := TenPages(), seals := [Range(109, 1)])]
    ensures Sealed([Range(109, 1)], 109) && !Touches([Range(109, 1)], 100, 2)
  {
    var s := Fresh()[1].(pages := TenPages());
    MapTen();
    assert Step(Fresh(), Map(1, 100, 10, 7, 1, true, false, Nothing)) == map[1 := s];
    TenPagesAt(109);
    SealOne(s, 109);
  }

  /** Map ten pages of a file, seal the last, grow the first two to four: the record now ends after the fourth, and the
      sealed page is gone. */
  lemma GrowthTakesSealed()
    ensures var x, y, z := Map(1, 100, 10, 7, 1, true, false, Nothing), Seal(1, 109, 1), Remap(1, 100, 2, Grow(4));
      && Held(Run(Fresh(), [x, y]), 1, 109, 7, 1)
      && Code(Run(Fresh(), [x, y]), z) == 0
      && !Held(Run(Fresh(), [x, y, z]), 1, 109, 7, 1)
  {
    var x, y, z := Map(1, 100, 10, 7, 1, true, false, Nothing), Seal(1, 109, 1), Remap(1, 100, 2, Grow(4));
    RunThree(Fresh(), x, y, z);
    SealedTen();
    TenPagesAt(109);
    TenPagesGrow([Range(109, 1)]);
    StepKeepsExactly(Run(Fresh(), [x, y]), z, 1, 109, 7, 1);
  }
}
