/** mmap, munmap and mprotect on the region table: each is a change of the per-page map, or is refused as a whole. What
    the table holds is charged to two ledgers, address space and writable private memory, each with a limit. */
module AddressSpace {
  import opened Basics
  import opened RegionTable

  // ─── changing protection ───

  /** The asked protection on every file page of the range; anonymous regions keep the one they were mapped with. */
  function SetProt(v: View, lo: nat, hi: nat, prot: nat): View {
    map p | p in v :: if lo <= p < hi && v[p].traits.kind != 0 then v[p].(traits := v[p].traits.(prot := prot))
      else v[p]
  }

  ghost predicate Changed(v0: View, v: View, lo: nat, hi: nat, prot: nat) {
    v.Keys == v0.Keys && forall p :: p in v ==> v[p] == v0[p] || v[p] == SetProt(v0, lo, hi, prot)[p]
  }

  predicate Done(r: Region, lo: nat, hi: nat, prot: nat) {
    Overlaps(r, lo, hi) && r.traits.kind != 0 ==> lo <= r.base && End(r) <= hi && r.traits.prot == prot
  }

  function HeadOf(r: Region, at: nat): Region
    requires r.base <= at
  {
    r.(pages := at - r.base)
  }

  /** Splitting a region in two is invisible page by page. */
  lemma SplitInvisible(rs: seq<Region>, v: View, i: nat, j: nat, at: nat)
    requires Agrees(rs, v) && Disjoint(rs) && i < |rs| && j < |rs| && rs[i].active && rs[i].base < at < End(rs[i])
    requires !rs[j].active
    ensures var rs' := rs[i := HeadOf(rs[i], at)][j := TailOf(rs[i], at)]; Agrees(rs', v) && Disjoint(rs')
  {
    var r, head, tail := rs[i], HeadOf(rs[i], at), TailOf(rs[i], at);
    forall k | 0 <= k < |rs| && k != i ensures Apart(head, rs[k]) && Apart(tail, rs[k]) {
      assert rs[k].active ==> Apart(r, rs[k]);
    }
    PutRegion(rs, v, i, head);
    var rs1, v1 := rs[i := head], PutView(v, r, head);
    forall k | 0 <= k < |rs1| && k != j ensures Apart(tail, rs1[k]) {
      assert rs1[k] == if k == i then head else rs[k];
    }
    PutRegion(rs1, v1, j, tail);
    assert rs1[j] == rs[j];
    RejoinView(v, r, rs[j], at);
  }

  lemma RejoinView(v: View, r: Region, idle: Region, at: nat)
    requires r.active && r.base < at < End(r) && !idle.active
    requires forall p :: Holds(r, p) ==> p in v && v[p] == InfoOf(r, p)
    ensures PutView(PutView(v, r, HeadOf(r, at)), idle, TailOf(r, at)) == v
  {
    var x := PutView(PutView(v, r, HeadOf(r, at)), idle, TailOf(r, at));
    forall p: nat ensures (p in x <==> p in v) && (p in x ==> x[p] == v[p]) {
      assert Holds(r, p) <==> Holds(HeadOf(r, at), p) || Holds(TailOf(r, at), p);
    }
    assert x.Keys == v.Keys;
  }

  lemma ProtectWhole(rs: seq<Region>, v: View, i: nat, prot: nat)
    requires Agrees(rs, v) && Disjoint(rs) && i < |rs| && rs[i].active && rs[i].traits.kind != 0
    ensures var (r', v') := (rs[i].(traits := rs[i].traits.(prot := prot)), SetProt(v, rs[i].base, End(rs[i]), prot));
      Agrees(rs[i := r'], v') && Disjoint(rs[i := r']) && |v'| == |v|
  {
    var r := rs[i];
    var r', v' := r.(traits := r.traits.(prot := prot)), SetProt(v, r.base, End(r), prot);
    forall k | 0 <= k < |rs| && k != i ensures Apart(r', rs[k]) {
      assert rs[k].active ==> Apart(r, rs[k]);
    }
    PutRegion(rs, v, i, r');
    ProtectedView(v, r, prot);
    SameSize(v, v');
  }

  lemma SameSize(v: View, v': View)
    requires v'.Keys == v.Keys
    ensures |v'| == |v|
  {
    assert |v'.Keys| == |v'| && |v.Keys| == |v|;
  }

  lemma ProtectedView(v: View, r: Region, prot: nat)
    requires r.active && r.traits.kind != 0 && forall p :: Holds(r, p) ==> p in v && v[p] == InfoOf(r, p)
    ensures PutView(v, r, r.(traits := r.traits.(prot := prot))) == SetProt(v, r.base, End(r), prot)
  {
    var r' := r.(traits := r.traits.(prot := prot));
    var x, y := PutView(v, r, r'), SetProt(v, r.base, End(r), prot);
    forall p: nat ensures (p in x <==> p in y) && (p in x ==> x[p] == y[p]) {
      assert Holds(r', p) <==> Holds(r, p);
    }
    assert x.Keys == y.Keys;
  }

  lemma ChangedFurther(v0: View, v: View, lo: nat, hi: nat, prot: nat, a: nat, b: nat)
    requires Changed(v0, v, lo, hi, prot) && lo <= a && b <= hi
    ensures Changed(v0, SetProt(v, a, b, prot), lo, hi, prot)
  {
    var v' := SetProt(v, a, b, prot);
    forall p | p in v' ensures v'[p] == v0[p] || v'[p] == SetProt(v0, lo, hi, prot)[p] {
      assert v[p] == v0[p] || v[p] == SetProt(v0, lo, hi, prot)[p];
    }
  }

  lemma AllChanged(rs: seq<Region>, v: View, v0: View, lo: nat, hi: nat, prot: nat)
    requires Agrees(rs, v) && Changed(v0, v, lo, hi, prot) && forall k :: 0 <= k < |rs| ==> Done(rs[k], lo, hi, prot)
    ensures v == SetProt(v0, lo, hi, prot)
  {
    var want := SetProt(v0, lo, hi, prot);
    assert want.Keys == v0.Keys;
    forall p | p in v ensures v[p] == want[p] {
      assert HeldBySome(rs, p);
      var k :| 0 <= k < |rs| && Holds(rs[k], p);
      assert Done(rs[k], lo, hi, prot) && v[p] == InfoOf(rs[k], p);
    }
  }

  lemma SplitAtOk(rs: seq<Region>, v: View, i: nat, j: nat, at: nat)
    requires TableOk(rs, v) && i < |rs| && j < |rs| && rs[i].active && rs[i].base < at < End(rs[i]) && !rs[j].active
    ensures var rs' := rs[i := HeadOf(rs[i], at)][j := TailOf(rs[i], at)];
      TableOk(rs', v) && FreeCount(rs') == FreeCount(rs) - 1
  {
    SplitInvisible(rs, v, i, j, at);
    FreeCountUpdate(rs, i, HeadOf(rs[i], at));
    FreeCountUpdate(rs[i := HeadOf(rs[i], at)], j, TailOf(rs[i], at));
  }

  lemma ProtectOk(rs: seq<Region>, v: View, i: nat, prot: nat)
    requires TableOk(rs, v) && i < |rs| && rs[i].active && rs[i].traits.kind != 0
    ensures var (r', v') := (rs[i].(traits := rs[i].traits.(prot := prot)), SetProt(v, rs[i].base, End(rs[i]), prot));
      TableOk(rs[i := r'], v') && |v'| == |v| && FreeCount(rs[i := r']) == FreeCount(rs)
  {
    ProtectWhole(rs, v, i, prot);
    FreeCountUpdate(rs, i, rs[i].(traits := rs[i].traits.(prot := prot)));
  }

  /** Only slot `i` and slots that were free were written, the latter with pieces that are done. */
  ghost predicate Quiet(rs: seq<Region>, rs': seq<Region>, i: nat, lo: nat, hi: nat, prot: nat) {
    |rs| == |rs'| && forall k :: 0 <= k < |rs| && k != i ==>
      rs'[k] == rs[k] || (!rs[k].active && Done(rs'[k], lo, hi, prot))
  }

  ghost predicate DoneTo(rs: seq<Region>, i: nat, lo: nat, hi: nat, prot: nat) {
    forall k :: 0 <= k < i && k < |rs| ==> Done(rs[k], lo, hi, prot)
  }

  lemma DoneNext(rs: seq<Region>, rs': seq<Region>, i: nat, lo: nat, hi: nat, prot: nat)
    requires DoneTo(rs, i, lo, hi, prot) && i < |rs|
    requires (Quiet(rs, rs', i, lo, hi, prot) && Done(rs'[i], lo, hi, prot)) || (rs' == rs && Done(rs[i], lo, hi, prot))
    ensures DoneTo(rs', i + 1, lo, hi, prot)
  {
  }

  /** Slot `t` holds the part of slot `i`'s region inside the range; what lies outside is in slots that were free or in
      `i`. */
  ghost predicate SplitOff(rs: seq<Region>, rs': seq<Region>, i: nat, t: nat, lo: nat, hi: nat) {
    && |rs| == |rs'| && i < |rs| && t < |rs|
    && rs'[t].active && rs'[t].traits == rs[i].traits && rs'[t].base == Max(lo, rs[i].base)
    && End(rs'[t]) == Min(hi, End(rs[i]))
    && (t != i ==> !rs[t].active && !Overlaps(rs'[i], lo, hi))
    && forall k :: 0 <= k < |rs| && k != i && k != t ==> rs'[k] == rs[k] || (!rs[k].active && !Overlaps(rs'[k], lo, hi))
  }

  lemma SplitTail(rs: seq<Region>, i: nat, j: nat, lo: nat, hi: nat)
    requires i < |rs| && j < |rs| && i != j && !rs[j].active && Overlaps(rs[i], lo, hi) && hi < End(rs[i])
    requires lo <= rs[i].base
    ensures SplitOff(rs, rs[i := HeadOf(rs[i], hi)][j := TailOf(rs[i], hi)], i, i, lo, hi)
  {
  }

  lemma SplitHead(rs: seq<Region>, i: nat, j: nat, lo: nat, hi: nat)
    requires i < |rs| && j < |rs| && i != j && !rs[j].active && Overlaps(rs[i], lo, hi) && End(rs[i]) <= hi
    requires rs[i].base < lo
    ensures SplitOff(rs, rs[i := HeadOf(rs[i], lo)][j := TailOf(rs[i], lo)], i, j, lo, hi)
  {
  }

  lemma SplitBoth(rs: seq<Region>, i: nat, j: nat, t: nat, lo: nat, hi: nat)
    requires i < |rs| && j < |rs| && t < |rs| && i != j && i != t && j != t && !rs[j].active && !rs[t].active && lo < hi
    requires rs[i].active && rs[i].base < lo && hi < End(rs[i])
    ensures var rs1 := rs[i := HeadOf(rs[i], hi)][j := TailOf(rs[i], hi)];
      SplitOff(rs, rs1[i := HeadOf(rs1[i], lo)][t := TailOf(rs1[i], lo)], i, t, lo, hi)
  {
  }

  lemma ProtectQuiet(rs: seq<Region>, rs1: seq<Region>, i: nat, t: nat, lo: nat, hi: nat, prot: nat)
    requires SplitOff(rs, rs1, i, t, lo, hi)
    ensures var rs' := rs1[t := rs1[t].(traits := rs1[t].traits.(prot := prot))];
      Quiet(rs, rs', i, lo, hi, prot) && Done(rs'[i], lo, hi, prot)
  {
  }

  lemma NeedQuiet(rs: seq<Region>, rs': seq<Region>, i: nat, lo: nat, hi: nat, prot: nat)
    requires Quiet(rs, rs', i, lo, hi, prot) && i < |rs|
    ensures Need(rs'[i + 1..], lo, hi, false) == Need(rs[i + 1..], lo, hi, false)
  {
    var x, y := rs[i + 1..], rs'[i + 1..];
    forall k | 0 <= k < |x| ensures ProtectNeed(y[k], lo, hi) == ProtectNeed(x[k], lo, hi) {
      assert y[k] == rs'[i + 1 + k] && x[k] == rs[i + 1 + k];
    }
    NeedSame(x, y, lo, hi, false);
  }

  ghost predicate OneWritten(rs: seq<Region>, rs': seq<Region>, j: nat, r: Region) { j < |rs| && rs' == rs[j := r] }

  /** More regions must be split than there are free slots. */
  ghost predicate CutRefused(rs: seq<Region>, lo: nat, hi: nat) { Need(rs, lo, hi, true) > FreeCount(rs) }

  ghost predicate ProtectRefused(rs: seq<Region>, lo: nat, hi: nat) { Need(rs, lo, hi, false) > FreeCount(rs) }

  /** A shared file mapping becomes writable only if its descriptor was, and its file bears no write seal. */
  predicate Grants(r: Region, lo: nat, hi: nat, prot: nat, barred: set<nat>) {
    Overlaps(r, lo, hi) && r.traits.kind != 0 && AsksWrite(prot) && r.traits.shared ==>
      r.traits.mayWrite && r.traits.file !in barred
  }

  ghost predicate AllGrant(rs: seq<Region>, lo: nat, hi: nat, prot: nat, barred: set<nat>) {
    forall k :: 0 <= k < |rs| ==> Grants(rs[k], lo, hi, prot, barred)
  }

  ghost predicate SomeMapped(v: View, lo: nat, hi: nat) { exists p :: lo <= p < hi && p in v }

  lemma CutNothing(v: View, lo: nat, hi: nat)
    ensures Cut(v, lo, hi) == v <==> !SomeMapped(v, lo, hi)
  {
    if p :| lo <= p < hi && p in v {
      assert p !in Cut(v, lo, hi);
    }
  }

  // ─── limits ───

  const PAGE_BYTES: nat := 4096

  /** Soft limits in bytes; None is no limit. */
  datatype Limits = Limits(space: Option<nat>, data: Option<nat>)

  predicate ChargeOk(used: nat, add: nat, limit: Option<nat>) {
    limit.None? || (used + add) * PAGE_BYTES <= limit.value
  }

  /** What is left of a charge after a refund, which stops at nothing. */
  function Refunded(used: nat, back: nat): nat { if back <= used then used - back else 0 }

  // ─── the table in place ───

  /** Region `i` has lost its overlap with the range, and nothing else changed that the cut of the rest depends on. */
  ghost predicate CutDone(rs: seq<Region>, rs': seq<Region>, v: View, i: nat, lo: nat, hi: nat) {
    && i < |rs| && TableOk(rs', Cut(v, Max(lo, rs[i].base), Min(hi, End(rs[i])))) && Enough(rs', lo, hi)
    && Pieces(rs', lo, hi) == Pieces(rs, lo, hi) && Cleared(rs, rs', i, lo, hi)
    && DataIn(rs', lo, hi) == DataIn(rs, lo, hi) - DataOf(rs[i], lo, hi)
  }

  ghost predicate ClearTo(rs: seq<Region>, i: nat, lo: nat, hi: nat) {
    forall k :: 0 <= k < i && k < |rs| ==> !Overlaps(rs[k], lo, hi)
  }

  lemma ClearNext(rs: seq<Region>, rs': seq<Region>, i: nat, lo: nat, hi: nat)
    requires ClearTo(rs, i, lo, hi) && i < |rs|
    requires Cleared(rs, rs', i, lo, hi) || (rs' == rs && !Overlaps(rs[i], lo, hi))
    ensures ClearTo(rs', i + 1, lo, hi)
  {
  }

  lemma CutSizeAt(rs: seq<Region>, v: View, i: nat, lo: nat, hi: nat)
    requires TableOk(rs, v) && i < |rs| && lo < hi && Overlaps(rs[i], lo, hi)
    ensures var (a, b) := (Max(lo, rs[i].base), Min(hi, End(rs[i]))); a <= b && |Cut(v, a, b)| == |v| - (b - a)
  {
    CutSize(v, lo, hi, rs[i]);
  }

  class Space {
    const regions: array<Region>
    var asUsed: nat
    var dataUsed: nat
    ghost var view: View
    /** What is charged beyond the pages the table holds: the heap, and what calls below leave behind. */
    ghost var over: nat

    ghost predicate Valid()
      reads this, regions
    {
      TableOk(regions[..], view) && asUsed == |view| + over
    }

    constructor ()
      ensures Valid() && view == map[] && asUsed == dataUsed == over == 0 && fresh(regions)
    {
      regions := new Region[MAX_REGIONS](_ => Region(false, 0, 0, Traits(0, 0, 0, false, true, false), 0));
      asUsed, dataUsed := 0, 0;
      view, over := map[], 0;
    }

    method FreeSlots() returns (n: nat)
      requires Valid()
      ensures n == FreeCount(regions[..])
    {
      n := 0;
      var i := regions.Length;
      while i > 0
        invariant 0 <= i <= regions.Length && n == FreeCount(regions[..][i..])
      {
        i := i - 1;
        assert regions[..][i..][1..] == regions[..][i + 1..];
        n := n + if regions[i].active then 0 else 1;
      }
      assert regions[..][0..] == regions[..];
    }

    method SlotsNeeded(lo: nat, hi: nat, cut: bool) returns (n: nat)
      requires Valid()
      ensures n == Need(regions[..], lo, hi, cut)
    {
      n := 0;
      var i := regions.Length;
      while i > 0
        invariant 0 <= i <= regions.Length && n == Need(regions[..][i..], lo, hi, cut)
      {
        i := i - 1;
        NeedFrom(regions[..], i, lo, hi, cut);
        n := n + if cut then SplitNeed(regions[i], lo, hi) else ProtectNeed(regions[i], lo, hi);
      }
      assert regions[..][0..] == regions[..];
    }

    method FindSlot() returns (j: nat)
      requires Valid() && FreeCount(regions[..]) > 0
      ensures j < regions.Length && !regions[j].active && forall k :: 0 <= k < j ==> regions[k].active
    {
      j := 0;
      FreeCountZero(regions[..]);
      ghost var w :| 0 <= w < regions.Length && !regions[..][w].active;
      while regions[j].active
        invariant j <= w && forall k :: 0 <= k < j ==> regions[k].active
        decreases w - j
      {
        j := j + 1;
      }
    }

    /** The capacity test before any page is mapped. */
    method CanTrack(base: nat, n: nat, t: Traits) returns (ok: bool)
      requires Valid()
      ensures ok <==> Fits(regions[..], base, n, t)
    {
      var free := FreeSlots();
      if free > 0 || t.kind != 0 {
        return free > 0;
      }
      var i := 0;
      while i < regions.Length
        invariant i <= regions.Length && forall k :: 0 <= k < i ==> MergeSide(regions[..][k], base, n, t) == Neither
      {
        if MergeSide(regions[i], base, n, t) != Neither {
          assert regions[..][i] == regions[i];
          return true;
        }
        i := i + 1;
      }
      ok := false;
    }

    /** Record a range that passed the capacity test: it is merged into a neighbour or gets a slot of its own, and the
        table never runs out here. */
    method Track(base: nat, n: nat, t: Traits, off: nat)
      requires Valid() && n > 0 && RangeFree(regions[..], base, n) && Canonical(t)
      requires (t.kind == 0 ==> !t.noFree && off == 0)
      requires Fits(regions[..], base, n, t)
      modifies this`view, this`asUsed, this`dataUsed, regions
      ensures Valid() && view == old(view) + ViewOf(Region(true, base, n, t, off))
      ensures dataUsed == old(dataUsed) + if Private(t) then n else 0
      ensures t.kind != 0 ==> exists j: nat ::
        OneWritten(old(regions[..]), regions[..], j, Region(true, base, n, t, off))
    {
      ghost var rs := regions[..];
      ghost var added := Region(true, base, n, t, off);
      dataUsed := dataUsed + if Private(t) then n else 0;
      if t.kind == 0 {
        var i := 0;
        while i < regions.Length
          invariant i <= regions.Length && regions[..] == rs && asUsed == old(asUsed) && view == old(view)
          invariant dataUsed == old(dataUsed) + if Private(t) then n else 0
          invariant forall k :: 0 <= k < i ==> MergeSide(rs[k], base, n, t) == Neither
        {
          if MergeSide(regions[i], base, n, t) != Neither {
            MergeInto(rs, view, i, base, n, t);
            regions[i] := Merged(regions[i], base, n, t);
            view := view + ViewOf(added);
            asUsed := asUsed + n;
            assert regions[..] == rs[i := Merged(rs[i], base, n, t)];
            return;
          }
          i := i + 1;
        }
      }
      var j := FindSlot();
      InsertAt(rs, view, j, added);
      regions[j] := Region(true, base, n, t, off);
      view := view + ViewOf(added);
      asUsed := asUsed + n;
      assert OneWritten(rs, regions[..], j, added);
    }

    /** Cut one overlapping region; its tail goes to a free slot when the cut is in its middle. */
    method CutRegion(i: nat, lo: nat, hi: nat)
      requires Valid() && i < regions.Length && lo < hi && Overlaps(regions[i], lo, hi) && Enough(regions[..], lo, hi)
      modifies this`view, this`asUsed, this`dataUsed, regions
      ensures Valid() && Enough(regions[..], lo, hi) && Pieces(regions[..], lo, hi) == old(Pieces(regions[..], lo, hi))
      ensures view == Cut(old(view), Max(lo, old(regions[i].base)), Min(hi, End(old(regions[i]))))
      ensures Cleared(old(regions[..]), regions[..], i, lo, hi)
      ensures Refunded(dataUsed, DataIn(regions[..], lo, hi)) == old(Refunded(dataUsed, DataIn(regions[..], lo, hi)))
    {
      var r := regions[i];
      ghost var rs, v := regions[..], view;
      assert rs[i] == r;
      DataAtLeast(rs, i, lo, hi);
      CutSizeAt(rs, v, i, lo, hi);
      var from, to := Max(lo, r.base), Min(hi, End(r));
      if SplitNeed(r, lo, hi) > 0 {
        SplitMiddle(i, lo, hi);
      } else {
        TrimEnd(i, lo, hi);
      }
      assert CutDone(rs, regions[..], v, i, lo, hi);
      view := Cut(view, from, to);
      asUsed := asUsed - (to - from);
      dataUsed := Refunded(dataUsed, if Private(r.traits) then to - from else 0);
    }

    method TrimEnd(i: nat, lo: nat, hi: nat)
      requires Valid() && i < regions.Length && lo < hi && Overlaps(regions[i], lo, hi)
      requires SplitNeed(regions[i], lo, hi) == 0
      requires Enough(regions[..], lo, hi)
      modifies regions
      ensures CutDone(old(regions[..]), regions[..], view, i, lo, hi)
    {
      ghost var rs := regions[..];
      var r := regions[i];
      assert rs[i] == r;
      TrimOk(rs, view, i, lo, hi);
      DataUpdate(rs, i, Trim(r, lo, hi), lo, hi);
      regions[i] := Trim(r, lo, hi);
      assert regions[..] == rs[i := Trim(r, lo, hi)];
    }

    method SplitMiddle(i: nat, lo: nat, hi: nat)
      requires Valid() && i < regions.Length && lo < hi && SplitNeed(regions[i], lo, hi) > 0
      requires Enough(regions[..], lo, hi)
      modifies regions
      ensures CutDone(old(regions[..]), regions[..], view, i, lo, hi)
    {
      ghost var rs := regions[..];
      var r := regions[i];
      assert rs[i] == r;
      var j := FindSlot();
      SplitOk(rs, view, i, j, lo, hi);
      CutData(rs, i, j, lo, hi);
      regions[i] := Trim(r, lo, hi);
      regions[j] := TailOf(r, hi);
      assert regions[..] == rs[i := Trim(r, lo, hi)][j := TailOf(r, hi)];
    }

    /** Forget a range. */
    method Untrack(lo: nat, hi: nat)
      requires Valid() && lo < hi && Enough(regions[..], lo, hi)
      modifies this`view, this`asUsed, this`dataUsed, regions
      ensures Valid() && view == Cut(old(view), lo, hi)
      ensures RangeFree(regions[..], lo, hi - lo) &&
        FreeCount(regions[..]) == MAX_REGIONS - old(Pieces(regions[..], lo, hi))
      ensures dataUsed == Refunded(old(dataUsed), old(DataIn(regions[..], lo, hi)))
    {
      ghost var v0 := view;
      TrimAll(lo, hi);
      DataNone(regions[..], lo, hi);
      AllTrimmed(regions[..], view, v0, lo, hi);
      PiecesAreRegions(regions[..], lo, hi);
    }

    /** Cut every region that overlaps the range. */
    method TrimAll(lo: nat, hi: nat)
      requires Valid() && lo < hi && Enough(regions[..], lo, hi)
      modifies this`view, this`asUsed, this`dataUsed, regions
      ensures Valid() && Trimmed(old(view), view, lo, hi) &&
        Pieces(regions[..], lo, hi) == old(Pieces(regions[..], lo, hi))
      ensures forall k :: 0 <= k < regions.Length ==> !Overlaps(regions[..][k], lo, hi)
      ensures Refunded(dataUsed, DataIn(regions[..], lo, hi)) == old(Refunded(dataUsed, DataIn(regions[..], lo, hi)))
    {
      var i := 0;
      ghost var v0, pieces := view, Pieces(regions[..], lo, hi);
      while i < regions.Length
        invariant i <= regions.Length && Valid() && Trimmed(v0, view, lo, hi) && Enough(regions[..], lo, hi)
        invariant Pieces(regions[..], lo, hi) == pieces && ClearTo(regions[..], i, lo, hi)
        invariant Refunded(dataUsed, DataIn(regions[..], lo, hi)) ==
          old(Refunded(dataUsed, DataIn(regions[..], lo, hi)))
      {
        ghost var rs := regions[..];
        if Overlaps(regions[i], lo, hi) {
          TrimmedFurther(v0, view, lo, hi, Max(lo, regions[i].base), Min(hi, End(regions[i])));
          CutRegion(i, lo, hi);
        }
        ClearNext(rs, regions[..], i, lo, hi);
        i := i + 1;
      }
    }

    /** munmap of a page range: refused, with nothing changed, when it meets an attachment or a seal, or when a region
        must be split and the table is full; otherwise exactly the pages of the range leave the map. */
    method Munmap(lo: nat, hi: nat, attached: bool, sealed: bool) returns (r: int)
      requires Valid() && lo < hi
      modifies this`view, this`asUsed, this`dataUsed, regions
      ensures Valid()
      ensures r ==
        if attached then -22 else if sealed then -1 else if old(CutRefused(regions[..], lo, hi)) then -12 else 0
      ensures view == if r == 0 then Cut(old(view), lo, hi) else old(view)
    {
      if attached {
        return -22;
      }
      if sealed {
        return -1;
      }
      var needed := SlotsNeeded(lo, hi, true);
      var free := FreeSlots();
      if needed > free {
        return -12;
      }
      if free == 0 {
        NeedZero(regions[..], lo, hi);
      }
      Untrack(lo, hi);
      r := 0;
    }

    /** Split a region in two at a page inside it. */
    method SplitAt(i: nat, at: nat) returns (j: nat)
      requires Valid() && i < regions.Length && regions[i].active && regions[i].base < at < End(regions[i])
      requires FreeCount(regions[..]) > 0
      modifies regions
      ensures Valid() && j < regions.Length && j != i && !old(regions[j]).active
      ensures regions[..] == old(regions[..])[i := HeadOf(old(regions[i]), at)][j := TailOf(old(regions[i]), at)]
      ensures FreeCount(regions[..]) == old(FreeCount(regions[..])) - 1
    {
      var r := regions[i];
      j := FindSlot();
      SplitAtOk(regions[..], view, i, j, at);
      regions[i] := HeadOf(r, at);
      regions[j] := TailOf(r, at);
      assert regions[..] == old(regions[..])[i := HeadOf(r, at)][j := TailOf(r, at)];
    }

    /** Change the protection of the part of a file region that lies in the range, splitting off what lies outside. */
    method ProtectRegion(i: nat, lo: nat, hi: nat, prot: nat, ghost v0: View)
      requires Valid() && i < regions.Length && lo < hi && Overlaps(regions[i], lo, hi) && regions[i].traits.kind != 0
      requires FreeCount(regions[..]) >= ProtectNeed(regions[i], lo, hi) && Changed(v0, view, lo, hi, prot)
      modifies this`view, regions
      ensures Valid() && Changed(v0, view, lo, hi, prot)
      ensures Quiet(old(regions[..]), regions[..], i, lo, hi, prot) && Done(regions[i], lo, hi, prot)
      ensures FreeCount(regions[..]) == old(FreeCount(regions[..])) - ProtectNeed(old(regions[i]), lo, hi)
      ensures Need(regions[..][i + 1..], lo, hi, false) == old(Need(regions[..][i + 1..], lo, hi, false))
    {
      var t := SplitEnds(i, lo, hi);
      ghost var rs := regions[..];
      ProtectOk(rs, view, t, prot);
      ProtectQuiet(old(regions[..]), rs, i, t, lo, hi, prot);
      ChangedFurther(v0, view, lo, hi, prot, regions[t].base, End(regions[t]));
      view := SetProt(view, regions[t].base, End(regions[t]), prot);
      regions[t] := regions[t].(traits := regions[t].traits.(prot := prot));
      assert regions[..] == rs[t := rs[t].(traits := rs[t].traits.(prot := prot))];
      NeedQuiet(old(regions[..]), regions[..], i, lo, hi, prot);
    }

    /** Make the part of a region that lies in the range a region of its own. */
    method SplitEnds(i: nat, lo: nat, hi: nat) returns (t: nat)
      requires Valid() && i < regions.Length && lo < hi && Overlaps(regions[i], lo, hi) && regions[i].traits.kind != 0
      requires FreeCount(regions[..]) >= ProtectNeed(regions[i], lo, hi)
      modifies regions
      ensures Valid() && SplitOff(old(regions[..]), regions[..], i, t, lo, hi)
      ensures FreeCount(regions[..]) == old(FreeCount(regions[..])) - ProtectNeed(old(regions[i]), lo, hi)
    {
      var r := regions[i];
      ghost var rs := regions[..];
      assert rs[i] == r;
      if hi < End(r) {
        var j := SplitAt(i, hi);
        if r.base < lo {
          t := SplitAt(i, lo);
          SplitBoth(rs, i, j, t, lo, hi);
        } else {
          t := i;
          SplitTail(rs, i, j, lo, hi);
        }
      } else if r.base < lo {
        t := SplitAt(i, lo);
        SplitHead(rs, i, t, lo, hi);
      } else {
        t := i;
      }
    }

    method GrantsAll(lo: nat, hi: nat, prot: nat, barred: set<nat>) returns (ok: bool)
      requires Valid()
      ensures ok <==> AllGrant(regions[..], lo, hi, prot, barred)
    {
      var i := 0;
      while i < regions.Length
        invariant i <= regions.Length && forall k :: 0 <= k < i ==> Grants(regions[k], lo, hi, prot, barred)
      {
        if !Grants(regions[i], lo, hi, prot, barred) {
          assert !Grants(regions[..][i], lo, hi, prot, barred);
          return false;
        }
        i := i + 1;
      }
      ok := true;
    }

    /** mprotect of a page range. It is refused, with nothing changed, by a seal, by an attachment, by a file that may
        not be written, when the ends to be split off do not fit, or when frames to commit with are short. Otherwise the
        file pages of the range, and no others, carry the new protection, and a hole in the range is reported only then.
        */
    method Mprotect(lo: nat, hi: nat, prot: nat, sealed: bool, attached: bool, barred: set<nat>,
                    ready: bool, covered: bool)
      returns (r: int)
      requires Valid() && lo < hi
      modifies this`view, regions
      ensures Valid()
      ensures r == if sealed then -1 else if attached then -22
                   else if !old(AllGrant(regions[..], lo, hi, prot, barred)) then -13
                   else if old(ProtectRefused(regions[..], lo, hi)) || !ready || !covered then -12 else 0
      ensures view ==
        if sealed || attached || !old(AllGrant(regions[..], lo, hi, prot, barred)) ||
          old(ProtectRefused(regions[..], lo, hi)) || !ready
        then old(view) else SetProt(old(view), lo, hi, prot)
    {
      if sealed {
        return -1;
      }
      if attached {
        return -22;
      }
      var grants := GrantsAll(lo, hi, prot, barred);
      if !grants {
        return -13;
      }
      var needed := SlotsNeeded(lo, hi, false);
      var free := FreeSlots();
      if needed > free || !ready {
        return -12;
      }
      ProtectPass(lo, hi, prot);
      r := if covered then 0 else -12;
    }

    /** The pass over the table. */
    method ProtectPass(lo: nat, hi: nat, prot: nat)
      requires Valid() && lo < hi && !ProtectRefused(regions[..], lo, hi)
      modifies this`view, regions
      ensures Valid() && view == SetProt(old(view), lo, hi, prot)
    {
      var i := 0;
      assert regions[..][0..] == regions[..];
      assert Changed(view, view, lo, hi, prot);
      while i < regions.Length
        invariant i <= regions.Length && Valid() && Changed(old(view), view, lo, hi, prot)
        invariant DoneTo(regions[..], i, lo, hi, prot)
        invariant FreeCount(regions[..]) >= Need(regions[..][i..], lo, hi, false)
      {
        ghost var rs := regions[..];
        NeedFrom(rs, i, lo, hi, false);
        if Overlaps(regions[i], lo, hi) && regions[i].traits.kind != 0 {
          ProtectRegion(i, lo, hi, prot, old(view));
        }
        DoneNext(rs, regions[..], i, lo, hi, prot);
        i := i + 1;
      }
      AllChanged(regions[..], view, old(view), lo, hi, prot);
    }

    /** MAP_FIXED. It is refused, with nothing changed, by an attachment, by a seal, by a page that no region tracks
        (`stray`), by a device region, or unless the cut fits and a slot is left for the new region. Anonymous memory
        over exactly one private anonymous region is swapped in place, or refused with nothing changed. In every other
        case what the range held goes first; only then are the limits and the frames (`ready`) asked for, and a refusal
        leaves the range empty. */
    method MapFixed(made: Region, hi: nat, attached: bool, sealed: bool, stray: bool, lim: Limits, ready: bool)
      returns (r: int)
      requires Valid() && Mappable(made) && hi == End(made)
      modifies this`view, this`asUsed, this`dataUsed, regions
      ensures Valid()
      ensures r == if attached then -22 else if sealed then -1
                   else if old(InPlace(regions[..], made))
                   then (if old(Swaps(regions[..], made, asUsed, dataUsed, lim, ready)) then 0 else -12)
                   else if stray || old(!Replaceable(regions[..], made.base, hi)) || old(!Affords(made, hi, lim, ready))
                   then -12 else 0
      ensures view ==
        if r == 0 then Cut(old(view), made.base, hi) + ViewOf(made)
        else if !attached && !sealed && !stray && old(Displaces(regions[..], made, hi))
        then Cut(old(view), made.base, hi)
        else old(view)
      ensures (r != 0 && view != old(view)) <==>
        && !attached && !sealed && !stray && old(Displaces(regions[..], made, hi))
        && old(!Affords(made, hi, lim, ready)) && old(SomeMapped(view, made.base, hi))
    {
      CutNothing(view, made.base, hi);
      if attached {
        return -22;
      }
      if sealed {
        return -1;
      }
      var i := FindExact(made.base, made.pages);
      if made.traits.kind == 0 && i < regions.Length {
        r := SwapInPlace(i, hi, made, lim, ready);
        return;
      }
      var ok := FixedReplaceable(made.base, hi, stray, attached);
      if !ok {
        return -12;
      }
      r := Replace(made, hi, lim, ready);
    }

    /** The limits and the frames for a new mapping of the range, once what was there is gone. */
    ghost predicate Affords(made: Region, hi: nat, lim: Limits, ready: bool)
      reads this, regions
    {
      && ready && ChargeOk(|Cut(view, made.base, hi)| + over, made.pages, lim.space)
      && (Private(made.traits) ==>
            ChargeOk(Refunded(dataUsed, DataIn(regions[..], made.base, hi)), made.pages, lim.data))
    }

    method FindExact(base: nat, n: nat) returns (i: nat)
      requires Valid()
      ensures i <= regions.Length && (i < regions.Length ==> Exact(regions[i], base, n))
      ensures i == regions.Length ==> forall k :: 0 <= k < regions.Length ==> !Exact(regions[..][k], base, n)
    {
      i := 0;
      while i < regions.Length
        invariant i <= regions.Length && forall k :: 0 <= k < i ==> !Exact(regions[..][k], base, n)
      {
        if Exact(regions[i], base, n) {
          return;
        }
        i := i + 1;
      }
    }

    /** New pages for one private anonymous region, all or nothing. */
    method SwapInPlace(i: nat, hi: nat, made: Region, lim: Limits, ready: bool) returns (r: int)
      requires Valid() && i < regions.Length && Exact(regions[i], made.base, made.pages) && hi == End(made)
      requires Mappable(made) && made.traits.kind == 0
      modifies this`view, regions
      ensures Valid()
      ensures InPlace(old(regions[..]), made)
      ensures r == if old(Swaps(regions[..], made, asUsed, dataUsed, lim, ready)) then 0 else -12
      ensures view == if r == 0 then Cut(old(view), made.base, hi) + ViewOf(made) else old(view)
    {
      ghost var rs := regions[..];
      var x := regions[i];
      OnlyExact(rs, i, made, asUsed, dataUsed, lim, ready);
      if !SwapAllowed(x, made, asUsed, dataUsed, lim, ready) {
        return -12;
      }
      var y := x.(traits := made.traits);
      SwapOk(rs, view, i, y, made, hi);
      view := Cut(view, made.base, hi) + ViewOf(made);
      regions[i] := y;
      assert regions[..] == rs[i := y];
      r := 0;
    }

    method FixedReplaceable(lo: nat, hi: nat, stray: bool, attached: bool) returns (ok: bool)
      requires Valid() && lo < hi
      ensures ok <==> Replaceable(regions[..], lo, hi) && !stray && !attached
    {
      ghost var rs := regions[..];
      var i := 0;
      while i < regions.Length
        invariant i <= regions.Length && forall k :: 0 <= k < i && Overlaps(rs[k], lo, hi) ==> !rs[k].traits.noFree
      {
        if Overlaps(regions[i], lo, hi) && regions[i].traits.noFree {
          assert rs[i] == regions[i];
          return false;
        }
        i := i + 1;
      }
      var needed := SlotsNeeded(lo, hi, true);
      var free := FreeSlots();
      var pieces := CountPieces(lo, hi);
      ok := needed <= free && !stray && !attached && pieces + 1 <= MAX_REGIONS;
    }

    /** What the range held goes; then the new mapping comes, if it can be paid for. */
    method Replace(made: Region, hi: nat, lim: Limits, ready: bool) returns (r: int)
      requires Valid() && Mappable(made) && hi == End(made) && Replaceable(regions[..], made.base, hi)
      modifies this`view, this`asUsed, this`dataUsed, regions
      ensures Valid() && r == if old(Affords(made, hi, lim, ready)) then 0 else -12
      ensures view == if r == 0 then Cut(old(view), made.base, hi) + ViewOf(made) else Cut(old(view), made.base, hi)
    {
      if FreeCount(regions[..]) == 0 {
        NeedZero(regions[..], made.base, hi);
      }
      Untrack(made.base, hi);
      var private := Private(made.traits);
      if !ready || !ChargeOk(asUsed, made.pages, lim.space) || (private && !ChargeOk(dataUsed, made.pages, lim.data)) {
        return -12;
      }
      Track(made.base, made.pages, made.traits, made.offset);
      r := 0;
    }

    method CountPieces(lo: nat, hi: nat) returns (n: nat)
      requires Valid()
      ensures n == Pieces(regions[..], lo, hi)
    {
      n := 0;
      var i := regions.Length;
      while i > 0
        invariant 0 <= i <= regions.Length && n == Pieces(regions[..][i..], lo, hi)
      {
        i := i - 1;
        assert regions[..][i..][1..] == regions[..][i + 1..];
        n := n + PiecesLeft(regions[i], lo, hi);
      }
      assert regions[..][0..] == regions[..];
    }
  }

  /** No device region in the way, room for the cut, and a slot left for the new region. */
  ghost predicate Replaceable(rs: seq<Region>, lo: nat, hi: nat) {
    && Need(rs, lo, hi, true) <= FreeCount(rs) && Pieces(rs, lo, hi) + 1 <= MAX_REGIONS
    && forall i :: 0 <= i < |rs| && Overlaps(rs[i], lo, hi) ==> !rs[i].traits.noFree
  }

  // ─── one anonymous region over another ───

  const MAX_SWAP: nat := 128

  predicate Exact(r: Region, base: nat, n: nat) {
    r.active && r.base == base && r.pages == n && r.traits.kind == 0 && !r.traits.shared && !r.traits.noFree
  }

  /** What mmap can be asked for. */
  predicate Mappable(made: Region) {
    && made.active && made.pages > 0 && Canonical(made.traits)
    && (made.traits.kind == 0 ==> !made.traits.noFree && made.offset == 0)
  }

  /** Anonymous memory that lands on exactly one private anonymous region. */
  ghost predicate InPlace(rs: seq<Region>, made: Region) {
    made.traits.kind == 0 && exists i :: 0 <= i < |rs| && Exact(rs[i], made.base, made.pages)
  }

  /** The mapping takes the place of what is there, which goes first. */
  ghost predicate Displaces(rs: seq<Region>, made: Region, hi: nat) {
    !InPlace(rs, made) && Replaceable(rs, made.base, hi)
  }

  predicate ReadWrite(prot: nat) { prot % 4 == 3 }

  predicate SwapAllowed(r: Region, made: Region, asUsed: nat, dataUsed: nat, lim: Limits, ready: bool) {
    && made.pages <= MAX_SWAP && ReadWrite(r.traits.prot) && ReadWrite(made.traits.prot) && !made.traits.shared && ready
    && ChargeOk(asUsed, 0, lim.space) && made.pages <= dataUsed && ChargeOk(dataUsed, 0, lim.data)
  }

  ghost predicate Swaps(rs: seq<Region>, made: Region, asUsed: nat, dataUsed: nat, lim: Limits, ready: bool) {
    exists i :: 0 <= i < |rs| && Exact(rs[i], made.base, made.pages) &&
      SwapAllowed(rs[i], made, asUsed, dataUsed, lim, ready)
  }

  lemma OnlyExact(
    rs: seq<Region>, i: nat, made: Region, asUsed: nat, dataUsed: nat, lim: Limits, ready: bool)
    requires Disjoint(rs) && i < |rs| && Exact(rs[i], made.base, made.pages)
    requires made.pages > 0 && made.traits.kind == 0
    ensures InPlace(rs, made)
    ensures Swaps(rs, made, asUsed, dataUsed, lim, ready) <==> SwapAllowed(rs[i], made, asUsed, dataUsed, lim, ready)
  {
    forall k | 0 <= k < |rs| && Exact(rs[k], made.base, made.pages) ensures k == i {
    }
  }

  /** `made` covers the pages of `r` with anonymous memory of the traits `r'` has. */
  predicate SamePages(r: Region, r': Region, made: Region) {
    && r.active && r'.active && made.active && r.base == r'.base == made.base && r.pages == r'.pages == made.pages
    && r'.traits == made.traits && made.traits.kind == 0
  }

  lemma SwapAt(v: View, r: Region, r': Region, made: Region, hi: nat, p: nat)
    requires SamePages(r, r', made) && hi == End(r) && (Holds(r, p) ==> p in v)
    ensures var v', w := Cut(v, r.base, hi) + ViewOf(made), PutView(v, r, r');
      (p in v' <==> p in w) && (p in v' ==> v'[p] == w[p]) && (p in v' <==> p in v)
  {
    assert Holds(r', p) <==> Holds(r, p);
    assert Holds(made, p) <==> Holds(r, p);
    assert p in PagesOf(made) <==> Holds(made, p);
    assert p in PagesOf(r') <==> Holds(r', p);
  }

  lemma SwapView(v: View, r: Region, r': Region, made: Region, hi: nat)
    requires SamePages(r, r', made) && hi == End(r) && forall p :: Holds(r, p) ==> p in v
    ensures var v' := Cut(v, r.base, hi) + ViewOf(made); v' == PutView(v, r, r') && |v'| == |v|
  {
    var v', w := Cut(v, r.base, hi) + ViewOf(made), PutView(v, r, r');
    forall p: nat ensures (p in v' <==> p in w) && (p in v' ==> v'[p] == w[p]) && (p in v' <==> p in v) {
      SwapAt(v, r, r', made, hi, p);
    }
    assert v'.Keys == w.Keys;
    assert v'.Keys == v.Keys;
    SameSize(v, v');
  }

  lemma SwapOk(rs: seq<Region>, v: View, i: nat, r': Region, made: Region, hi: nat)
    requires TableOk(rs, v) && i < |rs| && SamePages(rs[i], r', made) && hi == End(rs[i]) && Canonical(r'.traits)
    ensures var v' := Cut(v, rs[i].base, hi) + ViewOf(made); TableOk(rs[i := r'], v') && |v'| == |v|
  {
    var r := rs[i];
    forall k | 0 <= k < |rs| && k != i ensures Apart(r', rs[k]) {
      assert rs[k].active ==> Apart(r, rs[k]);
    }
    PutRegion(rs, v, i, r');
    SwapView(v, r, r', made, hi);
  }

  // ─── runs ───

  lemma ActiveCounts(rs: seq<Region>, v: View, k: nat)
    requires TableOk(rs, v) && k < |rs|
    ensures rs[k].active ==> |v| > 0
  {
    if rs[k].active {
      assert Holds(rs[k], rs[k].base);
      assert rs[k].base in v;
    }
  }

  lemma NoneActive(rs: seq<Region>, v: View)
    requires TableOk(rs, v) && |v| == 0
    ensures forall k :: 0 <= k < |rs| ==> !rs[k].active
  {
    forall k: nat | k < |rs| ensures !rs[k].active {
      ActiveCounts(rs, v, k);
    }
  }

  /** A new address space in which ten pages of a file are mapped. */
  method MapTen(t: Traits) returns (sp: Space, ghost j: nat)
    requires t.kind != 0
    ensures fresh(sp) && fresh(sp.regions) && sp.Valid() && sp.over == 0
    ensures |sp.view| == 10 && (forall p :: p in sp.view ==> 100 <= p < 110)
    ensures sp.dataUsed == if Private(t) then 10 else 0
    ensures j < sp.regions.Length && sp.regions[j] == Region(true, 100, 10, t, 0)
    ensures forall k :: 0 <= k < sp.regions.Length && k != j ==> !sp.regions[k].active
  {
    sp := new Space();
    ghost var rs, x := sp.regions[..], Region(true, 100, 10, t, 0);
    NoneActive(rs, sp.view);
    FreeCountZero(rs);
    assert !rs[0].active;
    ghost var start := sp.asUsed;
    sp.Track(100, 10, t, 0);
    PageCount(x);
    assert sp.view == ViewOf(x) && sp.view.Keys == PagesOf(x);
    assert |sp.view| == |sp.view.Keys|;
    j :| OneWritten(rs, sp.regions[..], j, x);
    assert forall k :: 0 <= k < |rs| && k != j ==> sp.regions[..][k] == rs[k];
  }

  lemma {:induction false} NothingToSplit(rs: seq<Region>, lo: nat, hi: nat)
    requires forall k :: 0 <= k < |rs| ==> SplitNeed(rs[k], lo, hi) == 0 && PiecesLeft(rs[k], lo, hi) == 0
    ensures Need(rs, lo, hi, true) == 0 && Pieces(rs, lo, hi) == 0
  {
    if rs != [] {
      assert forall k :: 0 <= k < |rs| - 1 ==> rs[1..][k] == rs[k + 1];
      NothingToSplit(rs[1..], lo, hi);
    }
  }

  /** Ten pages of a file, and a limit of fifteen; twenty pages are mapped over them. The call is refused, and the ten
      pages are gone. */
  method RefusedMapDropsOld() returns (r: int, ghost before: nat, ghost after: nat)
    ensures r == -12 && before == 10 && after == 0
  {
    var t := Traits(1, 7, 1, true, true, false);
    ghost var j: nat;
    var sp: Space;
    sp, j := MapTen(t);
    before := |sp.view|;
    NothingToSplit(sp.regions[..], 100, 120);
    assert Replaceable(sp.regions[..], 100, 120);
    assert Cut(sp.view, 100, 120) == map[];
    r := sp.MapFixed(Region(true, 100, 20, t, 0), 120, false, false, false, Limits(Some(15 * PAGE_BYTES), None), true);
    after := |sp.view|;
  }
}
