/** The bounded table of tracked mappings of one address space, next to the per-page map it stands for. */
module RegionTable {
  import opened Basics

  const MAX_REGIONS: nat := 64

  /** `kind` 0 is anonymous memory. */
  datatype Traits = Traits(kind: nat, file: nat, prot: nat, shared: bool, mayWrite: bool, noFree: bool)
  datatype Region = Region(active: bool, base: nat, pages: nat, traits: Traits, offset: nat)

  /** What the table says about one page: the mapping's traits and, for a file mapping, the page of the file. */
  datatype PageInfo = PageInfo(traits: Traits, filePage: int)
  type View = map<nat, PageInfo>

  predicate Holds(r: Region, p: nat) { r.active && r.base <= p < r.base + r.pages }

  function InfoOf(r: Region, p: nat): PageInfo {
    PageInfo(r.traits, if r.traits.kind == 0 then 0 else r.offset + p - r.base)
  }

  function End(r: Region): nat { r.base + r.pages }

  predicate Overlaps(r: Region, lo: nat, hi: nat) { r.active && r.base < hi && lo < End(r) }

  ghost predicate Disjoint(rs: seq<Region>) {
    && (forall i :: 0 <= i < |rs| && rs[i].active ==> rs[i].pages > 0)
    && (forall i, j :: 0 <= i < j < |rs| && rs[i].active && rs[j].active ==>
      End(rs[i]) <= rs[j].base || End(rs[j]) <= rs[i].base)
  }

  /** The table and the map agree page by page. */
  ghost predicate Agrees(rs: seq<Region>, v: View) {
    && (forall i, p :: 0 <= i < |rs| && Holds(rs[i], p) ==> p in v && v[p] == InfoOf(rs[i], p))
    && (forall p :: p in v ==> HeldBySome(rs, p))
  }

  ghost predicate HeldBySome(rs: seq<Region>, p: nat) { exists i :: 0 <= i < |rs| && Holds(rs[i], p) }

  /** Anonymous regions carry no file and no descriptor. */
  predicate Canonical(t: Traits) { t.kind == 0 ==> t.file == 0 && t.mayWrite }

  ghost predicate TableOk(rs: seq<Region>, v: View) {
    |rs| == MAX_REGIONS && Agrees(rs, v) && Disjoint(rs) && forall i :: 0 <= i < |rs| ==> Canonical(rs[i].traits)
  }

  function PagesOf(r: Region): set<nat> { set p: nat | p < End(r) && Holds(r, p) }

  /** Replace region `r0` by `r` in the per-page map. */
  function PutView(v: View, r0: Region, r: Region): View {
    map p | p in v.Keys + PagesOf(r) && (Holds(r, p) || (p in v && !Holds(r0, p))) ::
      if Holds(r, p) then InfoOf(r, p) else v[p]
  }

  // ─── slots ───

  function FreeCount(rs: seq<Region>): nat {
    if rs == [] then 0 else (if rs[0].active then 0 else 1) + FreeCount(rs[1..])
  }

  lemma {:induction false} FreeCountUpdate(rs: seq<Region>, i: nat, r: Region)
    requires i < |rs|
    ensures FreeCount(rs[i := r]) == FreeCount(rs) + (if rs[i].active then 1 else 0) - (if r.active then 1 else 0)
  {
    if i == 0 {
      assert rs[0 := r][1..] == rs[1..];
    } else {
      FreeCountUpdate(rs[1..], i - 1, r);
      assert rs[i := r][1..] == rs[1..][i - 1 := r];
    }
  }

  lemma {:induction false} FreeCountZero(rs: seq<Region>)
    ensures FreeCount(rs) == 0 <==> forall i :: 0 <= i < |rs| ==> rs[i].active
  {
    if rs != [] {
      FreeCountZero(rs[1..]);
      if forall i :: 0 <= i < |rs[1..]| ==> rs[1..][i].active {
        assert forall i :: 1 <= i < |rs| ==> rs[1..][i - 1] == rs[i];
      } else {
        var i :| 0 <= i < |rs[1..]| && !rs[1..][i].active;
        assert !rs[i + 1].active;
      }
    }
  }

  /** Slots a cut of [lo, hi) out of a region needs: one for the tail of a cut in the middle. */
  function SplitNeed(r: Region, lo: nat, hi: nat): nat {
    if r.active && r.base < lo && hi < End(r) then 1 else 0
  }

  /** Slots a change of protection of [lo, hi) needs: one for each end of a file region that lies outside. */
  function ProtectNeed(r: Region, lo: nat, hi: nat): nat {
    if Overlaps(r, lo, hi) && r.traits.kind != 0 then (if r.base < lo then 1 else 0) + (if hi < End(r) then 1 else 0)
      else 0
  }

  function Need(rs: seq<Region>, lo: nat, hi: nat, cut: bool): nat {
    if rs == [] then 0
    else (if cut then SplitNeed(rs[0], lo, hi) else ProtectNeed(rs[0], lo, hi)) + Need(rs[1..], lo, hi, cut)
  }

  lemma {:induction false} NeedSame(rs: seq<Region>, rs': seq<Region>, lo: nat, hi: nat, cut: bool)
    requires |rs| == |rs'|
    requires forall i :: 0 <= i < |rs| ==>
      if cut then SplitNeed(rs'[i], lo, hi) == SplitNeed(rs[i], lo, hi)
        else ProtectNeed(rs'[i], lo, hi) == ProtectNeed(rs[i], lo, hi)
    ensures Need(rs', lo, hi, cut) == Need(rs, lo, hi, cut)
  {
    if rs != [] {
      forall i | 0 <= i < |rs[1..]| ensures rs[1..][i] == rs[i + 1] && rs'[1..][i] == rs'[i + 1] {
      }
      NeedSame(rs[1..], rs'[1..], lo, hi, cut);
    }
  }

  lemma {:induction false} NeedZero(rs: seq<Region>, lo: nat, hi: nat)
    requires Need(rs, lo, hi, true) == 0
    ensures forall k :: 0 <= k < |rs| ==> SplitNeed(rs[k], lo, hi) == 0
  {
    if rs != [] {
      NeedZero(rs[1..], lo, hi);
      forall k | 0 < k < |rs| ensures SplitNeed(rs[k], lo, hi) == 0 {
        assert rs[1..][k - 1] == rs[k];
      }
    }
  }

  lemma NeedFrom(rs: seq<Region>, i: nat, lo: nat, hi: nat, cut: bool)
    requires i < |rs|
    ensures Need(rs[i..], lo, hi, cut)
         == (if cut then SplitNeed(rs[i], lo, hi) else ProtectNeed(rs[i], lo, hi)) + Need(rs[i + 1..], lo, hi, cut)
  {
    assert rs[i..][1..] == rs[i + 1..] && rs[i..][0] == rs[i];
  }

  /** A region written to a slot of its own changes no need but its own. */
  lemma NeedSkips(rs: seq<Region>, k: nat, r: Region, i: nat, lo: nat, hi: nat, cut: bool)
    requires k < |rs| && i <= |rs| && (k < i ||
      (SplitNeed(r, lo, hi) == SplitNeed(rs[k], lo, hi) && ProtectNeed(r, lo, hi) == ProtectNeed(rs[k], lo, hi)))
    ensures Need(rs[k := r][i..], lo, hi, cut) == Need(rs[i..], lo, hi, cut)
  {
    forall j | 0 <= j < |rs| - i ensures rs[k := r][i..][j] == if j + i == k then r else rs[i..][j] {
    }
    NeedSame(rs[i..], rs[k := r][i..], lo, hi, cut);
  }

  /** Regions left of `r` once [lo, hi) is cut out. */
  function PiecesLeft(r: Region, lo: nat, hi: nat): nat {
    if !r.active then 0
    else if !Overlaps(r, lo, hi) then 1
    else (if r.base < lo then 1 else 0) + (if hi < End(r) then 1 else 0)
  }

  function Pieces(rs: seq<Region>, lo: nat, hi: nat): nat {
    if rs == [] then 0 else PiecesLeft(rs[0], lo, hi) + Pieces(rs[1..], lo, hi)
  }

  lemma {:induction false} PiecesUpdate(rs: seq<Region>, i: nat, r: Region, lo: nat, hi: nat)
    requires i < |rs|
    ensures Pieces(rs[i := r], lo, hi) == Pieces(rs, lo, hi) - PiecesLeft(rs[i], lo, hi) + PiecesLeft(r, lo, hi)
  {
    if i == 0 {
      assert rs[0 := r][1..] == rs[1..];
    } else {
      PiecesUpdate(rs[1..], i - 1, r, lo, hi);
      assert rs[i := r][1..] == rs[1..][i - 1 := r];
    }
  }

  /** When nothing overlaps the range any more, the pieces are the regions. */
  lemma {:induction false} PiecesAreRegions(rs: seq<Region>, lo: nat, hi: nat)
    requires forall k :: 0 <= k < |rs| ==> !Overlaps(rs[k], lo, hi)
    ensures Pieces(rs, lo, hi) + FreeCount(rs) == |rs|
  {
    if rs != [] {
      forall k | 0 <= k < |rs| - 1 ensures !Overlaps(rs[1..][k], lo, hi) {
        assert rs[1..][k] == rs[k + 1];
      }
      PiecesAreRegions(rs[1..], lo, hi);
    }
  }

  // ─── the limit on writable private memory ───

  predicate AsksWrite(prot: nat) { prot / 2 % 2 == 1 }

  predicate Private(t: Traits) { AsksWrite(t.prot) && !t.shared }

  /** Pages of [lo, hi) that the region has charged to the data ledger. */
  function DataOf(r: Region, lo: nat, hi: nat): nat {
    if Overlaps(r, lo, hi) && lo < hi && Private(r.traits) then Min(hi, End(r)) - Max(lo, r.base) else 0
  }

  function DataIn(rs: seq<Region>, lo: nat, hi: nat): nat {
    if rs == [] then 0 else DataOf(rs[0], lo, hi) + DataIn(rs[1..], lo, hi)
  }

  lemma {:induction false} DataUpdate(rs: seq<Region>, i: nat, r: Region, lo: nat, hi: nat)
    requires i < |rs|
    ensures DataIn(rs[i := r], lo, hi) == DataIn(rs, lo, hi) - DataOf(rs[i], lo, hi) + DataOf(r, lo, hi)
  {
    if i == 0 {
      assert rs[0 := r][1..] == rs[1..];
    } else {
      DataUpdate(rs[1..], i - 1, r, lo, hi);
      assert rs[i := r][1..] == rs[1..][i - 1 := r];
    }
  }

  lemma {:induction false} DataNone(rs: seq<Region>, lo: nat, hi: nat)
    requires forall k :: 0 <= k < |rs| ==> !Overlaps(rs[k], lo, hi)
    ensures DataIn(rs, lo, hi) == 0
  {
    if rs != [] {
      forall k | 0 <= k < |rs| - 1 ensures !Overlaps(rs[1..][k], lo, hi) {
        assert rs[1..][k] == rs[k + 1];
      }
      DataNone(rs[1..], lo, hi);
    }
  }

  lemma {:induction false} DataAtLeast(rs: seq<Region>, i: nat, lo: nat, hi: nat)
    requires i < |rs|
    ensures DataOf(rs[i], lo, hi) <= DataIn(rs, lo, hi)
  {
    if i > 0 {
      DataAtLeast(rs[1..], i - 1, lo, hi);
    }
  }

  // ─── one table write seen page by page ───

  predicate Apart(r: Region, q: Region) { r.active && q.active ==> End(r) <= q.base || End(q) <= r.base }

  /** Writing a region over slot `i`: its old pages leave the map, its new ones enter. */
  lemma PutRegion(rs: seq<Region>, v: View, i: nat, r: Region)
    requires Agrees(rs, v) && Disjoint(rs) && i < |rs| && (r.active ==> r.pages > 0)
    requires forall j :: 0 <= j < |rs| && j != i ==> Apart(r, rs[j])
    ensures Agrees(rs[i := r], PutView(v, rs[i], r)) && Disjoint(rs[i := r])
  {
    var rs', v' := rs[i := r], PutView(v, rs[i], r);
    forall k, p | 0 <= k < |rs'| && Holds(rs'[k], p) ensures p in v' && v'[p] == InfoOf(rs'[k], p) {
      PutHolds(rs, v, i, r, k, p);
    }
    forall p | p in v' ensures HeldBySome(rs', p) {
      if Holds(r, p) {
        assert Holds(rs'[i], p);
      } else {
        assert HeldBySome(rs, p);
        var k :| 0 <= k < |rs| && Holds(rs[k], p);
        assert rs'[k] == rs[k];
      }
    }
    forall k, j | 0 <= k < j < |rs'| && rs'[k].active && rs'[j].active ensures End(rs'[k]) <= rs'[j].base ||
      End(rs'[j]) <= rs'[k].base {
      if k == i {
        assert Apart(r, rs[j]);
      } else if j == i {
        assert Apart(r, rs[k]);
      }
    }
  }

  lemma PutHolds(rs: seq<Region>, v: View, i: nat, r: Region, k: nat, p: nat)
    requires Agrees(rs, v) && Disjoint(rs) && i < |rs| && k < |rs| && (k != i ==> Apart(r, rs[k]))
    requires Holds(rs[i := r][k], p)
    ensures p in PutView(v, rs[i], r) && PutView(v, rs[i], r)[p] == InfoOf(rs[i := r][k], p)
  {
    if k != i {
      assert p in v && v[p] == InfoOf(rs[k], p);
      assert rs[i].active ==> End(rs[i]) <= rs[k].base || End(rs[k]) <= rs[i].base;
    }
  }

  function Cut(v: View, lo: nat, hi: nat): View { map p | p in v && !(lo <= p < hi) :: v[p] }

  lemma {:induction false} PageCount(r: Region)
    requires r.active
    ensures |PagesOf(r)| == r.pages
    decreases r.pages
  {
    if r.pages == 0 {
      assert PagesOf(r) == {};
    } else {
      var rest := r.(base := r.base + 1, pages := r.pages - 1);
      PageCount(rest);
      forall p: nat ensures p in PagesOf(r) <==> p in {r.base} + PagesOf(rest) {
        assert Holds(r, p) <==> p == r.base || Holds(rest, p);
      }
      assert PagesOf(r) == {r.base} + PagesOf(rest);
    }
  }

  lemma CutSize(v: View, lo: nat, hi: nat, r: Region)
    requires lo < hi && Overlaps(r, lo, hi) && forall p :: Holds(r, p) ==> p in v
    ensures var (a, b) := (Max(lo, r.base), Min(hi, End(r))); a <= b && |Cut(v, a, b)| == |v| - (b - a)
  {
    var a, b := Max(lo, r.base), Min(hi, End(r));
    var piece := r.(base := a, pages := b - a);
    PageCount(piece);
    var gone := PagesOf(piece);
    assert forall p :: p in gone ==> Holds(r, p);
    assert Cut(v, a, b).Keys == v.Keys - gone && gone <= v.Keys;
    assert |v.Keys - gone| == |v.Keys| - |gone|;
    assert |Cut(v, a, b).Keys| == |Cut(v, a, b)| && |v.Keys| == |v|;
  }

  function Max(a: nat, b: nat): nat { if a < b then b else a }
  // ─── cutting a range out ───

  /** What is left of an overlapping region below the cut, or above it when nothing is below; inactive when nothing is.
      */
  function Trim(r: Region, lo: nat, hi: nat): Region
    requires lo < hi && Overlaps(r, lo, hi)
  {
    if r.base < lo then r.(pages := lo - r.base)
    else if hi < End(r) then r.(base := hi, pages := End(r) - hi, offset := r.offset + (hi - r.base))
    else r.(active := false)
  }

  function TailOf(r: Region, hi: nat): Region
    requires r.base <= hi <= End(r)
  {
    r.(base := hi, pages := End(r) - hi, offset := r.offset + (hi - r.base))
  }

  lemma CutOne(rs: seq<Region>, v: View, i: nat, lo: nat, hi: nat)
    requires Agrees(rs, v) && Disjoint(rs) && i < |rs| && lo < hi && Overlaps(rs[i], lo, hi)
    requires SplitNeed(rs[i], lo, hi) == 0
    ensures var (rs', v') := (rs[i := Trim(rs[i], lo, hi)], Cut(v, Max(lo, rs[i].base), Min(hi, End(rs[i]))));
      Agrees(rs', v') && Disjoint(rs')
  {
    var r, r' := rs[i], Trim(rs[i], lo, hi);
    forall j | 0 <= j < |rs| && j != i ensures Apart(r', rs[j]) {
      assert rs[j].active ==> Apart(r, rs[j]);
    }
    PutRegion(rs, v, i, r');
    TrimView(v, r, lo, hi);
  }

  /** A free slot is there if some region must be split. */
  ghost predicate Enough(rs: seq<Region>, lo: nat, hi: nat) {
    FreeCount(rs) > 0 || forall k :: 0 <= k < |rs| ==> SplitNeed(rs[k], lo, hi) == 0
  }

  lemma CutOneEnough(rs: seq<Region>, i: nat, lo: nat, hi: nat)
    requires Enough(rs, lo, hi) && i < |rs| && lo < hi && Overlaps(rs[i], lo, hi) && SplitNeed(rs[i], lo, hi) == 0
    ensures Enough(rs[i := Trim(rs[i], lo, hi)], lo, hi)
  {
    FreeCountUpdate(rs, i, Trim(rs[i], lo, hi));
  }

  lemma CutMiddleAlone(rs: seq<Region>, i: nat, j: nat, lo: nat, hi: nat)
    requires Disjoint(rs) && i < |rs| && j < |rs| && lo < hi && SplitNeed(rs[i], lo, hi) == 1
    ensures var rs' := rs[i := Trim(rs[i], lo, hi)][j := TailOf(rs[i], hi)];
      forall k :: 0 <= k < |rs| ==> !Overlaps(rs'[k], lo, hi)
  {
    var rs' := rs[i := Trim(rs[i], lo, hi)][j := TailOf(rs[i], hi)];
    forall k | 0 <= k < |rs| ensures !Overlaps(rs'[k], lo, hi) {
      if k != i && k != j {
        assert rs'[k] == rs[k];
      }
    }
  }

  /** Slot `i` no longer overlaps the range; any other slot is as before or does not either. */
  ghost predicate Cleared(rs: seq<Region>, rs': seq<Region>, i: nat, lo: nat, hi: nat) {
    |rs| == |rs'| && forall k :: 0 <= k < |rs| ==> (k != i && rs'[k] == rs[k]) || !Overlaps(rs'[k], lo, hi)
  }

  lemma TrimOk(rs: seq<Region>, v: View, i: nat, lo: nat, hi: nat)
    requires TableOk(rs, v) && Enough(rs, lo, hi) && i < |rs| && lo < hi && Overlaps(rs[i], lo, hi)
    requires SplitNeed(rs[i], lo, hi) == 0
    ensures var (rs', v') := (rs[i := Trim(rs[i], lo, hi)], Cut(v, Max(lo, rs[i].base), Min(hi, End(rs[i]))));
      TableOk(rs', v') && Enough(rs', lo, hi) && Cleared(rs, rs', i, lo, hi) &&
        Pieces(rs', lo, hi) == Pieces(rs, lo, hi)
  {
    CutOne(rs, v, i, lo, hi);
    PiecesUpdate(rs, i, Trim(rs[i], lo, hi), lo, hi);
    CutOneEnough(rs, i, lo, hi);
  }

  lemma SplitOk(rs: seq<Region>, v: View, i: nat, j: nat, lo: nat, hi: nat)
    requires TableOk(rs, v) && i < |rs| && j < |rs| && lo < hi && SplitNeed(rs[i], lo, hi) == 1 && !rs[j].active
    ensures var (rs', v') := (rs[i := Trim(rs[i], lo, hi)][j := TailOf(rs[i], hi)],
      Cut(v, Max(lo, rs[i].base), Min(hi, End(rs[i]))));
      TableOk(rs', v') && Enough(rs', lo, hi) && Cleared(rs, rs', i, lo, hi) &&
        Pieces(rs', lo, hi) == Pieces(rs, lo, hi)
  {
    CutMiddle(rs, v, i, j, lo, hi);
    PiecesUpdate(rs, i, Trim(rs[i], lo, hi), lo, hi);
    PiecesUpdate(rs[i := Trim(rs[i], lo, hi)], j, TailOf(rs[i], hi), lo, hi);
    CutMiddleAlone(rs, i, j, lo, hi);
  }

  /** The cut takes the region's pages off what the range has charged to the data ledger. */
  lemma CutData(rs: seq<Region>, i: nat, j: nat, lo: nat, hi: nat)
    requires i < |rs| && j < |rs| && lo < hi && Overlaps(rs[i], lo, hi) && !rs[j].active
    ensures var rs' := rs[i := Trim(rs[i], lo, hi)];
      && (SplitNeed(rs[i], lo, hi) == 0 ==> DataIn(rs', lo, hi) == DataIn(rs, lo, hi) - DataOf(rs[i], lo, hi))
      && (SplitNeed(rs[i], lo, hi) == 1 ==>
            DataIn(rs'[j := TailOf(rs[i], hi)], lo, hi) == DataIn(rs, lo, hi) - DataOf(rs[i], lo, hi))
  {
    DataUpdate(rs, i, Trim(rs[i], lo, hi), lo, hi);
    if SplitNeed(rs[i], lo, hi) == 1 {
      DataUpdate(rs[i := Trim(rs[i], lo, hi)], j, TailOf(rs[i], hi), lo, hi);
    }
  }

  lemma TrimmedFurther(v0: View, v: View, lo: nat, hi: nat, a: nat, b: nat)
    requires Trimmed(v0, v, lo, hi) && lo <= a && b <= hi
    ensures Trimmed(v0, Cut(v, a, b), lo, hi)
  {
  }

  lemma TrimView(v: View, r: Region, lo: nat, hi: nat)
    requires lo < hi && Overlaps(r, lo, hi) && SplitNeed(r, lo, hi) == 0
    requires forall p :: Holds(r, p) ==> p in v && v[p] == InfoOf(r, p)
    ensures PutView(v, r, Trim(r, lo, hi)) == Cut(v, Max(lo, r.base), Min(hi, End(r)))
  {
    var r' := Trim(r, lo, hi);
    var x, y := PutView(v, r, r'), Cut(v, Max(lo, r.base), Min(hi, End(r)));
    forall p: nat ensures (p in x <==> p in y) && (p in x ==> x[p] == y[p]) {
      assert Holds(r', p) ==> Holds(r, p) && InfoOf(r', p) == InfoOf(r, p);
    }
    assert x.Keys == y.Keys;
  }

  lemma CutMiddle(rs: seq<Region>, v: View, i: nat, j: nat, lo: nat, hi: nat)
    requires Agrees(rs, v) && Disjoint(rs) && i < |rs| && j < |rs| && lo < hi && SplitNeed(rs[i], lo, hi) == 1
    requires !rs[j].active
    ensures var (rs', v') := (rs[i := Trim(rs[i], lo, hi)][j := TailOf(rs[i], hi)], Cut(v, lo, hi));
      Agrees(rs', v') && Disjoint(rs')
  {
    var r, head, tail := rs[i], Trim(rs[i], lo, hi), TailOf(rs[i], hi);
    forall k | 0 <= k < |rs| && k != i ensures Apart(head, rs[k]) && Apart(tail, rs[k]) {
      assert rs[k].active ==> Apart(r, rs[k]);
    }
    PutRegion(rs, v, i, head);
    var rs1, v1 := rs[i := head], PutView(v, r, head);
    forall k | 0 <= k < |rs1| && k != j ensures Apart(tail, rs1[k]) {
      assert rs1[k] == if k == i then head else rs[k];
    }
    PutRegion(rs1, v1, j, tail);
    SplitView(v, r, rs[j], lo, hi);
  }

  lemma SplitView(v: View, r: Region, idle: Region, lo: nat, hi: nat)
    requires lo < hi && SplitNeed(r, lo, hi) == 1 && !idle.active
    requires forall p :: Holds(r, p) ==> p in v && v[p] == InfoOf(r, p)
    ensures PutView(PutView(v, r, Trim(r, lo, hi)), idle, TailOf(r, hi)) == Cut(v, lo, hi)
  {
    var head, tail := Trim(r, lo, hi), TailOf(r, hi);
    var x, y := PutView(PutView(v, r, head), idle, tail), Cut(v, lo, hi);
    forall p: nat ensures (p in x <==> p in y) && (p in x ==> x[p] == y[p]) {
      assert Holds(head, p) || Holds(tail, p) ==> Holds(r, p);
      assert Holds(r, p) && !(lo <= p < hi) ==> Holds(head, p) || Holds(tail, p);
    }
    assert x.Keys == y.Keys;
  }

  /** `v'` is `v` without some pages of the range. */
  ghost predicate Trimmed(v: View, v': View, lo: nat, hi: nat) {
    && (forall p :: p in v' ==> p in v && v'[p] == v[p])
    && (forall p :: p in v && p !in v' ==> lo <= p < hi)
  }

  lemma AllTrimmed(rs: seq<Region>, v: View, v0: View, lo: nat, hi: nat)
    requires Agrees(rs, v) && Trimmed(v0, v, lo, hi) && forall k :: 0 <= k < |rs| ==> !Overlaps(rs[k], lo, hi)
    ensures v == Cut(v0, lo, hi)
  {
    forall p | p in v ensures !(lo <= p < hi) {
      assert HeldBySome(rs, p);
      var k :| 0 <= k < |rs| && Holds(rs[k], p);
      assert !Overlaps(rs[k], lo, hi);
    }
    assert v.Keys == Cut(v0, lo, hi).Keys;
  }

  // ─── tracking a new range ───

  datatype Side = Neither | After | Before

  /** Whether an anonymous range of `n` pages at `base` extends region `r`. */
  function MergeSide(r: Region, base: nat, n: nat, t: Traits): Side {
    if !r.active || r.traits.noFree || r.traits.kind != 0 || r.traits.prot != t.prot || r.traits.shared != t.shared
      then Neither
    else if End(r) == base then After
    else if base + n == r.base then Before
    else Neither
  }

  function Merged(r: Region, base: nat, n: nat, t: Traits): Region {
    match MergeSide(r, base, n, t)
    case Neither => r
    case After => r.(pages := r.pages + n)
    case Before => r.(base := base, pages := r.pages + n)
  }

  function ViewOf(r: Region): View { map p | p in PagesOf(r) :: InfoOf(r, p) }

  ghost predicate RangeFree(rs: seq<Region>, base: nat, n: nat) {
    forall i :: 0 <= i < |rs| ==> !Overlaps(rs[i], base, base + n)
  }

  /** The range fits: a slot is free, or it is anonymous and extends a region. */
  ghost predicate Fits(rs: seq<Region>, base: nat, n: nat, t: Traits) {
    FreeCount(rs) > 0 || (t.kind == 0 && exists i :: 0 <= i < |rs| && MergeSide(rs[i], base, n, t) != Neither)
  }

  lemma MergeInto(rs: seq<Region>, v: View, i: nat, base: nat, n: nat, t: Traits)
    requires TableOk(rs, v) && i < |rs| && n > 0 && RangeFree(rs, base, n) && t.kind == 0 && !t.noFree && Canonical(t)
    requires MergeSide(rs[i], base, n, t) != Neither
    ensures var (rs', v') := (rs[i := Merged(rs[i], base, n, t)], v + ViewOf(Region(true, base, n, t, 0)));
      TableOk(rs', v') && |v'| == |v| + n
  {
    var r, r', added := rs[i], Merged(rs[i], base, n, t), Region(true, base, n, t, 0);
    forall j | 0 <= j < |rs| && j != i ensures Apart(r', rs[j]) {
      assert rs[j].active ==> Apart(r, rs[j]);
      assert !Overlaps(rs[j], base, base + n) && (rs[j].active ==> rs[j].pages > 0);
    }
    PutRegion(rs, v, i, r');
    MergedView(v, r, base, n, t);
    FreshSize(rs, v, added);
  }

  lemma MergedView(v: View, r: Region, base: nat, n: nat, t: Traits)
    requires MergeSide(r, base, n, t) != Neither && t == r.traits && t.kind == 0
    requires forall p :: Holds(r, p) ==> p in v && v[p] == InfoOf(r, p)
    ensures PutView(v, r, Merged(r, base, n, t)) == v + ViewOf(Region(true, base, n, t, 0))
  {
    var added, r' := Region(true, base, n, t, 0), Merged(r, base, n, t);
    var x, y := PutView(v, r, r'), v + ViewOf(added);
    forall p: nat ensures (p in x <==> p in y) && (p in x ==> x[p] == y[p]) {
      assert Holds(r', p) <==> Holds(r, p) || Holds(added, p);
    }
    assert x.Keys == y.Keys;
  }

  lemma FreshSize(rs: seq<Region>, v: View, added: Region)
    requires Agrees(rs, v) && added.active && RangeFree(rs, added.base, added.pages)
    ensures |v + ViewOf(added)| == |v| + added.pages
  {
    PageCount(added);
    forall p | p in PagesOf(added) ensures p !in v {
      assert p in v ==> HeldBySome(rs, p);
    }
    assert (v + ViewOf(added)).Keys == v.Keys + PagesOf(added);
    assert |v.Keys + PagesOf(added)| == |v.Keys| + |PagesOf(added)|;
    assert |(v + ViewOf(added)).Keys| == |v + ViewOf(added)| && |v.Keys| == |v|;
  }

  lemma InsertAt(rs: seq<Region>, v: View, j: nat, added: Region)
    requires TableOk(rs, v) && j < |rs| && !rs[j].active && added.active && added.pages > 0 && Canonical(added.traits)
    requires RangeFree(rs, added.base, added.pages)
    ensures TableOk(rs[j := added], v + ViewOf(added)) && |v + ViewOf(added)| == |v| + added.pages
  {
    forall k | 0 <= k < |rs| && k != j ensures Apart(added, rs[k]) {
      assert !Overlaps(rs[k], added.base, added.base + added.pages) && (rs[k].active ==> rs[k].pages > 0);
    }
    PutRegion(rs, v, j, added);
    InsertView(v, rs[j], added);
    FreshSize(rs, v, added);
  }

  lemma InsertView(v: View, idle: Region, added: Region)
    requires !idle.active
    ensures PutView(v, idle, added) == v + ViewOf(added)
  {
    var x, y := PutView(v, idle, added), v + ViewOf(added);
    forall p: nat ensures (p in x <==> p in y) && (p in x ==> x[p] == y[p]) {
    }
    assert x.Keys == y.Keys;
  }
}
