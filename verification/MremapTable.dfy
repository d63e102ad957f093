/** mremap without leave to move, on the region table: part of an anonymous region is split off, resized, and put back
    together with its neighbours; a file region is resized as a whole. The call names [lo, hi) and asks for [lo, to). */
module MremapTable {
  import opened Basics
  import opened RegionTable
  import opened AddressSpace

  predicate Inside(r: Region, lo: nat, hi: nat) { r.active && r.base <= lo < hi <= End(r) }

  /** A range that is split off before it is resized. */
  predicate Splits(r: Region, lo: nat, hi: nat) { Inside(r, lo, hi) && r.traits.kind == 0 && !r.traits.noFree }

  predicate Starts(r: Region, lo: nat) { r.active && r.base == lo }

  function ExtraSlots(r: Region, lo: nat, hi: nat): nat {
    (if r.base < lo then 1 else 0) + (if hi < End(r) then 1 else 0)
  }

  /** The pages a region grows by behind `hi`, read on from where it ended. */
  function GrownView(r: Region, hi: nat, to: nat): View
    requires r.base <= hi <= to
  {
    ViewOf(Region(true, hi, to - hi, r.traits, r.offset + hi - r.base))
  }

  function Resized(v: View, r: Region, hi: nat, to: nat): View
    requires r.base <= hi
  {
    if to < hi then Cut(v, to, hi) else if to > hi then v + GrownView(r, hi, to) else v
  }

  /** What a call finds: `free`, the page tables hold nothing where the mapping would grow; `bare`, they hold nothing at
      its start; `ready`, there are frames for new pages; and the limits. */
  datatype Means = Means(free: bool, bare: bool, ready: bool, lim: Limits)

  /** The two ledgers. */
  datatype Books = Books(space: nat, data: nat)

  /** Both limits admit `n` more pages of a mapping with these traits. */
  predicate Paid(b: Books, t: Traits, n: nat, lim: Limits) {
    ChargeOk(b.space, n, lim.space) && (Private(t) ==> ChargeOk(b.data, n, lim.data))
  }

  predicate CanCoalesce(a: Region, b: Region) {
    && a.active && b.active && End(a) == b.base
    && a.traits.kind == 0 && b.traits.kind == 0 && !a.traits.noFree && !b.traits.noFree
    && a.traits.prot == b.traits.prot && a.traits.shared == b.traits.shared && a.traits.mayWrite == b.traits.mayWrite
  }

  // ─── putting pieces back together ───

  function Joined(x: Region, y: Region): Region { x.(pages := x.pages + y.pages) }

  lemma JoinApart(rs: seq<Region>, a: nat, b: nat, k: nat)
    requires Disjoint(rs) && a < |rs| && b < |rs| && k < |rs| && a != b && k != a && CanCoalesce(rs[a], rs[b])
    ensures Apart(Joined(rs[a], rs[b]), rs[b := rs[b].(active := false)][k])
  {
    if k != b && rs[k].active {
      assert Apart(rs[a], rs[k]) && Apart(rs[b], rs[k]);
    }
  }

  lemma Freed(rs: seq<Region>, v: View, b: nat)
    requires Agrees(rs, v) && Disjoint(rs) && b < |rs|
    ensures var gone := rs[b].(active := false);
      Agrees(rs[b := gone], PutView(v, rs[b], gone)) && Disjoint(rs[b := gone])
  {
    PutRegion(rs, v, b, rs[b].(active := false));
  }

  lemma AgreesAt(rs: seq<Region>, v: View, i: nat)
    requires Agrees(rs, v) && i < |rs|
    ensures forall p :: Holds(rs[i], p) ==> p in v && v[p] == InfoOf(rs[i], p)
  {
  }

  /** Two neighbours that nothing distinguishes become one, and no page can tell. */
  lemma JoinInvisible(rs: seq<Region>, v: View, a: nat, b: nat)
    requires Agrees(rs, v) && Disjoint(rs) && a < |rs| && b < |rs| && a != b
    requires CanCoalesce(rs[a], rs[b]) && rs[a].traits == rs[b].traits
    ensures var rs' := rs[b := rs[b].(active := false)][a := Joined(rs[a], rs[b])]; Agrees(rs', v) && Disjoint(rs')
  {
    var x, y := rs[a], rs[b];
    var joined, gone := Joined(x, y), y.(active := false);
    var rs1, v1 := rs[b := gone], PutView(v, y, gone);
    Freed(rs, v, b);
    forall k: nat | k < |rs1| && k != a ensures Apart(joined, rs1[k]) {
      JoinApart(rs, a, b, k);
    }
    assert rs1[a] == x;
    AgreesAt(rs, v, a);
    AgreesAt(rs, v, b);
    JoinedView(v, x, y, joined, gone);
    PutRegion(rs1, v1, a, joined);
  }

  lemma JoinedView(v: View, x: Region, y: Region, joined: Region, gone: Region)
    requires CanCoalesce(x, y) && x.traits == y.traits
    requires joined == Joined(x, y) && gone == y.(active := false)
    requires forall p :: Holds(x, p) ==> p in v && v[p] == InfoOf(x, p)
    requires forall p :: Holds(y, p) ==> p in v && v[p] == InfoOf(y, p)
    ensures PutView(PutView(v, y, gone), x, joined) == v
  {
    var w := PutView(PutView(v, y, gone), x, joined);
    forall p: nat ensures (p in w <==> p in v) && (p in w ==> w[p] == v[p]) {
      assert Holds(joined, p) <==> Holds(x, p) || Holds(y, p);
    }
    assert w.Keys == v.Keys;
  }

  method Coalesce(sp: Space, a: nat, b: nat)
    requires sp.Valid() && a < sp.regions.Length && b < sp.regions.Length
    modifies sp.regions
    ensures sp.Valid()
  {
    var x, y := sp.regions[a], sp.regions[b];
    if a != b && CanCoalesce(x, y) {
      ghost var rs := sp.regions[..];
      JoinInvisible(rs, sp.view, a, b);
      sp.regions[b] := y.(active := false);
      sp.regions[a] := Joined(x, y);
      assert sp.regions[..] == rs[b := y.(active := false)][a := Joined(x, y)];
    }
  }

  // ─── the range that must be free ───

  /** No region in the way is no page in the way. */
  lemma RangeFreeIs(rs: seq<Region>, v: View, base: nat, n: nat)
    requires Agrees(rs, v) && Disjoint(rs)
    ensures n > 0 ==> (RangeFree(rs, base, n) <==> forall p :: base <= p < base + n ==> p !in v)
  {
    if n > 0 {
      if p :| base <= p < base + n && p in v {
        assert HeldBySome(rs, p);
        var k :| 0 <= k < |rs| && Holds(rs[k], p);
        assert Overlaps(rs[k], base, base + n);
      }
      if k :| 0 <= k < |rs| && Overlaps(rs[k], base, base + n) {
        var p := Max(base, rs[k].base);
        assert Holds(rs[k], p) && p in v;
      }
    }
  }

  ghost predicate OthersFree(rs: seq<Region>, i: nat, lo: nat, hi: nat) {
    forall k :: 0 <= k < |rs| && k != i ==> !Overlaps(rs[k], lo, hi)
  }

  method FindOthersFree(sp: Space, i: nat, lo: nat, hi: nat) returns (ok: bool)
    requires sp.Valid() && i < sp.regions.Length
    ensures ok <==> OthersFree(sp.regions[..], i, lo, hi)
  {
    ghost var rs := sp.regions[..];
    var k := 0;
    while k < sp.regions.Length
      invariant k <= sp.regions.Length && forall j :: 0 <= j < k && j != i ==> !Overlaps(rs[j], lo, hi)
    {
      if k != i && Overlaps(sp.regions[k], lo, hi) {
        assert Overlaps(rs[k], lo, hi);
        return false;
      }
      k := k + 1;
    }
    ok := true;
  }

  // ─── part of an anonymous region ───

  /** The range becomes a region of its own; `head` and `tail` are the slots of what lies before and behind it, or
      `mid`. */
  method SplitOut(sp: Space, i: nat, lo: nat, hi: nat) returns (head: nat, mid: nat, tail: nat)
    requires sp.Valid() && i < sp.regions.Length && Splits(sp.regions[i], lo, hi)
    requires ExtraSlots(sp.regions[i], lo, hi) <= FreeCount(sp.regions[..])
    modifies sp.regions
    ensures sp.Valid() && head < sp.regions.Length && mid < sp.regions.Length && tail < sp.regions.Length
    ensures sp.regions[mid].active && sp.regions[mid].base == lo && End(sp.regions[mid]) == hi
    ensures sp.regions[mid].traits == old(sp.regions[i].traits)
  {
    head, mid, tail := i, i, i;
    if sp.regions[i].base < lo {
      mid := sp.SplitAt(i, lo);
      tail := mid;
    }
    if hi < End(sp.regions[mid]) {
      tail := sp.SplitAt(mid, hi);
    }
  }

  lemma EndCutFits(rs: seq<Region>, i: nat, lo: nat, hi: nat)
    requires Disjoint(rs) && i < |rs| && rs[i].active && rs[i].base <= lo < hi == End(rs[i])
    ensures Enough(rs, lo, hi)
  {
    forall k | 0 <= k < |rs| ensures SplitNeed(rs[k], lo, hi) == 0 {
      if k != i && rs[k].active {
        assert End(rs[i]) <= rs[k].base || End(rs[k]) <= rs[i].base;
      }
    }
  }

  lemma GrownAnonymous(r: Region, hi: nat, to: nat, n: nat, t: Traits)
    requires r.base <= hi <= to && n == to - hi && t == r.traits && t.kind == 0
    ensures GrownView(r, hi, to) == ViewOf(Region(true, hi, n, t, 0))
  {
    var a, b := Region(true, hi, to - hi, t, r.offset + hi - r.base), Region(true, hi, n, t, 0);
    forall p: nat ensures p in PagesOf(a) <==> p in PagesOf(b) {
      assert Holds(a, p) <==> Holds(b, p);
    }
    assert PagesOf(a) == PagesOf(b);
  }

  /** The region grows by `n` pages into a free range, which is charged. */
  method Extend(sp: Space, i: nat, hi: nat, n: nat)
    requires sp.Valid() && i < sp.regions.Length && sp.regions[i].active && End(sp.regions[i]) == hi && n > 0
    requires sp.regions[i].traits.kind == 0 && !sp.regions[i].traits.noFree && RangeFree(sp.regions[..], hi, n)
    modifies sp`view, sp`asUsed, sp`dataUsed, sp.regions
    ensures sp.Valid()
    ensures sp.view == old(sp.view) + ViewOf(Region(true, hi, n, old(sp.regions[i].traits), 0))
  {
    ghost var rs := sp.regions[..];
    var r := sp.regions[i];
    assert rs[i] == r;
    MergeInto(rs, sp.view, i, hi, n, r.traits);
    sp.regions[i] := Merged(r, hi, n, r.traits);
    sp.view := sp.view + ViewOf(Region(true, hi, n, r.traits, 0));
    sp.asUsed := sp.asUsed + n;
    sp.dataUsed := sp.dataUsed + if Private(r.traits) then n else 0;
    assert sp.regions[..] == rs[i := Merged(r, hi, n, r.traits)];
  }

  /** The split must fit; to grow, the limits must admit it, the range must be free, in the table and in the page
      tables, and there must be frames. */
  ghost predicate PartRefused(rs: seq<Region>, b: Books, i: nat, lo: nat, hi: nat, to: nat, m: Means)
    requires i < |rs|
  {
    ExtraSlots(rs[i], lo, hi) > FreeCount(rs) || (to > hi && GrowthRefused(rs, b, rs[i].traits, hi, to, m))
  }

  ghost predicate GrowthRefused(rs: seq<Region>, b: Books, t: Traits, hi: nat, to: nat, m: Means)
    requires hi < to
  {
    !Paid(b, t, to - hi, m.lim) || !RangeFree(rs, hi, to - hi) || !m.free || !m.ready
  }

  method Shrink(sp: Space, i: nat, to: nat)
    requires sp.Valid() && i < sp.regions.Length && sp.regions[i].active
    requires sp.regions[i].base < to < End(sp.regions[i])
    modifies sp`view, sp`asUsed, sp`dataUsed, sp.regions
    ensures sp.Valid() && sp.view == Cut(old(sp.view), to, End(old(sp.regions[i])))
  {
    var x := sp.regions[i];
    assert sp.regions[..][i] == x;
    EndCutFits(sp.regions[..], i, to, End(x));
    sp.Untrack(to, End(x));
  }

  method Grow(sp: Space, i: nat, hi: nat, n: nat, m: Means) returns (ok: bool)
    requires sp.Valid() && i < sp.regions.Length && sp.regions[i].active && End(sp.regions[i]) == hi && n > 0
    requires sp.regions[i].traits.kind == 0 && !sp.regions[i].traits.noFree
    modifies sp`view, sp`asUsed, sp`dataUsed, sp.regions
    ensures sp.Valid()
    ensures ok <==>
      && Paid(Books(old(sp.asUsed), old(sp.dataUsed)), old(sp.regions[i].traits), n, m.lim)
      && m.free && m.ready && RangeFree(old(sp.regions[..]), hi, n)
    ensures sp.view ==
      if ok then old(sp.view) + ViewOf(Region(true, hi, n, old(sp.regions[i].traits), 0)) else old(sp.view)
  {
    var x := sp.regions[i];
    if !Paid(Books(sp.asUsed, sp.dataUsed), x.traits, n, m.lim) {
      return false;
    }
    assert sp.regions[..][i] == x && !Overlaps(x, hi, hi + n);
    ok := FindOthersFree(sp, i, hi, hi + n);
    if !ok || !m.free || !m.ready {
      return false;
    }
    Extend(sp, i, hi, n);
  }

  method ResizeMiddle(sp: Space, mid: nat, hi: nat, to: nat, m: Means) returns (r: int)
    requires sp.Valid() && mid < sp.regions.Length && sp.regions[mid].active && End(sp.regions[mid]) == hi
    requires sp.regions[mid].base < to && sp.regions[mid].traits.kind == 0 && !sp.regions[mid].traits.noFree
    modifies sp`view, sp`asUsed, sp`dataUsed, sp.regions
    ensures sp.Valid()
    ensures var b := Books(old(sp.asUsed), old(sp.dataUsed));
      r == if to > hi && GrowthRefused(old(sp.regions[..]), b, old(sp.regions[mid].traits), hi, to, m) then -12 else 0
    ensures sp.view == if r == 0 then Resized(old(sp.view), old(sp.regions[mid]), hi, to) else old(sp.view)
  {
    r := 0;
    if to < hi {
      Shrink(sp, mid, to);
    } else if to > hi {
      var n := to - hi;
      GrownAnonymous(sp.regions[mid], hi, to, n, sp.regions[mid].traits);
      var ok := Grow(sp, mid, hi, n, m);
      r := if ok then 0 else -12;
    }
  }

  lemma SameResize(v: View, x: Region, y: Region, hi: nat, to: nat)
    requires x.base <= hi && y.base <= hi && y.traits == x.traits && x.traits.kind == 0
    ensures Resized(v, y, hi, to) == Resized(v, x, hi, to)
  {
    if to > hi {
      GrownAnonymous(x, hi, to, to - hi, x.traits);
      GrownAnonymous(y, hi, to, to - hi, x.traits);
    }
  }

  method ResizePart(sp: Space, i: nat, lo: nat, hi: nat, to: nat, m: Means) returns (r: int)
    requires sp.Valid() && i < sp.regions.Length && Splits(sp.regions[i], lo, hi) && lo < to
    modifies sp`view, sp`asUsed, sp`dataUsed, sp.regions
    ensures sp.Valid()
    ensures r ==
      if old(PartRefused(sp.regions[..], Books(sp.asUsed, sp.dataUsed), i, lo, hi, to, m)) then -12 else 0
    ensures sp.view == if r == 0 then Resized(old(sp.view), old(sp.regions[i]), hi, to) else old(sp.view)
  {
    var slots := sp.FreeSlots();
    if ExtraSlots(sp.regions[i], lo, hi) > slots {
      return -12;
    }
    ghost var x := sp.regions[i];
    RangeFreeIs(sp.regions[..], sp.view, hi, if to > hi then to - hi else 0);
    var head, mid, tail := SplitOut(sp, i, lo, hi);
    RangeFreeIs(sp.regions[..], sp.view, hi, if to > hi then to - hi else 0);
    SameResize(sp.view, x, sp.regions[mid], hi, to);
    r := ResizeMiddle(sp, mid, hi, to, m);
    Coalesce(sp, head, mid);
    Coalesce(sp, mid, tail);
    Coalesce(sp, head, tail);
  }

  // ─── a whole region ───

  lemma PutKeys(v: View, x: Region, y: Region)
    ensures PutView(v, x, y).Keys == (v.Keys - PagesOf(x)) + PagesOf(y)
  {
    forall p: nat ensures p in PutView(v, x, y) <==> p in (v.Keys - PagesOf(x)) + PagesOf(y) {
      assert p in PagesOf(x) <==> Holds(x, p);
      assert p in PagesOf(y) <==> Holds(y, p);
    }
  }

  lemma OthersKeepPages(rs: seq<Region>, v: View, i: nat, y: Region)
    requires Agrees(rs, v) && i < |rs| && forall k :: 0 <= k < |rs| && k != i ==> Apart(y, rs[k])
    ensures (v.Keys - PagesOf(rs[i])) !! PagesOf(y) && PagesOf(rs[i]) <= v.Keys
  {
    forall p | p in v.Keys - PagesOf(rs[i]) ensures p !in PagesOf(y) {
      assert HeldBySome(rs, p);
      var k :| 0 <= k < |rs| && Holds(rs[k], p);
      assert k != i && Apart(y, rs[k]);
    }
  }

  lemma CountPut(all: set<nat>, mine: set<nat>, added: set<nat>)
    requires mine <= all && (all - mine) !! added
    ensures |(all - mine) + added| == |all| - |mine| + |added|
  {
    assert all == (all - mine) + mine;
  }

  lemma PutSize(rs: seq<Region>, v: View, i: nat, y: Region)
    requires Agrees(rs, v) && i < |rs| && rs[i].active && y.active
    requires forall k :: 0 <= k < |rs| && k != i ==> Apart(y, rs[k])
    ensures |PutView(v, rs[i], y)| == |v| - rs[i].pages + y.pages
  {
    var w := PutView(v, rs[i], y);
    PageCount(rs[i]);
    PageCount(y);
    PutKeys(v, rs[i], y);
    OthersKeepPages(rs, v, i, y);
    CountPut(v.Keys, PagesOf(rs[i]), PagesOf(y));
    assert |w| == |w.Keys|;
  }

  lemma PutGrownAt(v: View, r: Region, y: Region, more: Region, p: nat)
    requires r.active && y == r.(pages := y.pages) && y.pages > r.pages
    requires more == Region(true, End(r), End(y) - End(r), r.traits, r.offset + End(r) - r.base)
    requires Holds(r, p) ==> p in v && v[p] == InfoOf(r, p)
    ensures var a, b := PutView(v, r, y), v + ViewOf(more); (p in a <==> p in b) && (p in a ==> a[p] == b[p])
  {
    assert p in PagesOf(more) <==> Holds(more, p);
    assert p in PagesOf(y) <==> Holds(y, p);
    assert Holds(y, p) <==> Holds(r, p) || Holds(more, p);
  }

  lemma PutGrownBy(v: View, r: Region, y: Region, more: Region)
    requires r.active && y == r.(pages := y.pages) && y.pages > r.pages
    requires more == Region(true, End(r), End(y) - End(r), r.traits, r.offset + End(r) - r.base)
    requires forall p :: Holds(r, p) ==> p in v && v[p] == InfoOf(r, p)
    ensures PutView(v, r, y) == v + ViewOf(more)
  {
    var a, b := PutView(v, r, y), v + ViewOf(more);
    forall p: nat ensures (p in a <==> p in b) && (p in a ==> a[p] == b[p]) {
      PutGrownAt(v, r, y, more, p);
    }
    assert a.Keys == b.Keys;
  }

  lemma PutGrown(v: View, r: Region, y: Region, to: nat)
    requires r.active && y == r.(pages := y.pages) && y.pages > r.pages && End(y) == to
    requires forall p :: Holds(r, p) ==> p in v && v[p] == InfoOf(r, p)
    ensures PutView(v, r, y) == v + GrownView(r, End(r), to)
  {
    PutGrownBy(v, r, y, Region(true, End(r), to - End(r), r.traits, r.offset + End(r) - r.base));
  }

  lemma WholeApart(rs: seq<Region>, i: nat, y: Region, hi: nat, k: nat)
    requires Disjoint(rs) && i < |rs| && k < |rs| && k != i && rs[i].active && rs[i].base <= hi <= End(rs[i])
    requires y.active && y.base == rs[i].base && hi < End(y) && OthersFree(rs, i, hi, End(y))
    ensures Apart(y, rs[k])
  {
    if rs[k].active {
      assert Apart(rs[i], rs[k]) && !Overlaps(rs[k], hi, End(y));
    }
  }

  /** The region's record is set to end at `to` and the pages from `hi` on are charged, whatever it had beyond `hi`. */
  method SetEnd(sp: Space, i: nat, hi: nat, to: nat)
    requires sp.Valid() && i < sp.regions.Length && sp.regions[i].active
    requires sp.regions[i].base <= hi <= End(sp.regions[i]) && hi < to
    requires OthersFree(sp.regions[..], i, hi, to)
    modifies sp, sp.regions
    ensures sp.Valid() && sp.over == old(sp.over) + (End(old(sp.regions[i])) - hi)
    ensures End(old(sp.regions[i])) == hi ==> sp.view == old(sp.view) + GrownView(old(sp.regions[i]), hi, to)
    ensures forall p :: to <= p < End(old(sp.regions[i])) ==> p !in sp.view
  {
    ghost var rs, v := sp.regions[..], sp.view;
    var x := sp.regions[i];
    assert rs[i] == x;
    var y := x.(pages := to - x.base);
    forall k: nat | k < |rs| && k != i ensures Apart(y, rs[k]) {
      WholeApart(rs, i, y, hi, k);
    }
    PutRegion(rs, v, i, y);
    PutSize(rs, v, i, y);
    if End(x) == hi {
      AgreesAt(rs, v, i);
      PutGrown(v, x, y, to);
    }
    sp.regions[i] := y;
    sp.view := PutView(sp.view, x, y);
    sp.asUsed := sp.asUsed + (to - hi);
    sp.dataUsed := sp.dataUsed + if Private(x.traits) then to - hi else 0;
    sp.over := sp.over + (End(x) - hi);
    assert sp.regions[..] == rs[i := y];
  }

  /** What refuses to resize a region that is not split: no slot for the cut; something where it would grow, a limit,
      or, for anonymous memory, which gets its pages at once, no frames. */
  ghost predicate WholeRefused(rs: seq<Region>, b: Books, i: nat, hi: nat, to: nat, m: Means)
    requires i < |rs|
  {
    if to < hi then CutRefused(rs, to, hi)
    else to > hi && (!WholeFree(rs, i, hi, to, m) || !Paid(b, rs[i].traits, to - hi, m.lim))
  }

  ghost predicate WholeFree(rs: seq<Region>, i: nat, hi: nat, to: nat, m: Means)
    requires i < |rs|
  {
    OthersFree(rs, i, hi, to) && m.free && (rs[i].traits.kind == 0 ==> m.ready)
  }

  /** The growth of a file mapping that the limit on data refuses is charged to the address space first. */
  ghost predicate ChargedInVain(rs: seq<Region>, b: Books, i: nat, hi: nat, to: nat, m: Means)
    requires i < |rs|
  {
    && hi < to && rs[i].traits.kind != 0 && WholeFree(rs, i, hi, to, m)
    && ChargeOk(b.space, to - hi, m.lim.space) && !Paid(b, rs[i].traits, to - hi, m.lim)
  }

  /** Pages charged that the table does not hold: what an accepted growth found behind the range the caller named, or
      all of a growth charged in vain. */
  ghost function Excess(rs: seq<Region>, b: Books, i: nat, hi: nat, to: nat, m: Means): nat
    requires i < |rs| && hi <= End(rs[i])
  {
    if hi >= to then 0
    else if !WholeRefused(rs, b, i, hi, to, m) then End(rs[i]) - hi
    else if ChargedInVain(rs, b, i, hi, to, m) then to - hi
    else 0
  }

  method GrowWhole(sp: Space, i: nat, hi: nat, to: nat, m: Means) returns (ok: bool)
    requires sp.Valid() && i < sp.regions.Length && sp.regions[i].active
    requires sp.regions[i].base <= hi <= End(sp.regions[i]) && hi < to
    modifies sp, sp.regions
    ensures sp.Valid()
    ensures ok <==> old(!WholeRefused(sp.regions[..], Books(sp.asUsed, sp.dataUsed), i, hi, to, m))
    ensures !ok ==> sp.view == old(sp.view)
    ensures sp.over == old(sp.over + Excess(sp.regions[..], Books(sp.asUsed, sp.dataUsed), i, hi, to, m))
    ensures ok && End(old(sp.regions[i])) == hi ==> sp.view == old(sp.view) + GrownView(old(sp.regions[i]), hi, to)
    ensures ok ==> forall p :: to <= p < End(old(sp.regions[i])) ==> p !in sp.view
  {
    var x := sp.regions[i];
    var n := to - hi;
    var b := Books(sp.asUsed, sp.dataUsed);
    assert sp.regions[..][i] == x;
    ok := FindOthersFree(sp, i, hi, to);
    if !ok || !m.free || (x.traits.kind == 0 && !m.ready) || !ChargeOk(b.space, n, m.lim.space) {
      return false;
    }
    if !Paid(b, x.traits, n, m.lim) {
      if x.traits.kind != 0 {
        sp.asUsed := sp.asUsed + n;
        sp.over := sp.over + n;
      }
      return false;
    }
    SetEnd(sp, i, hi, to);
  }

  method ResizeWhole(sp: Space, i: nat, hi: nat, to: nat, m: Means) returns (r: int)
    requires sp.Valid() && i < sp.regions.Length && sp.regions[i].active
    requires sp.regions[i].base <= hi <= End(sp.regions[i])
    modifies sp, sp.regions
    ensures sp.Valid()
    ensures r == if old(WholeRefused(sp.regions[..], Books(sp.asUsed, sp.dataUsed), i, hi, to, m)) then -12 else 0
    ensures r != 0 ==> sp.view == old(sp.view)
    ensures sp.over == old(sp.over + Excess(sp.regions[..], Books(sp.asUsed, sp.dataUsed), i, hi, to, m))
    ensures r == 0 && (to <= hi || End(old(sp.regions[i])) == hi) ==>
      sp.view == Resized(old(sp.view), old(sp.regions[i]), hi, to)
    ensures r == 0 && to > hi ==> forall p :: to <= p < End(old(sp.regions[i])) ==> p !in sp.view
  {
    r := 0;
    if to < hi {
      r := sp.Munmap(to, hi, false, false);
    } else if to > hi {
      var ok := GrowWhole(sp, i, hi, to, m);
      r := if ok then 0 else -12;
    }
  }

  // ─── the call ───

  method FindSplit(sp: Space, lo: nat, hi: nat) returns (i: nat)
    requires sp.Valid()
    ensures i <= sp.regions.Length && (i < sp.regions.Length ==> Splits(sp.regions[i], lo, hi))
    ensures i == sp.regions.Length ==> forall k :: 0 <= k < sp.regions.Length ==> !Splits(sp.regions[k], lo, hi)
  {
    i := 0;
    while i < sp.regions.Length
      invariant i <= sp.regions.Length && forall k :: 0 <= k < i ==> !Splits(sp.regions[k], lo, hi)
    {
      if Splits(sp.regions[i], lo, hi) {
        return;
      }
      i := i + 1;
    }
  }

  method FindStart(sp: Space, lo: nat) returns (i: nat)
    requires sp.Valid()
    ensures i <= sp.regions.Length && (i < sp.regions.Length ==> Starts(sp.regions[i], lo))
    ensures i == sp.regions.Length ==> forall k :: 0 <= k < sp.regions.Length ==> !Starts(sp.regions[k], lo)
  {
    i := 0;
    while i < sp.regions.Length
      invariant i <= sp.regions.Length && forall k :: 0 <= k < i ==> !Starts(sp.regions[k], lo)
    {
      if Starts(sp.regions[i], lo) {
        return;
      }
      i := i + 1;
    }
  }

  /** The region is resized as a whole. */
  predicate Whole(r: Region, lo: nat, hi: nat) { !Splits(r, lo, hi) && Starts(r, lo) && hi <= End(r) }

  /** The record is longer than the range the caller names and is not split: growing overwrites its end. */
  predicate Overwrites(r: Region, lo: nat, hi: nat, to: nat) { Whole(r, lo, hi) && hi < End(r) && hi < to }

  /** What an accepted call did to the page map, given the region it was about. */
  ghost predicate Did(x: Region, v: View, v': View, lo: nat, hi: nat, to: nat) {
    && (Splits(x, lo, hi) || Whole(x, lo, hi)) && x.base <= hi
    && (if Overwrites(x, lo, hi, to) then forall p :: to <= p < End(x) ==> p !in v' else v' == Resized(v, x, hi, to))
  }

  /** A call is about one region. */
  lemma OnlyOne(rs: seq<Region>, i: nat, lo: nat, hi: nat)
    requires Disjoint(rs) && i < |rs| && (Splits(rs[i], lo, hi) || Whole(rs[i], lo, hi))
    ensures forall k :: 0 <= k < |rs| && (Splits(rs[k], lo, hi) || Whole(rs[k], lo, hi)) ==> k == i
  {
    forall k | 0 <= k < |rs| && (Splits(rs[k], lo, hi) || Whole(rs[k], lo, hi)) ensures k == i {
      assert Holds(rs[i], lo) && Holds(rs[k], lo);
    }
  }

  /** mremap of [lo, hi) to [lo, to) without MREMAP_MAYMOVE. A refused call leaves the page map alone. An accepted one
      cuts the pages behind the new end, or adds those up to it, exactly unless it overwrites a longer record: then the
      pages of the mapping behind the new end drop out of the table. The charge is exact before and after unless a
      record is overwritten, or the growth of a file mapping is refused by the limit on data alone: it is charged and
      not refunded. */
  method Mremap(sp: Space, lo: nat, hi: nat, to: nat, m: Means) returns (r: int)
    requires sp.Valid() && lo <= hi && lo <= to
    modifies sp, sp.regions
    ensures sp.Valid()
    ensures r != 0 ==> sp.view == old(sp.view)
    ensures r == 0 ==> exists x :: x in old(sp.regions[..]) && Did(x, old(sp.view), sp.view, lo, hi, to)
    ensures to == lo ==> r == -22 && sp.over == old(sp.over)
    ensures to > lo ==> forall i :: 0 <= i < |old(sp.regions[..])| && Splits(old(sp.regions[..])[i], lo, hi) ==>
      && sp.over == old(sp.over)
      && r == if PartRefused(old(sp.regions[..]), Books(old(sp.asUsed), old(sp.dataUsed)), i, lo, hi, to, m) then -12
              else 0
    ensures to > lo ==> forall i :: 0 <= i < |old(sp.regions[..])| && Whole(old(sp.regions[..])[i], lo, hi) ==>
      && sp.over == old(sp.over) + Excess(old(sp.regions[..]), Books(old(sp.asUsed), old(sp.dataUsed)), i, hi, to, m)
      && r == if WholeRefused(old(sp.regions[..]), Books(old(sp.asUsed), old(sp.dataUsed)), i, hi, to, m) then -12
              else 0
    ensures to > lo && !(exists x :: x in old(sp.regions[..]) && (Splits(x, lo, hi) || Whole(x, lo, hi))) ==>
      (r == -22 || (r == -14 && m.bare)) && sp.over == old(sp.over)
  {
    if to == lo {
      return -22;
    }
    ghost var rs := sp.regions[..];
    var i := FindSplit(sp, lo, hi);
    if i < sp.regions.Length {
      assert rs[i] == sp.regions[i] && rs[i] in rs;
      OnlyOne(rs, i, lo, hi);
      r := ResizePart(sp, i, lo, hi, to, m);
      assert r == 0 ==> Did(rs[i], old(sp.view), sp.view, lo, hi, to);
      return;
    }
    i := FindStart(sp, lo);
    if i == sp.regions.Length {
      return if m.bare then -14 else -22;
    }
    if End(sp.regions[i]) < hi {
      NoneLonger(rs, i, lo, hi);
      return -22;
    }
    assert rs[i] == sp.regions[i] && rs[i] in rs;
    OnlyOne(rs, i, lo, hi);
    r := ResizeWhole(sp, i, hi, to, m);
    assert r == 0 ==> Did(rs[i], old(sp.view), sp.view, lo, hi, to);
  }

  lemma NoneLonger(rs: seq<Region>, i: nat, lo: nat, hi: nat)
    requires Disjoint(rs) && i < |rs| && Starts(rs[i], lo) && End(rs[i]) < hi
    ensures forall k :: 0 <= k < |rs| ==> !Whole(rs[k], lo, hi)
  {
    forall k | 0 <= k < |rs| ensures !Whole(rs[k], lo, hi) {
      assert Holds(rs[i], lo);
    }
  }

  /** Ten pages of a file are mapped and none is touched yet; the first two are grown to four. The call succeeds, and
      the table then charges eight pages more than it knows of. */
  method GrowDropsPages() returns (r: int, charged: nat, ghost tracked: nat)
    ensures r == 0 && charged == tracked + 8
  {
    var t := Traits(1, 7, 1, true, true, false);
    ghost var j: nat;
    var sp: Space;
    sp, j := MapTen(t);
    ghost var rs := sp.regions[..];
    assert rs[j] == Region(true, 100, 10, t, 0) && Whole(rs[j], 100, 102);
    r := Mremap(sp, 100, 102, 104, Means(true, false, true, Limits(None, None)));
    charged, tracked := sp.asUsed, |sp.view|;
  }

  lemma InVain(rs: seq<Region>, j: nat, t: Traits, m: Means)
    requires j < |rs| && rs[j] == Region(true, 100, 10, t, 0) && t.kind != 0 && Private(t)
    requires forall k :: 0 <= k < |rs| && k != j ==> !rs[k].active
    requires m.free && m.lim == Limits(None, Some(10 * PAGE_BYTES))
    ensures ChargedInVain(rs, Books(10, 10), j, 110, 111, m) && WholeRefused(rs, Books(10, 10), j, 110, 111, m)
    ensures Excess(rs, Books(10, 10), j, 110, 111, m) == 1
  {
  }

  /** Ten private writable pages of a file are mapped, and the limit on data is ten pages; one more is asked for. The
      call is refused, and eleven pages are charged. */
  method RefusalStaysCharged() returns (r: int, charged: nat, ghost tracked: nat)
    ensures r == -12 && tracked == 10 && charged == 11
  {
    var t := Traits(1, 7, 3, false, true, false);
    ghost var j: nat;
    var sp: Space;
    sp, j := MapTen(t);
    ghost var rs := sp.regions[..];
    assert rs[j] == Region(true, 100, 10, t, 0) && Whole(rs[j], 100, 110);
    var m := Means(true, false, true, Limits(None, Some(10 * PAGE_BYTES)));
    InVain(rs, j, t, m);
    assert Books(sp.asUsed, sp.dataUsed) == Books(10, 10);
    r := Mremap(sp, 100, 110, 111, m);
    charged, tracked := sp.asUsed, |sp.view|;
  }
}
