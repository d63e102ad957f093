/** The sliding-window churn over the memory machine: each round maps and touches a region, unmaps the region that
    leaves the window, and pressure swaps pages out at any moment. */
module Churn {
  import opened Basics
  import opened PteBits
  import opened PagedMemory
  import opened PlainMemory
  import opened MemoryTheorems

  const REGION_PAGES: nat := 256
  const WINDOW: nat := 56

  function RegionPages(pid: Pid, b: nat, k: nat): set<Addr> { set p | b <= p < b + k :: At(pid, p) }

  // ─── relative to the machine before the churn ───

  /** `m` is `m0` with the pages `live` added; if `calm`, no page of `m0` was swapped out meanwhile. */
  ghost predicate Around(m0: Machine, m: Machine, live: set<Addr>, calm: bool) {
    && Inv(m) && m.pages == m0.pages && m.ref.Keys == m0.ref.Keys
    && live !! m0.pt.Keys && m.pt.Keys == m0.pt.Keys + live
    && (calm ==> forall a :: a in m0.pt ==> m.pt[a] == m0.pt[a])
  }

  ghost predicate SamePages(m: Machine, m': Machine, a: Addr) {
    && m'.pages == m.pages && m'.ref.Keys == m.ref.Keys && m'.pt.Keys == m.pt.Keys
    && forall b :: b in m.pt && b != a ==> m'.pt[b] == m.pt[b]
  }

  lemma PutKeepsPages(m: Machine, m1: Machine, a: Addr, l: Leaf)
    requires a in m.pt && m1 == m.(mem := m1.mem, disk := m1.disk)
    ensures SamePages(m, PutLeaf(m1, a, l), a)
  {
  }

  /** Swap-out, swap-in, copy-on-write break and store add and remove no page and rewrite at most the leaf they name. */
  lemma FaultsKeepPages(m: Machine, op: Op)
    requires Inv(m) && (op.Reclaim? || op.SwapIn? || op.CowFault? || op.Store?)
    ensures Inv(Step(m, op)) && SamePages(m, Step(m, op), op.a)
  {
    StepInv(m, op);
    if Accepts(m, op) {
      match op
      case Reclaim(a, slot) =>
        PutKeepsPages(m, m.(disk := m.disk[slot := m.mem[m.pt[a].frame]]), a, SwapOutLeaf(m.pt[a], slot));
      case SwapIn(a, pick) =>
        PutKeepsPages(m, m.(mem := m.mem[pick.value := m.disk[m.pt[a].slot]]), a, SwapInLeaf(m.pt[a], pick.value));
      case CowFault(a, pick) =>
        if IsShared(m, m.pt[a].frame) {
          PutKeepsPages(m, m.(mem := m.mem[pick.value := m.mem[m.pt[a].frame]]), a,
            CowBreakLeaf(m.pt[a], true, pick.value));
        } else {
          PutKeepsPages(m, m, a, CowBreakLeaf(m.pt[a], false, 0));
        }
      case Store(a, off, v) =>
    }
  }

  lemma AroundSame(m0: Machine, m: Machine, m': Machine, live: set<Addr>, calm: bool, a: Addr)
    requires Around(m0, m, live, calm) && Inv(m') && SamePages(m, m', a) && (calm ==> a !in m0.pt)
    ensures Around(m0, m', live, calm)
  {
  }

  lemma AroundMap(m0: Machine, m: Machine, live: set<Addr>, calm: bool, a: Addr, prot: Prot, f: nat)
    requires Around(m0, m, live, calm) && Accepts(m, Map(a, prot, Some(f)))
    ensures Around(m0, Step(m, Map(a, prot, Some(f))), live + {a}, calm)
  {
    StepInv(m, Map(a, prot, Some(f)));
  }

  lemma AroundUnmap(m0: Machine, m: Machine, live: set<Addr>, calm: bool, a: Addr)
    requires Around(m0, m, live, calm) && a in live
    ensures Around(m0, Step(m, Unmap(a)), live - {a}, calm)
  {
    StepInv(m, Unmap(a));
  }

  lemma SameTableSameCounts(m0: Machine, m: Machine)
    requires Inv(m0) && Inv(m) && m.pt == m0.pt && m.ref.Keys == m0.ref.Keys
    ensures m.ref == m0.ref && m.used == m0.used
  {
    SameHoldsSameCounts(m0, m);
  }

  /** When nothing is live and no old page was swapped out, every count is back at its baseline. */
  lemma AroundEmpty(m0: Machine, m: Machine)
    requires Inv(m0) && Around(m0, m, {}, true)
    ensures m.pt == m0.pt && m.ref == m0.ref && m.used == m0.used
  {
    EmptyTable(m0, m);
    SameTableSameCounts(m0, m);
  }

  lemma EmptyTable(m0: Machine, m: Machine)
    requires Around(m0, m, {}, true)
    ensures m.pt == m0.pt
  {
    forall a: Addr ensures (a in m.pt <==> a in m0.pt) && (a in m.pt ==> m.pt[a] == m0.pt[a]) {
      assert a in m.pt.Keys <==> a in m0.pt.Keys;
    }
    assert m.pt.Keys == m0.pt.Keys;
  }

  // ─── the window ───

  ghost function Pages(pid: Pid, w: seq<nat>): set<Addr> {
    if w == [] then {}
    else Pages(pid, w[..|w| - 1]) + (if w[|w| - 1] != 0 then RegionPages(pid, w[|w| - 1], REGION_PAGES) else {})
  }

  ghost predicate InWindow(pid: Pid, w: seq<nat>, a: Addr) {
    exists i :: 0 <= i < |w| && w[i] != 0 && a in RegionPages(pid, w[i], REGION_PAGES)
  }

  lemma {:induction false} PagesAre(pid: Pid, w: seq<nat>, a: Addr)
    ensures a in Pages(pid, w) <==> InWindow(pid, w, a)
  {
    if w != [] {
      var most := w[..|w| - 1];
      PagesAre(pid, most, a);
      if InWindow(pid, most, a) {
        var i :| 0 <= i < |most| && most[i] != 0 && a in RegionPages(pid, most[i], REGION_PAGES);
        assert w[i] == most[i];
      }
      if InWindow(pid, w, a) {
        var i :| 0 <= i < |w| && w[i] != 0 && a in RegionPages(pid, w[i], REGION_PAGES);
        assert i < |most| ==> most[i] == w[i];
      }
    }
  }

  /** The regions of the window do not overlap. */
  ghost predicate Apart(w: seq<nat>) {
    forall i, j :: 0 <= i < j < |w| && w[i] != 0 && w[j] != 0 ==>
      w[i] + REGION_PAGES <= w[j] || w[j] + REGION_PAGES <= w[i]
  }

  ghost function RegionAt(pid: Pid, w: seq<nat>, i: nat): set<Addr>
    requires i < |w|
  {
    if w[i] != 0 then RegionPages(pid, w[i], REGION_PAGES) else {}
  }

  lemma WindowPut(pid: Pid, w: seq<nat>, i: nat, b: nat)
    requires i < |w| && Apart(w)
    requires b != 0 ==> RegionPages(pid, b, REGION_PAGES) !! Pages(pid, w)
    ensures Pages(pid, w[i := b]) == Pages(pid, w) - RegionAt(pid, w, i) + RegionAt(pid, w[i := b], i)
    ensures Apart(w[i := b])
  {
    var w' := w[i := b];
    forall a: Addr ensures a in Pages(pid, w') <==> a in Pages(pid, w) - RegionAt(pid, w, i) + RegionAt(pid, w', i) {
      PagesAre(pid, w, a);
      PagesAre(pid, w', a);
      WindowPutAt(pid, w, i, b, a);
    }
    forall j | 0 <= j < |w| && j != i && w[j] != 0 && b != 0
      ensures w[j] + REGION_PAGES <= b || b + REGION_PAGES <= w[j]
    {
      var p := if b <= w[j] then w[j] else b;
      PagesAre(pid, w, At(pid, p));
      assert w[j] <= p < w[j] + REGION_PAGES ==> At(pid, p) in RegionPages(pid, w[j], REGION_PAGES);
      assert b <= p < b + REGION_PAGES ==> At(pid, p) in RegionPages(pid, b, REGION_PAGES);
    }
  }

  lemma WindowPutAt(pid: Pid, w: seq<nat>, i: nat, b: nat, a: Addr)
    requires i < |w| && Apart(w)
    ensures InWindow(pid, w[i := b], a) <==>
      (InWindow(pid, w, a) && a !in RegionAt(pid, w, i)) || a in RegionAt(pid, w[i := b], i)
  {
    var w' := w[i := b];
    if InWindow(pid, w', a) {
      var j :| 0 <= j < |w'| && w'[j] != 0 && a in RegionPages(pid, w'[j], REGION_PAGES);
      assert j != i ==> w[j] == w'[j];
    }
    if InWindow(pid, w, a) && a !in RegionAt(pid, w, i) {
      var j :| 0 <= j < |w| && w[j] != 0 && a in RegionPages(pid, w[j], REGION_PAGES);
      assert w'[j] == w[j];
    }
  }

  /** Which round's region a window entry holds: every round so far is either unmapped once or still in its entry. */
  ghost predicate Logged(w: seq<nat>, held: seq<nat>, bases: seq<nat>, unmapped: seq<nat>) {
    && |w| == |held| == WINDOW
    && (forall i, j :: 0 <= i < j < |unmapped| ==> unmapped[i] != unmapped[j])
    && (forall q :: q in unmapped ==> q < |bases|)
    && (forall s :: 0 <= s < WINDOW && w[s] != 0 ==>
          held[s] < |bases| && held[s] % WINDOW == s && held[s] !in unmapped && w[s] == bases[held[s]])
    && (forall q :: 0 <= q < |bases| ==> q in unmapped || (w[q % WINDOW] != 0 && held[q % WINDOW] == q))
  }

  lemma LogUnmap(w: seq<nat>, held: seq<nat>, bases: seq<nat>, unmapped: seq<nat>, s: nat)
    requires Logged(w, held, bases, unmapped) && s < WINDOW && w[s] != 0
    ensures Logged(w[s := 0], held, bases, unmapped + [held[s]])
  {
    var w', u' := w[s := 0], unmapped + [held[s]];
    forall t | 0 <= t < WINDOW && w'[t] != 0
      ensures held[t] < |bases| && held[t] % WINDOW == t && held[t] !in u' && w'[t] == bases[held[t]]
    {
      assert w'[t] == w[t];
    }
    forall q | 0 <= q < |bases| ensures q in u' || (w'[q % WINDOW] != 0 && held[q % WINDOW] == q) {
      assert q in unmapped || (w[q % WINDOW] != 0 && held[q % WINDOW] == q);
      assert u'[|unmapped|] == held[s];
    }
  }

  lemma LogMap(w: seq<nat>, held: seq<nat>, bases: seq<nat>, unmapped: seq<nat>, b: nat)
    requires Logged(w, held, bases, unmapped) && w[|bases| % WINDOW] == 0 && b != 0
    ensures Logged(w[|bases| % WINDOW := b], held[|bases| % WINDOW := |bases|], bases + [b], unmapped)
  {
    var s := |bases| % WINDOW;
    var w', held', bases' := w[s := b], held[s := |bases|], bases + [b];
    forall t | 0 <= t < WINDOW && w'[t] != 0
      ensures held'[t] < |bases'| && held'[t] % WINDOW == t && held'[t] !in unmapped && w'[t] == bases'[held'[t]]
    {
      if t != s {
        assert w'[t] == w[t] && held'[t] == held[t];
      }
    }
    forall q | 0 <= q < |bases'| ensures q in unmapped || (w'[q % WINDOW] != 0 && held'[q % WINDOW] == q) {
      if q < |bases| {
        assert q in unmapped || (w[q % WINDOW] != 0 && held[q % WINDOW] == q);
      }
    }
  }

  // ─── the program ───

  class Process {
    var m: Machine
    var tick: nat
    const pid: Pid
    const window: array<nat>
    /** At every tick the reclaimer tries to swap out these pages to these slots. */
    const schedule: nat -> seq<(Addr, nat)>
    ghost const start: Machine
    ghost const calm: bool

    ghost predicate Valid(live: set<Addr>)
      reads this
    {
      Inv(start) && Around(start, m, live, calm) && (calm ==> forall t, x :: x in schedule(t) ==> x.0 !in start.pt)
    }

    constructor (m: Machine, pid: Pid, schedule: nat -> seq<(Addr, nat)>, ghost calm: bool)
      requires Inv(m) && (calm ==> forall t, x :: x in schedule(t) ==> x.0 !in m.pt)
      ensures Valid({}) && this.m == m == start && this.pid == pid && this.schedule == schedule && this.calm == calm
      ensures fresh(window) && window[..] == seq(WINDOW, _ => 0)
    {
      this.m, this.tick, this.pid, this.schedule := m, 0, pid, schedule;
      this.start, this.calm := m, calm;
      this.window := new nat[WINDOW](_ => 0);
    }

    /** One round of memory pressure. */
    method Pressure(ghost live: set<Addr>)
      requires Valid(live)
      modifies this`m, this`tick
      ensures Valid(live)
    {
      var victims := schedule(tick);
      tick := tick + 1;
      var i := 0;
      while i < |victims|
        invariant i <= |victims| && Valid(live)
      {
        var op := Reclaim(victims[i].0, victims[i].1);
        assert victims[i] in victims;
        FaultsKeepPages(m, op);
        AroundSame(start, m, Step(m, op), live, calm, op.a);
        m := Step(m, op);
        i := i + 1;
      }
    }

    method FreeFrameIn() returns (pick: Option<nat>)
      ensures pick.Some? ==> FreeFrame(m, pick.value)
      ensures pick.None? ==> forall f :: f in m.ref ==> m.ref[f] > 0
    {
      var free := set f | f in m.ref && m.ref[f] == 0;
      if free == {} {
        assert forall f :: f in m.ref && m.ref[f] == 0 ==> f in free;
        return None;
      }
      var f :| f in free;
      pick := Some(f);
    }

    /** The first base, from 1 up, whose pages are all free; 0 when there is none. */
    method FindFreeRange() returns (b: nat)
      ensures b != 0 ==> b + REGION_PAGES <= m.pages && RegionPages(pid, b, REGION_PAGES) !! m.pt.Keys
      ensures forall c :: 0 < c && c + REGION_PAGES <= m.pages && (b == 0 || c < b) ==>
        !(RegionPages(pid, c, REGION_PAGES) !! m.pt.Keys)
    {
      b := 1;
      while b + REGION_PAGES <= m.pages
        invariant b > 0
        invariant forall c :: 0 < c < b && c + REGION_PAGES <= m.pages ==>
          !(RegionPages(pid, c, REGION_PAGES) !! m.pt.Keys)
        decreases m.pages - b
      {
        if forall p :: b <= p < b + REGION_PAGES ==> At(pid, p) !in m.pt {
          return;
        }
        ghost var p :| b <= p < b + REGION_PAGES && At(pid, p) in m.pt;
        assert At(pid, p) in RegionPages(pid, b, REGION_PAGES);
        b := b + 1;
      }
      b := 0;
    }

    /** Unmap `k` pages from `b`. */
    method UnmapPages(b: nat, k: nat, ghost live: set<Addr>)
      requires Valid(live + RegionPages(pid, b, k)) && live !! RegionPages(pid, b, k)
      modifies this`m, this`tick
      ensures Valid(live)
    {
      var p, left := b, k;
      ghost var all := live + RegionPages(pid, b, k);
      assert Split(all, live, pid, p, left);
      while left > 0
        invariant Valid(all) && Split(all, live, pid, p, left)
      {
        SplitFirst(all, live, pid, p, left);
        UnmapPage(At(pid, p), all);
        all := all - {At(pid, p)};
        p, left := p + 1, left - 1;
      }
      SplitEnd(all, live, pid, p);
    }

    method UnmapPage(a: Addr, ghost live: set<Addr>)
      requires Valid(live) && a in live
      modifies this`m, this`tick
      ensures Valid(live - {a})
    {
      Pressure(live);
      AroundUnmap(start, m, live, calm, a);
      m := Step(m, Unmap(a));
    }

    method MapPage(a: Addr, ghost live: set<Addr>) returns (ok: bool)
      requires Valid(live) && a.page < m.pages && a !in m.pt
      modifies this`m, this`tick
      ensures Valid(if ok then live + {a} else live) && m.pages == old(m.pages)
    {
      Pressure(live);
      var pick := FreeFrameIn();
      if pick.None? {
        return false;
      }
      AroundMap(start, m, live, calm, a, READ_WRITE, pick.value);
      m := Step(m, Map(a, READ_WRITE, pick));
      ok := true;
    }

    /** Map a region of zeroed pages; on failure give back what was mapped. */
    method MapRegion(ghost live: set<Addr>) returns (b: nat)
      requires Valid(live)
      modifies this`m, this`tick
      ensures b == 0 ==> Valid(live)
      ensures b != 0 ==> Valid(live + RegionPages(pid, b, REGION_PAGES)) && live !! RegionPages(pid, b, REGION_PAGES)
    {
      b := FindFreeRange();
      if b == 0 {
        return;
      }
      RegionNone(pid, b, live);
      var k := 0;
      while k < REGION_PAGES
        invariant k <= REGION_PAGES && b + REGION_PAGES <= m.pages
        invariant Valid(live + RegionPages(pid, b, k)) && (start.pt.Keys + live) !! RegionPages(pid, b, REGION_PAGES)
      {
        RegionNext(pid, b, k, live);
        var ok := MapPage(At(pid, b + k), live + RegionPages(pid, b, k));
        if !ok {
          UnmapPages(b, k, live);
          return 0;
        }
        k := k + 1;
      }
    }

    /** Store a word into every page of the region at `b`, taking the faults it needs. */
    method TouchAll(b: nat, tag: int, ghost live: set<Addr>)
      requires Valid(live) && RegionPages(pid, b, REGION_PAGES) <= live
      modifies this`m, this`tick
      ensures Valid(live)
    {
      var k := 0;
      while k < REGION_PAGES
        invariant k <= REGION_PAGES && Valid(live)
      {
        Pressure(live);
        var a := At(pid, b + k);
        assert a in RegionPages(pid, b, REGION_PAGES);
        var pick := FreeFrameIn();
        Fault(SwapIn(a, pick), live);
        Fault(CowFault(a, pick), live);
        Fault(Store(a, 0, tag), live);
        k := k + 1;
      }
    }

    method Fault(op: Op, ghost live: set<Addr>)
      requires Valid(live) && (op.SwapIn? || op.CowFault? || op.Store?) && op.a in live
      modifies this`m
      ensures Valid(live) && m == Step(old(m), op)
    {
      FaultsKeepPages(m, op);
      AroundSame(start, m, Step(m, op), live, calm, op.a);
      m := Step(m, op);
    }

    /** One round: map, touch, unmap the region that leaves the window. */
    method Round(r: nat, ghost held: seq<nat>, ghost bases: seq<nat>, ghost unmapped: seq<nat>)
      returns (b: nat, ghost held': seq<nat>, ghost bases': seq<nat>, ghost unmapped': seq<nat>)
      requires window.Length == WINDOW && r == |bases|
      requires Valid(Pages(pid, window[..])) && Apart(window[..]) && Logged(window[..], held, bases, unmapped)
      modifies this`m, this`tick, window
      ensures Valid(Pages(pid, window[..])) && Apart(window[..]) && Logged(window[..], held', bases', unmapped')
      ensures if b == 0 then bases' == bases && unmapped' == unmapped else bases' == bases + [b]
    {
      held', bases', unmapped' := held, bases, unmapped;
      var slot := r % WINDOW;
      ghost var w := window[..];
      b := MapRegion(Pages(pid, w));
      if b == 0 {
        return;
      }
      ghost var added := RegionPages(pid, b, REGION_PAGES);
      TouchAll(b, r, Pages(pid, w) + added);
      unmapped' := Release(slot, w, added, held, bases, unmapped);
      w := w[slot := 0];
      WindowPut(pid, w, slot, b);
      LogMap(w, held, bases, unmapped', b);
      window[slot] := b;
      held', bases' := held[slot := r], bases + [b];
      assert window[..] == w[slot := b];
    }

    /** Unmap the region in a window entry, if there is one. */
    method Release(slot: nat, ghost w: seq<nat>, ghost added: set<Addr>,
                   ghost held: seq<nat>, ghost bases: seq<nat>,
                     ghost unmapped: seq<nat>) returns (ghost unmapped': seq<nat>)
      requires window[..] == w && slot < |w| && Apart(w) && Logged(w, held, bases, unmapped)
      requires Valid(Pages(pid, w) + added) && added !! Pages(pid, w)
      modifies this`m, this`tick
      ensures Valid(Pages(pid, w[slot := 0]) + added) && added !! Pages(pid, w[slot := 0]) && Apart(w[slot := 0])
      ensures Logged(w[slot := 0], held, bases, unmapped')
    {
      unmapped' := unmapped;
      if window[slot] != 0 {
        Evict(pid, w, slot, added);
        UnmapPages(window[slot], REGION_PAGES, Pages(pid, w[slot := 0]) + added);
        LogUnmap(w, held, bases, unmapped, slot);
        unmapped' := unmapped + [held[slot]];
      } else {
        assert w[slot := 0] == w;
      }
    }

    /** The whole churn. For every number of rounds and every schedule: each round's region is unmapped exactly once,
        the window ends empty, the page tables hold the pages they held before; and when no page of before was swapped
        out meanwhile, every frame count and every swap slot is back at its baseline. Between rounds the pages added are
        those of the at most WINDOW regions of the window. */
    method ChurnRounds(rounds: nat) returns (ok: bool, ghost bases: seq<nat>, ghost unmapped: seq<nat>)
      requires window.Length == WINDOW && window[..] == seq(WINDOW, _ => 0) && Valid({})
      modifies this`m, this`tick, window
      ensures ok ==> |bases| == rounds && forall q :: q in unmapped <==> 0 <= q < rounds
      ensures forall i, j :: 0 <= i < j < |unmapped| ==> unmapped[i] != unmapped[j]
      ensures ok ==> window[..] == seq(WINDOW, _ => 0) && Inv(m) && m.pt.Keys == start.pt.Keys
      ensures ok && calm ==> m.pt == start.pt && m.ref == start.ref && m.used == start.used
      ensures !ok ==> Valid(Pages(pid, window[..]))
    {
      ghost var held := seq(WINDOW, _ => 0);
      bases, unmapped, ok := [], [], true;
      var r := 0;
      EmptyWindow(pid, window[..]);
      while r < rounds
        invariant r <= rounds && r == |bases|
        invariant Valid(Pages(pid, window[..])) && Apart(window[..]) && Logged(window[..], held, bases, unmapped)
      {
        var b;
        b, held, bases, unmapped := Round(r, held, bases, unmapped);
        if b == 0 {
          ok := false;
          return;
        }
        r := r + 1;
      }
      unmapped := Drain(held, bases, unmapped);
      EmptyWindow(pid, window[..]);
      if calm {
        AroundEmpty(start, m);
      }
    }

    /** Unmap what is left in the window. */
    method Drain(ghost held: seq<nat>, ghost bases: seq<nat>,
      ghost unmapped: seq<nat>) returns (ghost unmapped': seq<nat>)
      requires window.Length == WINDOW
      requires Valid(Pages(pid, window[..])) && Apart(window[..]) && Logged(window[..], held, bases, unmapped)
      modifies this`m, this`tick, window
      ensures Valid(Pages(pid, window[..])) && Logged(window[..], held, bases, unmapped') &&
        window[..] == seq(WINDOW, _ => 0)
    {
      unmapped' := unmapped;
      var i := 0;
      while i < WINDOW
        invariant i <= WINDOW && forall j :: 0 <= j < i ==> window[j] == 0
        invariant Valid(Pages(pid, window[..])) && Apart(window[..]) && Logged(window[..], held, bases, unmapped')
      {
        ghost var w := window[..];
        assert Pages(pid, w) + {} == Pages(pid, w);
        unmapped' := Release(i, w, {}, held, bases, unmapped');
        assert Pages(pid, w[i := 0]) + {} == Pages(pid, w[i := 0]);
        window[i] := 0;
        assert window[..] == w[i := 0];
        i := i + 1;
      }
    }
  }

  lemma RegionNone(pid: Pid, b: nat, live: set<Addr>)
    ensures live + RegionPages(pid, b, 0) == live
  {
  }

  ghost predicate Split(all: set<Addr>, live: set<Addr>, pid: Pid, b: nat, k: nat) {
    all == live + RegionPages(pid, b, k) && live !! RegionPages(pid, b, k)
  }

  lemma SplitFirst(all: set<Addr>, live: set<Addr>, pid: Pid, b: nat, k: nat)
    requires k > 0 && Split(all, live, pid, b, k)
    ensures At(pid, b) in all && Split(all - {At(pid, b)}, live, pid, b + 1, k - 1)
  {
    assert RegionPages(pid, b, k) == {At(pid, b)} + RegionPages(pid, b + 1, k - 1);
  }

  lemma SplitEnd(all: set<Addr>, live: set<Addr>, pid: Pid, b: nat)
    requires Split(all, live, pid, b, 0)
    ensures all == live
  {
    assert RegionPages(pid, b, 0) == {};
  }

  lemma RegionNext(pid: Pid, b: nat, k: nat, live: set<Addr>)
    requires k < REGION_PAGES
    ensures At(pid, b + k) in RegionPages(pid, b, REGION_PAGES) && At(pid, b + k) !in RegionPages(pid, b, k)
    ensures live + RegionPages(pid, b, k) + {At(pid, b + k)} == live + RegionPages(pid, b, k + 1)
    ensures RegionPages(pid, b, k) <= RegionPages(pid, b, REGION_PAGES)
  {
    assert RegionPages(pid, b, k + 1) == RegionPages(pid, b, k) + {At(pid, b + k)};
  }

  lemma RegionInside(pid: Pid, w: seq<nat>, i: nat)
    requires i < |w| && w[i] != 0
    ensures RegionPages(pid, w[i], REGION_PAGES) <= Pages(pid, w)
  {
    forall a | a in RegionPages(pid, w[i], REGION_PAGES) ensures a in Pages(pid, w) {
      PagesAre(pid, w, a);
    }
  }

  lemma Evict(pid: Pid, w: seq<nat>, i: nat, added: set<Addr>)
    requires i < |w| && w[i] != 0 && Apart(w) && added !! Pages(pid, w)
    ensures Apart(w[i := 0]) && added !! Pages(pid, w[i := 0])
    ensures var rest := Pages(pid, w[i := 0]) + added;
      Pages(pid, w) + added == rest + RegionPages(pid, w[i], REGION_PAGES) &&
        rest !! RegionPages(pid, w[i], REGION_PAGES)
  {
    WindowPut(pid, w, i, 0);
    RegionInside(pid, w, i);
  }

  lemma EmptyWindow(pid: Pid, w: seq<nat>)
    requires forall i :: 0 <= i < |w| ==> w[i] == 0
    ensures Pages(pid, w) == {}
  {
    if w != [] {
      EmptyWindow(pid, w[..|w| - 1]);
    }
  }
}
