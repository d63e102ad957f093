/** Runs from boot that end where the kernel's memory is not the plain machine's. */
module MemoryRuns {
  import opened Basics
  import opened PteBits
  import opened PagedMemory
  import opened PlainMemory
  import opened MemoryTheorems

  const HOME := At(1, 0)
  const COPY := At(2, 0)
  const SLOT: nat := 5

  function OneWord(): Contents { ZeroPage()[0 := 7] }

  /** Two free frames, nothing mapped, no swap device. */
  function Booted(): Machine {
    Machine(1, map[], map[1 := ZeroPage(), 2 := ZeroPage()], map[1 := 0, 2 := 0], map[], {}, Disabled, {})
  }

  lemma BootedIsInit()
    ensures Init(Booted())
  {
  }

  lemma ThreeSteps(m: Machine, a: Op, b: Op, c: Op)
    ensures Run(m, [a, b, c]) == Step(Step(Step(m, a), b), c)
  {
    assert [a, b, c][..2] == [a, b] && [a, b][..1] == [a] && [a][..0] == [];
    assert Run(m, [a]) == Step(m, a);
  }

  lemma FiveSteps(m: Machine, a: Op, b: Op, c: Op, d: Op, e: Op)
    ensures Run(m, [a, b, c, d, e]) == Step(Step(Step(Step(Step(m, a), b), c), d), e)
  {
    ThreeSteps(m, a, b, c);
    assert [a, b, c, d, e][..4] == [a, b, c, d] && [a, b, c, d][..3] == [a, b, c];
  }

  // ─── a page on the swap device ───

  /** A device is armed, a writable page mapped and one word stored. */
  function Stored(): Machine {
    Machine(1, map[HOME := Present(1, true, false, true)], map[1 := OneWord(), 2 := ZeroPage()], map[1 := 1, 2 := 0],
            map[], {}, Armed, {SLOT})
  }

  /** The page is on the device. */
  function Evicted(): Machine {
    Machine(1, map[HOME := Swap(SLOT, true, false, true)], map[1 := OneWord(), 2 := ZeroPage()], map[1 := 0, 2 := 0],
            map[SLOT := OneWord()], {SLOT}, Armed, {SLOT})
  }

  lemma ReachStored()
    ensures Step(Step(Step(Booted(), SwapOn({SLOT})), Map(HOME, READ_WRITE, Some(1))), Store(HOME, 0, 7)) == Stored()
  {
    var m1 := Step(Booted(), SwapOn({SLOT}));
    var m2 := Step(m1, Map(HOME, READ_WRITE, Some(1)));
    assert m2.pt == map[HOME := Present(1, true, false, true)];
    assert m2.mem == map[1 := ZeroPage(), 2 := ZeroPage()];
    assert m2.ref == map[1 := 1, 2 := 0];
    var m3 := Step(m2, Store(HOME, 0, 7));
    assert m3.mem == map[1 := OneWord(), 2 := ZeroPage()];
  }

  lemma ReachEvicted()
    ensures Step(Stored(), Reclaim(HOME, SLOT)) == Evicted()
  {
    var m := Step(Stored(), Reclaim(HOME, SLOT));
    assert m.pt == map[HOME := Swap(SLOT, true, false, true)];
    assert m.ref == map[1 := 0, 2 := 0];
    assert m.disk == map[SLOT := OneWord()];
    assert m.used == {SLOT};
  }

  /** Arm a device, map a page, write to it, let it be evicted, then do `last`. */
  function Eviction(last: Op): seq<Op> {
    [SwapOn({SLOT}), Map(HOME, READ_WRITE, Some(1)), Store(HOME, 0, 7), Reclaim(HOME, SLOT), last]
  }

  lemma AfterEviction(last: Op)
    ensures Run(Booted(), Eviction(last)) == Step(Evicted(), last)
  {
    FiveSteps(Booted(), SwapOn({SLOT}), Map(HOME, READ_WRITE, Some(1)), Store(HOME, 0, 7), Reclaim(HOME, SLOT), last);
    ReachStored();
    ReachEvicted();
  }

  lemma ForkWalksOne(m: Machine)
    requires m.pages == 1 && forall a :: a in m.pt ==> a.pid != 2
    ensures Step(m, Fork(1, 2)) == ForkLeaf(m, 1, 2, 0)
  {
    assert ForkUpTo(m, 1, 2, 0) == m;
  }

  /** A fork while the page is evicted: the parent still has it, the child does not, and on the plain machine it would.
      */
  lemma ForkDropsEvicted()
    ensures var m := Run(Booted(), Eviction(Fork(1, 2)));
      && HOME in Abs(m) && Abs(m)[HOME] == Cell(OneWord(), true, true) && COPY !in Abs(m)
      && COPY in PlainStep(Abs(Evicted()), Fork(1, 2), true)
  {
    AfterEviction(Fork(1, 2));
    ForkWalksOne(Evicted());
    assert HOME in Abs(Evicted()) && HOME.pid == 1 && COPY == At(2, HOME.page);
    assert COPY in CopyOf(Abs(Evicted()), 1, 2);
  }

  /** MADV_DONTNEED while the page is evicted: its contents stay. */
  lemma DontNeedKeepsEvicted()
    ensures var m := Run(Booted(), Eviction(DontNeed(HOME, None)));
      HOME in Abs(m) && Abs(m)[HOME].data == OneWord() != ZeroPage()
  {
    AfterEviction(DontNeed(HOME, None));
    assert OneWord()[0] == 7 && ZeroPage()[0] == 0;
  }

  // ─── a page shared by fork ───

  function Forked(): Machine {
    Machine(1, map[HOME := Present(1, false, true, true), COPY := Present(1, false, true, true)],
            map[1 := ZeroPage(), 2 := ZeroPage()], map[1 := 2, 2 := 0], map[], {}, Disabled, {})
  }

  function Mapped(): Machine {
    Machine(1, map[HOME := Present(1, true, false, true)], map[1 := ZeroPage(), 2 := ZeroPage()], map[1 := 1, 2 := 0],
            map[], {}, Disabled, {})
  }

  lemma ReachMapped()
    ensures Step(Booted(), Map(HOME, READ_WRITE, Some(1))) == Mapped()
  {
    var m := Step(Booted(), Map(HOME, READ_WRITE, Some(1)));
    assert m.mem == map[1 := ZeroPage(), 2 := ZeroPage()];
    assert m.ref == map[1 := 1, 2 := 0];
  }

  lemma ReachForked()
    ensures Step(Mapped(), Fork(1, 2)) == Forked()
  {
    ForkWalksOne(Mapped());
    var m1 := PutLeaf(Mapped(), HOME, Present(1, false, true, true));
    assert m1.ref == map[1 := 1, 2 := 0];
    var m2 := PutLeaf(m1, COPY, Present(1, false, true, true));
    assert m2.ref == map[1 := 2, 2 := 0];
    assert m2.pt == Forked().pt;
  }

  lemma ReadOnlyKeepsMarker()
    ensures Step(Forked(), Protect(COPY, READ_ONLY, None)) == Forked()
  {
    var m := Step(Forked(), Protect(COPY, READ_ONLY, None));
    assert m.pt == Forked().pt;
    assert m.ref == Forked().ref;
  }

  /** Map a writable page, fork, make the child's copy read-only: the child can still write it, because the
      copy-on-write marker stays and the write fault honours it. */
  lemma ReadOnlyCopyWritable()
    ensures var m := Run(Booted(), [Map(HOME, READ_WRITE, Some(1)), Fork(1, 2), Protect(COPY, READ_ONLY, None)]);
      && COPY in Abs(m) && Abs(m)[COPY].w
      && Accepts(Step(m, CowFault(COPY, Some(2))), Store(COPY, 0, 7))
  {
    ThreeSteps(Booted(), Map(HOME, READ_WRITE, Some(1)), Fork(1, 2), Protect(COPY, READ_ONLY, None));
    ReachMapped();
    ReachForked();
    ReadOnlyKeepsMarker();
    var m := Step(Forked(), CowFault(COPY, Some(2)));
    assert m.pt[COPY] == Present(2, true, false, true);
    assert m.mem[2] == ZeroPage();
  }
}
