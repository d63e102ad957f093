/** Runs in which an ext2 call given "." or ".." as its last name takes a directory's own record away. */
module Ext2Dots {
  import opened Basics
  import opened ParentTree
  import opened Ext2Links
  import opened Ext2Tree
  import opened Ext2Names

  const MKDIR_A: Op := Mkdir(ROOT, "a", 11, 0, None)

  /** The root with one empty directory. */
  function DirA(): Fs {
    Fs(map[0 := Rec(ROOT, "a", 11)], map[ROOT := ROOT, 11 := ROOT], map[ROOT := 3, 11 := 2], {}, {},
       map[0 := Slot(11, 1, false)], {}, {})
  }

  lemma MkdirA()
    ensures Step(Bare(), MKDIR_A) == DirA() && Inv(DirA())
  {
    assert "a" != "." && "a" != "..";
    FreeSlotIs(map[], 0);
    assert Lookup(Bare().recs, ROOT, "a").None?;
    assert Step(Bare(), MKDIR_A) == DirA();
    BareInv();
    StepInvExactly(Bare(), MKDIR_A);
  }

  lemma RunTwo(fs: Fs, x: Op, y: Op)
    ensures Run(fs, [x, y]) == Step(Step(fs, x), y)
  {
    RunSnoc(fs, [], x);
    RunSnoc(fs, [x], y);
    assert [] + [x] == [x] && [x] + [y] == [x, y];
  }

  /** mkdir /a, rmdir /a/. : accepted. The inode is freed, the name "a" stays, and the root still counts it. */
  lemma RmdirDotLeavesName()
    ensures var fs := Run(Bare(), [MKDIR_A, Rmdir(11, ".")]);
      && Call(DirA(), Rmdir(11, ".")).code == 0
      && fs.recs == map[0 := Rec(ROOT, "a", 11)] && 11 !in fs.links && 11 !in fs.up
      && fs.links == map[ROOT := 3] && Due(fs, ROOT) == 2
  {
    MkdirA();
    RunTwo(Bare(), MKDIR_A, Rmdir(11, "."));
    RmdirDotRemoves(DirA(), 11);
    RemovedByDot();
  }

  lemma RmdirDotRemoves(fs: Fs, dir: nat)
    requires DotRec(fs, dir, ".") && EmptyDir(fs.recs, dir)
    ensures Call(fs, Rmdir(dir, ".")) == RmdirDot(fs, dir, ".") && RmdirDot(fs, dir, ".").code == 0
  {
  }

  lemma RemovedByDot()
    ensures var fs := RmdirDot(DirA(), 11, ".").fs;
      && fs.recs == map[0 := Rec(ROOT, "a", 11)] && fs.up == map[ROOT := ROOT]
      && fs.links == map[ROOT := 3] && Due(fs, ROOT) == 2
  {
    assert DotRec(DirA(), 11, ".") && EmptyDir(DirA().recs, 11);
    var fs := RmdirDot(DirA(), 11, ".").fs;
    assert fs.up == map[ROOT := ROOT] && fs.links == map[ROOT := 3];
    assert Subs(fs.recs, fs.up.Keys, ROOT) == {};
  }

  lemma RenameDotMoves(fs: Fs, src: nat, was: string, dir: nat, name: string, at: nat)
    requires DotRec(fs, src, was) && dir in fs.up && !Dots(name) && at !in fs.recs && Lookup(fs.recs, dir, name).None?
    requires ClimbCode(fs, DotIno(fs, src, was), dir) == 0
    ensures Call(fs, Rename(src, was, dir, name, at, false)) ==
      Outcome(0, DotMoved(fs, src, was, at, Rec(dir, name, DotIno(fs, src, was))))
  {
  }

  /** The climb from the root is the root. */
  lemma RootClimb(fs: Fs, i: nat)
    requires i != ROOT && fs.noUp == {}
    ensures ClimbCode(fs, i, ROOT) == 0
  {
    assert Chain(fs.up, ROOT, ROOT, MAX_CHAIN) == [ROOT];
  }

  /** mkdir /a, rename /a/. to /b: accepted. One directory has two names, and its own count and the root's are wrong. */
  lemma RenameDotDoublesDirectory()
    ensures var op := Rename(11, ".", ROOT, "b", 1, false);
      var fs := Run(Bare(), [MKDIR_A, op]);
      && Call(DirA(), op).code == 0
      && fs.recs == map[0 := Rec(ROOT, "a", 11), 1 := Rec(ROOT, "b", 11)]
      && fs.links == map[ROOT := 4, 11 := 1] && Due(fs, 11) == 2
  {
    var op := Rename(11, ".", ROOT, "b", 1, false);
    MkdirA();
    RunTwo(Bare(), MKDIR_A, op);
    assert "b" != "." && "b" != ".." && "a" != "b";
    assert Lookup(DirA().recs, ROOT, "b").None?;
    RootClimb(DirA(), 11);
    RenameDotMoves(DirA(), 11, ".", ROOT, "b", 1);
    MovedByDot();
  }

  lemma MovedByDot()
    ensures var fs := DotMoved(DirA(), 11, ".", 1, Rec(ROOT, "b", 11));
      && fs.recs == map[0 := Rec(ROOT, "a", 11), 1 := Rec(ROOT, "b", 11)]
      && fs.links == map[ROOT := 4, 11 := 1] && Due(fs, 11) == 2
  {
    var fs := DotMoved(DirA(), 11, ".", 1, Rec(ROOT, "b", 11));
    assert Adjust(DirA().links, 11, ROOT, (-1, 1)) == map[ROOT := 4, 11 := 1];
    assert 11 in fs.up && Subs(fs.recs, fs.up.Keys, 11) == {};
  }

  const MKDIR_B: Op := Mkdir(11, "b", 12, 1, None)

  function DirAB(): Fs {
    Fs(map[0 := Rec(ROOT, "a", 11), 1 := Rec(11, "b", 12)], map[ROOT := ROOT, 11 := ROOT, 12 := 11],
       map[ROOT := 3, 11 := 3, 12 := 2], {}, {}, map[0 := Slot(11, 1, false)], {}, {})
  }

  lemma MkdirB()
    ensures Step(DirA(), MKDIR_B) == DirAB()
  {
    assert "b" != "." && "b" != "..";
    FreeSlotIs(DirA().slots, 1);
    assert Lookup(DirA().recs, 11, "b").None?;
    MkdirOutcome(DirA(), 11, "b", 12, 1, None);
  }

  /** mkdir /a, mkdir /a/b, rename /a/b/.. to /c: accepted. The directory a is now c as well, and b has no "..". */
  lemma RenameDotDotDoublesDirectory()
    ensures var op := Rename(12, "..", ROOT, "c", 2, false);
      var fs := Run(Bare(), [MKDIR_A, MKDIR_B, op]);
      && Call(DirAB(), op).code == 0
      && fs.recs == map[0 := Rec(ROOT, "a", 11), 1 := Rec(11, "b", 12), 2 := Rec(ROOT, "c", 11)]
      && fs.links == map[ROOT := 4, 11 := 3, 12 := 1] && fs.noUp == {12}
  {
    var op := Rename(12, "..", ROOT, "c", 2, false);
    MkdirA();
    MkdirB();
    RunThree(Bare(), MKDIR_A, MKDIR_B, op);
    CallDotDot();
    MovedByDotDot();
  }

  lemma CallDotDot()
    ensures Call(DirAB(), Rename(12, "..", ROOT, "c", 2, false)) ==
      Outcome(0, DotMoved(DirAB(), 12, "..", 2, Rec(ROOT, "c", 11)))
  {
    assert "c" != "." && "c" != ".." && "a" != "c";
    assert Lookup(DirAB().recs, ROOT, "c").None?;
    RootClimb(DirAB(), 11);
    RenameDotMoves(DirAB(), 12, "..", ROOT, "c", 2);
  }

  lemma MovedByDotDot()
    ensures var fs := DotMoved(DirAB(), 12, "..", 2, Rec(ROOT, "c", 11));
      && fs.recs == map[0 := Rec(ROOT, "a", 11), 1 := Rec(11, "b", 12), 2 := Rec(ROOT, "c", 11)]
      && fs.links == map[ROOT := 4, 11 := 3, 12 := 1] && fs.noUp == {12}
  {
    assert Adjust(DirAB().links, 12, ROOT, (-1, 1)) == map[ROOT := 4, 11 := 3, 12 := 1];
  }

  // ─── a dot name added ───

  /** With every open slot taken, mkdir of "." fails and leaves a record of that name. */
  lemma FullTableAddsDot()
    ensures var before := Run(Step(Bare(), Create(ROOT, "a", 11, 0, None)), seq(15, _ => Open(ROOT, "a", None)));
      var out := Call(before, Mkdir(ROOT, ".", 12, 1, None));
      out.code == -1 && out.fs.recs == map[0 := Rec(ROOT, "a", 11), 1 := Rec(ROOT, ".", 12)]
  {
    CreateA();
    OpenAgain(15);
    FullTableMkdirDot(FileA().(slots := Taken(15)));
  }

  lemma FullTableMkdirDot(fs: Fs)
    requires fs == FileA().(slots := Taken(15))
    ensures var out := Call(fs, Mkdir(ROOT, ".", 12, 1, None));
      out.code == -1 && out.fs.recs == map[0 := Rec(ROOT, "a", 11), 1 := Rec(ROOT, ".", 12)]
  {
    forall k: nat ensures k in Taken(15) <==> k <= 15 {
      TakenKeys(15, k);
    }
    assert FreeSlot(fs.slots).None? && Seen(fs, ROOT, ".", None).None?;
    MkdirNames(fs, ROOT, ".", 12, 1, None);
  }
}
