/** Which ext2 calls can leave a name twice, which failing calls leave something behind, and runs that show it. */
module Ext2Names {
  import opened Basics
  import opened ParentTree
  import opened Ext2Links
  import opened Ext2Tree

  predicate SameName(x: Rec, y: Rec) { x.dir == y.dir && x.name == y.name }

  /** No directory holds a name twice. */
  ghost predicate Unique(recs: map<nat, Rec>) {
    forall r, q :: r in recs && q in recs && SameName(recs[r], recs[q]) ==> r == q
  }

  /** open(O_CREAT) or mkdir that goes on to add a record. */
  ghost predicate Adds(fs: Fs, op: Op) {
    (op.Create? || op.Mkdir?) && !OnDots(fs, op) && op.dir in fs.up && Seen(fs, op.dir, op.name, op.target).None? &&
      !NoInode(fs, op.ino) && op.at !in fs.recs
  }

  /** The target of a file's rename is another link of the file. */
  ghost predicate OntoOwnLink(fs: Fs, op: Op) {
    op.Rename? && !OnDots(fs, op) && op.dir in fs.up && !Dots(op.name) && !op.noreplace && op.at !in fs.recs &&
    !(op.src == op.dir && op.was == op.name) &&
    var r, v := Lookup(fs.recs, op.src, op.was), Lookup(fs.recs, op.dir, op.name);
    r.Some? && v.Some? && fs.recs[r.value].ino == fs.recs[v.value].ino && fs.recs[r.value].ino !in fs.up
  }

  /** A name that exists is not seen exactly when the open-file table is full or it is a symbolic link that leads
      nowhere. */
  lemma UnseenExactly(fs: Fs, dir: nat, name: string, target: Option<nat>)
    ensures var v := Lookup(fs.recs, dir, name);
      v.Some? ==>
        (Seen(fs, dir, name, target).None? <==>
           (forall k :: 0 <= k < MAX_OPEN ==> k in fs.slots)
           || (fs.recs[v.value].ino in fs.syms && (target.None? || !Named(fs, target.value))))
  {
  }

  lemma Added(recs: map<nat, Rec>, at: nat, x: Rec)
    requires Unique(recs) && at !in recs
    ensures Unique(recs[at := x]) <==> Lookup(recs, x.dir, x.name).None?
  {
    var v := Lookup(recs, x.dir, x.name);
    if v.Some? {
      assert SameName(recs[at := x][v.value], recs[at := x][at]) && v.value != at;
    }
  }

  lemma Kept(recs: map<nat, Rec>, recs': map<nat, Rec>)
    requires Unique(recs) && forall r :: r in recs' ==> r in recs && SameName(recs'[r], recs[r])
    ensures Unique(recs')
  {
  }

  lemma Moved(recs: map<nat, Rec>, r: nat, at: nat, x: Rec)
    requires Unique(recs) && r in recs && at !in recs && !SameName(recs[r], x)
    ensures Unique(recs[at := x] - {r}) <==> Lookup(recs, x.dir, x.name).None?
  {
    var v, recs' := Lookup(recs, x.dir, x.name), recs[at := x] - {r};
    if v.Some? {
      assert v.value in recs' && at in recs' && SameName(recs'[v.value], recs'[at]) && v.value != at;
    }
  }

  lemma RenameUnique(fs: Fs, op: Op)
    requires Unique(fs.recs) && op.Rename? && !OnDots(fs, op)
    ensures Unique(Step(fs, op).recs) <==> !OntoOwnLink(fs, op)
  {
    var r, v := Lookup(fs.recs, op.src, op.was), Lookup(fs.recs, op.dir, op.name);
    if op.dir in fs.up && !Dots(op.name) && r.Some? && !(op.src == op.dir && op.was == op.name) {
      if fs.recs[r.value].ino in fs.up {
        DirRenameUnique(fs, r.value, op.dir, op.name, op.at, op.noreplace);
      } else {
        FileRenameUnique(fs, r.value, op.dir, op.name, op.at, op.noreplace);
      }
    }
  }

  lemma DirRenameUnique(fs: Fs, r: nat, dir: nat, name: string, at: nat, noreplace: bool)
    requires Unique(fs.recs) && r in fs.recs && !(fs.recs[r].dir == dir && fs.recs[r].name == name)
    ensures Unique(DirRename(fs, r, dir, name, at, noreplace).fs.recs)
  {
    var v, out := Lookup(fs.recs, dir, name), DirRename(fs, r, dir, name, at, noreplace);
    if v.Some? {
      Kept(fs.recs, out.fs.recs);
    } else if out.code == 0 {
      Moved(fs.recs, r, at, Rec(dir, name, fs.recs[r].ino));
    }
  }

  lemma FileRenameUnique(fs: Fs, r: nat, dir: nat, name: string, at: nat, noreplace: bool)
    requires Unique(fs.recs) && r in fs.recs && !(fs.recs[r].dir == dir && fs.recs[r].name == name)
    ensures var v := Lookup(fs.recs, dir, name);
      Unique(FileRename(fs, r, dir, name, at, noreplace).fs.recs)
      <==> !(v.Some? && fs.recs[v.value].ino == fs.recs[r].ino && !noreplace && at !in fs.recs)
  {
    var v, out := Lookup(fs.recs, dir, name), FileRename(fs, r, dir, name, at, noreplace);
    if v.Some? && fs.recs[v.value].ino != fs.recs[r].ino {
      Kept(fs.recs, out.fs.recs);
    } else if out.code == 0 {
      Moved(fs.recs, r, at, Rec(dir, name, fs.recs[r].ino));
    }
  }

  lemma CreateUnique(fs: Fs, op: Op)
    requires Unique(fs.recs) && (op.Create? || op.Mkdir?) && !OnDots(fs, op)
    ensures Unique(Step(fs, op).recs) <==> !(Adds(fs, op) && Lookup(fs.recs, op.dir, op.name).Some?)
  {
    if Adds(fs, op) {
      Added(fs.recs, op.at, Rec(op.dir, op.name, op.ino));
    }
  }

  lemma LinkUnique(fs: Fs, op: Op)
    requires Unique(fs.recs) && (op.Symlink? || op.Link?) && !OnDots(fs, op)
    ensures Unique(Step(fs, op).recs)
  {
    if Call(fs, op).code == 0 {
      Added(fs.recs, op.at, Rec(op.dir, op.name, op.ino));
    }
  }

  lemma UnlinkUnique(fs: Fs, dir: nat, name: string)
    requires Unique(fs.recs)
    ensures Unique(UnlinkCall(fs, dir, name).fs.recs) && Unique(RmdirCall(fs, dir, name).fs.recs)
  {
    Kept(fs.recs, UnlinkCall(fs, dir, name).fs.recs);
    Kept(fs.recs, RmdirCall(fs, dir, name).fs.recs);
  }

  lemma ExchangeUnique(fs: Fs, src: nat, was: string, dir: nat, name: string)
    requires Unique(fs.recs)
    ensures Unique(ExchangeCall(fs, src, was, dir, name).fs.recs)
  {
    Kept(fs.recs, ExchangeCall(fs, src, was, dir, name).fs.recs);
  }

  lemma SlotUnique(fs: Fs, op: Op)
    requires (op.Open? || op.Retain? || op.Close?) && !OnDots(fs, op)
    ensures Step(fs, op).recs == fs.recs
  {
  }

  /** A call on a dot name adds a record at most where there is none of that name. */
  lemma DotUnique(fs: Fs, op: Op)
    requires Unique(fs.recs) && OnDots(fs, op)
    ensures Unique(Step(fs, op).recs)
  {
    if op.Rename? {
      var v := Lookup(fs.recs, op.dir, op.name);
      if v.Some? {
        Kept(fs.recs, Step(fs, op).recs);
      } else if op.at !in fs.recs {
        Added(fs.recs, op.at, Rec(op.dir, op.name, DotIno(fs, op.src, op.was)));
      }
    }
  }

  /** Names stay unique through a call exactly when it is neither a rename of a file onto another link of itself nor an
      open(O_CREAT) or mkdir of a name that is there and not seen. */
  lemma UniqueExactly(fs: Fs, op: Op)
    requires Unique(fs.recs)
    ensures Unique(Step(fs, op).recs) <==>
      !OntoOwnLink(fs, op) && !(Adds(fs, op) && Lookup(fs.recs, op.dir, op.name).Some?)
  {
    if OnDots(fs, op) {
      DotUnique(fs, op);
    } else {
      PlainUnique(fs, op);
    }
  }

  lemma PlainUnique(fs: Fs, op: Op)
    requires Unique(fs.recs) && !OnDots(fs, op)
    ensures Unique(Step(fs, op).recs) <==>
      !OntoOwnLink(fs, op) && !(Adds(fs, op) && Lookup(fs.recs, op.dir, op.name).Some?)
  {
    match op
    case Create(_, _, _, _, _) => CreateUnique(fs, op);
    case Mkdir(_, _, _, _, _) => CreateUnique(fs, op);
    case Symlink(_, _, _, _) => LinkUnique(fs, op);
    case Link(_, _, _, _) => LinkUnique(fs, op);
    case Rename(_, _, _, _, _, _) => RenameUnique(fs, op);
    case Unlink(dir, name) => UnlinkUnique(fs, dir, name);
    case Rmdir(dir, name) => UnlinkUnique(fs, dir, name);
    case Exchange(src, was, dir, name) => ExchangeUnique(fs, src, was, dir, name);
    case _ => SlotUnique(fs, op);
  }

  /** mkdir or symlink that found an inode and then no room for the record. */
  ghost predicate Wastes(fs: Fs, op: Op) {
    (op.Mkdir? || op.Symlink?) && !OnDots(fs, op) && op.dir in fs.up && !NoInode(fs, op.ino) && op.at in fs.recs &&
    (if op.Mkdir? then Seen(fs, op.dir, op.name, op.target).None? else Lookup(fs.recs, op.dir, op.name).None?)
  }

  /** A failing call changes nothing exactly when it is neither an open(O_CREAT) or mkdir that adds its record and then
      finds no slot to open it in, nor a mkdir or symlink that runs out of room after taking an inode. */
  lemma FailureExactly(fs: Fs, op: Op)
    requires Call(fs, op).code < 0
    ensures Step(fs, op) == fs <==> !(Adds(fs, op) && FreeSlot(fs.slots).None?) && !Wastes(fs, op)
  {
    if OnDots(fs, op) {
      DotFailure(fs, op);
    } else {
      PlainFailure(fs, op);
    }
  }

  lemma DotFailure(fs: Fs, op: Op)
    requires OnDots(fs, op) && DotCall(fs, op).code < 0
    ensures DotCall(fs, op).fs == fs
  {
  }

  lemma PlainFailure(fs: Fs, op: Op)
    requires !OnDots(fs, op) && PlainCall(fs, op).code < 0
    ensures PlainCall(fs, op).fs == fs <==> !(Adds(fs, op) && FreeSlot(fs.slots).None?) && !Wastes(fs, op)
  {
    if Adds(fs, op) {
      assert op.at in PlainCall(fs, op).fs.recs;
    }
    if Wastes(fs, op) {
      assert op.ino in PlainCall(fs, op).fs.spent;
    }
  }

  /** A directory that mkdir made stays open exactly when slot 0 was free: the caller takes slot number 0 for an answer.
      */
  lemma MkdirSlotsExactly(fs: Fs, op: Op)
    requires op.Mkdir? && Call(fs, op).code == 0
    ensures Step(fs, op).slots == fs.slots <==> 0 in fs.slots
  {
    if 0 !in fs.slots {
      FreeSlotIs(fs.slots, 0);
      assert 0 in Step(fs, op).slots;
    }
  }

  // ─── runs from a bare root ───

  /** No name that matters to tearing is a dot name. */
  predicate PlainNamed(op: Op) {
    && (op.Create? || op.Mkdir? || op.Rmdir? ==> !Dots(op.name)) && (op.Rename? ==> !Dots(op.was))
  }

  lemma {:induction false} PlainNamesNeverTear(fs: Fs, ops: seq<Op>)
    requires forall k :: 0 <= k < |ops| ==> PlainNamed(ops[k])
    ensures NeverTears(fs, ops)
  {
    if ops != [] {
      PlainNamesNeverTear(fs, ops[..|ops| - 1]);
      assert PlainNamed(ops[|ops| - 1]);
    }
  }

  lemma RunSnoc(fs: Fs, ops: seq<Op>, op: Op)
    ensures Run(fs, ops + [op]) == Step(Run(fs, ops), op)
  {
    assert (ops + [op])[..|ops|] == ops;
  }

  lemma LookupIs(recs: map<nat, Rec>, dir: nat, name: string, r: nat)
    requires r in recs && recs[r].dir == dir && recs[r].name == name
    requires forall q :: q in recs && recs[q].dir == dir && recs[q].name == name ==> r <= q
    ensures Lookup(recs, dir, name) == Some(r)
  {
    assert r in Matching(recs, dir, name);
    assert IsLeast(Matching(recs, dir, name), Lookup(recs, dir, name).value);
  }

  lemma FreeSlotIs(slots: map<nat, Slot>, k: nat)
    requires k < MAX_OPEN && k !in slots && forall j :: 0 <= j < k ==> j in slots
    ensures FreeSlot(slots) == Some(k)
  {
    var s := set j | 0 <= j < MAX_OPEN && j !in slots;
    assert k in s && IsLeast(s, FreeSlot(slots).value);
  }

  function FileA(): Fs {
    Fs(map[0 := Rec(ROOT, "a", 11)], map[ROOT := ROOT], map[ROOT := 2, 11 := 1], {}, {},
       map[0 := Slot(11, 1, false)], {}, {})
  }

  lemma CreateA()
    ensures Step(Bare(), Create(ROOT, "a", 11, 0, None)) == FileA()
  {
    FreeSlotIs(map[], 0);
    assert Lookup(Bare().recs, ROOT, "a").None?;
  }

  /** Create a file, link it, rename one link onto the other: the directory holds the name twice. */
  lemma RenameDoublesName()
    ensures var ops := [Create(ROOT, "a", 11, 0, None), Link(11, ROOT, "b", 1), Rename(ROOT, "a", ROOT, "b", 2, false)];
      var fs := Run(Bare(), ops);
      fs.recs == map[1 := Rec(ROOT, "b", 11), 2 := Rec(ROOT, "b", 11)] && !Unique(fs.recs)
  {
    var o0, o1, o2 := Create(ROOT, "a", 11, 0, None), Link(11, ROOT, "b", 1), Rename(ROOT, "a", ROOT, "b", 2, false);
    CreateA();
    LinkedA();
    RenamedA();
    RunThree(Bare(), o0, o1, o2);
  }

  lemma RunThree(fs: Fs, x: Op, y: Op, z: Op)
    ensures Run(fs, [x, y, z]) == Step(Step(Step(fs, x), y), z)
  {
    RunSnoc(fs, [], x);
    RunSnoc(fs, [x], y);
    RunSnoc(fs, [x, y], z);
    assert [] + [x] == [x] && [x] + [y] == [x, y] && [x, y] + [z] == [x, y, z];
  }

  lemma RenamedA()
    ensures var recs := Step(WithLink(FileA(), 1, Rec(ROOT, "b", 11)), Rename(ROOT, "a", ROOT, "b", 2, false)).recs;
      recs == map[1 := Rec(ROOT, "b", 11), 2 := Rec(ROOT, "b", 11)] && !Unique(recs)
  {
    var fs := WithLink(FileA(), 1, Rec(ROOT, "b", 11));
    assert "a" != "b" && "b" != "." && "b" != "..";
    LookupIs(fs.recs, ROOT, "a", 0);
    LookupIs(fs.recs, ROOT, "b", 1);
    var recs := fs.recs[2 := Rec(ROOT, "b", 11)] - {0};
    assert SameName(recs[1], recs[2]);
  }

  lemma LinkedA()
    ensures Step(FileA(), Link(11, ROOT, "b", 1)) == WithLink(FileA(), 1, Rec(ROOT, "b", 11))
  {
    var fs := FileA();
    assert 0 in Names(fs.recs, 11);
    assert fs.recs[0].name != "b";
    assert Lookup(fs.recs, ROOT, "b").None?;
  }

  function Taken(n: nat): map<nat, Slot> {
    if n == 0 then map[0 := Slot(11, 1, false)] else Taken(n - 1)[n := Slot(11, 1, false)]
  }

  lemma {:induction false} TakenKeys(n: nat, k: nat)
    ensures k in Taken(n) <==> k <= n
  {
    if n > 0 {
      TakenKeys(n - 1, k);
    }
  }

  lemma {:induction false} OpenAgain(n: nat)
    requires n < MAX_OPEN
    ensures Run(FileA(), seq(n, _ => Open(ROOT, "a", None))) == FileA().(slots := Taken(n))
  {
    if n > 0 {
      var ops := seq(n, _ => Open(ROOT, "a", None));
      OpenAgain(n - 1);
      assert ops[..n - 1] == seq(n - 1, _ => Open(ROOT, "a", None));
      OpenOnce(n - 1);
    }
  }

  lemma OpenOnce(n: nat)
    requires n + 1 < MAX_OPEN
    ensures Step(FileA().(slots := Taken(n)), Open(ROOT, "a", None)) == FileA().(slots := Taken(n + 1))
  {
    var fs := FileA().(slots := Taken(n));
    LookupIs(fs.recs, ROOT, "a", 0);
    forall k: nat ensures k in Taken(n) <==> k <= n {
      TakenKeys(n, k);
    }
    FreeSlotIs(fs.slots, n + 1);
  }

  /** With every open slot taken mkdir of a name that is there fails, and leaves the name twice. */
  lemma FullTableDoublesName()
    ensures var before := Run(Step(Bare(), Create(ROOT, "a", 11, 0, None)), seq(15, _ => Open(ROOT, "a", None)));
      var out := Call(before, Mkdir(ROOT, "a", 12, 1, None));
      && before.recs == map[0 := Rec(ROOT, "a", 11)]
      && out.code == -1 && out.fs.recs == map[0 := Rec(ROOT, "a", 11), 1 := Rec(ROOT, "a", 12)] && !Unique(out.fs.recs)
  {
    CreateA();
    OpenAgain(15);
    FullTableMkdir(FileA().(slots := Taken(15)));
  }

  lemma FullTableMkdir(fs: Fs)
    requires fs == FileA().(slots := Taken(15))
    ensures var out := Call(fs, Mkdir(ROOT, "a", 12, 1, None));
      out.code == -1 && out.fs.recs == map[0 := Rec(ROOT, "a", 11), 1 := Rec(ROOT, "a", 12)] && !Unique(out.fs.recs)
  {
    forall k: nat ensures k in Taken(15) <==> k <= 15 {
      TakenKeys(15, k);
    }
    assert FreeSlot(fs.slots).None? && Seen(fs, ROOT, "a", None).None?;
    MkdirNames(fs, ROOT, "a", 12, 1, None);
    var recs := fs.recs[1 := Rec(ROOT, "a", 12)];
    assert SameName(recs[0], recs[1]);
  }

  // ─── an exchange that cannot be taken back ───

  /** `n` directories, each in the one before. */
  ghost predicate Deep(fs: Fs, n: nat) {
    && (forall i :: i in fs.recs <==> 0 <= i < n) && (forall i :: i in fs.recs ==> fs.recs[i] == Rec(i + 2, "d", i + 3))
    && (forall i :: i in fs.up <==> 2 <= i <= n + 2) && fs.up[2] == 2
    && (forall i :: i in fs.up && i != 2 ==> fs.up[i] == i - 1)
    && fs.links.Keys == fs.up.Keys && fs.syms == {} && fs.spent == {} && fs.slots.Keys <= {0}
  }

  function DeepOps(n: nat): seq<Op> { if n == 0 then [] else DeepOps(n - 1) + [Mkdir(n + 1, "d", n + 2, n - 1, None)] }

  lemma DeepStep(fs: Fs, n: nat)
    requires Deep(fs, n)
    ensures Deep(Step(fs, Mkdir(n + 2, "d", n + 3, n, None)), n + 1)
  {
    DeepUnseen(fs, n);
    DeepAdded(fs, n);
    MkdirOutcome(fs, n + 2, "d", n + 3, n, None);
  }

  lemma DeepUnseen(fs: Fs, n: nat)
    requires Deep(fs, n)
    ensures n + 2 in fs.up && Seen(fs, n + 2, "d", None).None? && !NoInode(fs, n + 3) && n !in fs.recs
  {
    assert Lookup(fs.recs, n + 2, "d").None?;
  }

  lemma DeepAdded(fs: Fs, n: nat)
    requires Deep(fs, n)
    ensures Deep(WithDir(fs, n, Rec(n + 2, "d", n + 3)), n + 1)
    ensures Deep(Opened(WithDir(fs, n, Rec(n + 2, "d", n + 3)), 0, n + 3), n + 1)
  {
  }

  lemma {:induction false} DeepRun(n: nat)
    ensures Deep(Run(Bare(), DeepOps(n)), n)
  {
    if n > 0 {
      var m: nat := n - 1;
      DeepRun(m);
      DeepNext(m);
      DeepStep(Run(Bare(), DeepOps(m)), m);
    }
  }

  lemma DeepNext(n: nat)
    ensures Run(Bare(), DeepOps(n + 1)) == Step(Run(Bare(), DeepOps(n)), Mkdir(n + 2, "d", n + 3, n, None))
  {
    RunSnoc(Bare(), DeepOps(n), Mkdir(n + 2, "d", n + 3, n, None));
  }

  lemma DeepDepths(fs: Fs, n: nat) returns (d: map<nat, nat>)
    requires Deep(fs, n)
    ensures Depths(fs.up, ROOT, d) && forall i :: i in fs.up ==> d[i] == i - 2
  {
    d := map i | i in fs.up :: i - 2;
    forall x | x in fs.up && x != ROOT ensures Below(fs.up, d, x) {
      assert fs.up[x] == x - 1 && x - 1 in fs.up;
    }
  }

  /** A file at the root and a directory sixty-five or more levels down change places; the call that would change them
      back is refused. */
  lemma ExchangeNotTakenBack(n: nat)
    requires n >= 65
    ensures var fs := Run(Bare(), DeepOps(n) + [Create(ROOT, "f", n + 3, n, None)]);
      var first := ExchangeCall(fs, ROOT, "f", n + 1, "d");
      first.code == 0 && ExchangeCall(first.fs, ROOT, "f", n + 1, "d").code != 0
  {
    var d := DeepStart(n);
    DeepPlain(n);
    assert "f" != "." && "f" != "..";
    ReachedInv(DeepOps(n) + [Create(ROOT, "f", n + 3, n, None)]);
    ExchangeStuck(Run(Bare(), DeepOps(n) + [Create(ROOT, "f", n + 3, n, None)]), d, n);
  }

  lemma ReachedInv(ops: seq<Op>)
    requires forall k :: 0 <= k < |ops| ==> PlainNamed(ops[k])
    ensures Inv(Run(Bare(), ops))
  {
    BareInv();
    PlainNamesNeverTear(Bare(), ops);
    RunInv(Bare(), ops);
  }

  lemma {:induction false} DeepPlain(n: nat)
    ensures forall k :: 0 <= k < |DeepOps(n)| ==> PlainNamed(DeepOps(n)[k])
  {
    if n > 0 {
      var m: nat := n - 1;
      DeepPlain(m);
      assert "d" != "." && "d" != "..";
      assert DeepOps(n) == DeepOps(m) + [Mkdir(n + 1, "d", n + 2, m, None)];
    }
  }

  lemma DeepStart(n: nat) returns (d: map<nat, nat>)
    requires n > 0
    ensures var fs := Run(Bare(), DeepOps(n) + [Create(ROOT, "f", n + 3, n, None)]);
      DeepWithFile(fs, n) && Depths(fs.up, ROOT, d) && d[n + 1] == n - 1
  {
    var fs0, o := Run(Bare(), DeepOps(n)), Create(ROOT, "f", n + 3, n, None);
    DeepRun(n);
    RunSnoc(Bare(), DeepOps(n), o);
    DeepFile(fs0, n);
    d := DeepDepths(fs0, n);
    assert n + 1 in fs0.up;
  }

  lemma ExchangeStuck(fs: Fs, d: map<nat, nat>, n: nat)
    requires n > 0 && Inv(fs) && DeepWithFile(fs, n) && Depths(fs.up, ROOT, d) && d[n + 1] >= MAX_CHAIN
    ensures var first := ExchangeCall(fs, ROOT, "f", n + 1, "d");
      first.code == 0 && ExchangeCall(first.fs, ROOT, "f", n + 1, "d").code != 0
  {
    ChainExact(fs.up, ROOT, d, n + 1, MAX_CHAIN, 0);
    assert !Shallow(fs.up, n + 1);
    DeepExchange(fs, n);
    ExchangeTwiceExactly(fs, ROOT, "f", n + 1, "d");
  }

  lemma DeepFile(fs: Fs, n: nat)
    requires Deep(fs, n)
    ensures DeepWithFile(Step(fs, Create(ROOT, "f", n + 3, n, None)), n) &&
      Step(fs, Create(ROOT, "f", n + 3, n, None)).up == fs.up
  {
    assert "d" != "f";
    assert Lookup(fs.recs, ROOT, "f").None?;
    FreeSlotIs(fs.slots, if 0 in fs.slots then 1 else 0);
  }

  ghost predicate DeepWithFile(fs: Fs, n: nat) {
    && (forall i :: i in fs.recs <==> 0 <= i <= n) && n in fs.recs && fs.recs[n] == Rec(ROOT, "f", n + 3)
    && (forall i :: i in fs.recs && i != n ==> fs.recs[i] == Rec(i + 2, "d", i + 3))
    && (forall i :: i in fs.up <==> 2 <= i <= n + 2)
  }

  lemma DeepExchange(fs: Fs, n: nat)
    requires n > 0 && DeepWithFile(fs, n)
    ensures Lookup(fs.recs, ROOT, "f") == Some(n) && Lookup(fs.recs, n + 1, "d") == Some(n - 1)
    ensures ExchangeCall(fs, ROOT, "f", n + 1, "d").code == 0
  {
    assert "d" != "f" && "d" != "." && "d" != ".." && "f" != "." && "f" != "..";
    LookupIs(fs.recs, ROOT, "f", n);
    LookupIs(fs.recs, n + 1, "d", n - 1);
    assert !OnChain(fs.up, ROOT, n + 2, ROOT, MAX_CHAIN);
  }

}
