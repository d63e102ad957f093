/** The ext2 directories form one tree under the root, in every run; exchanging twice is exchanging not at all. */
module Ext2Tree {
  import opened Basics
  import opened ParentTree
  import opened Ext2Links
  import opened Ext2Counts

  /** Exact books and one tree. */
  ghost predicate Sound(fs: Fs) { Books(fs) && Tree(fs.up, ROOT) }

  ghost predicate Undotted(recs: map<nat, Rec>) { forall r :: r in recs ==> !Dots(recs[r].name) }

  /** Every directory has the "." and ".." it was made with, and no others. */
  ghost predicate Whole(fs: Fs) { fs.noDot == {} && fs.noUp == {} && Undotted(fs.recs) }

  ghost predicate Inv(fs: Fs) { Sound(fs) && Whole(fs) }

  lemma EmptyMeans(recs: map<nat, Rec>, i: nat)
    requires Undotted(recs)
    ensures EmptyDir(recs, i) <==> NoRecs(recs, i)
  {
  }

  lemma WithDirTree(fs: Fs, at: nat, x: Rec)
    requires Tree(fs.up, ROOT) && x.dir in fs.up && x.ino !in fs.up
    ensures Tree(WithDir(fs, at, x).up, ROOT)
  {
    var d :| Depths(fs.up, ROOT, d);
    AddOk(fs.up, ROOT, d, x.ino, x.dir);
  }

  /** What no record lies in is nobody's parent. */
  lemma NoChild(fs: Fs, i: nat)
    requires RecsOk(fs) && i != ROOT && NoRecs(fs.recs, i)
    ensures forall y :: y in fs.up ==> fs.up[y] != i
  {
    forall y | y in fs.up ensures fs.up[y] != i {
      if y != ROOT {
        assert HasName(fs.recs, y);
        var r :| r in fs.recs && fs.recs[r].ino == y;
        assert RecOk(fs, r);
      }
    }
  }

  lemma WithoutDirTree(fs: Fs, r: nat)
    requires RecsOk(fs) && Tree(fs.up, ROOT) && r in fs.recs && fs.recs[r].ino in fs.up
    requires NoRecs(fs.recs, fs.recs[r].ino)
    ensures Tree(WithoutDir(fs, r).up, ROOT)
  {
    var d, i :| Depths(fs.up, ROOT, d) && i == fs.recs[r].ino;
    assert RecOk(fs, r);
    NoChild(fs, i);
    RemoveOk(fs.up, ROOT, d, i);
  }

  /** The kernel's climb finds the moved directory above its new parent exactly when it is there, or gives up. */
  lemma ClimbExact(fs: Fs, d: map<nat, nat>, i: nat, dir: nat)
    requires Depths(fs.up, ROOT, d) && dir in fs.up
    ensures ClimbCode(fs, i, dir) == 0 ==> !Under(fs.up, ROOT, d, i, dir)
    ensures fs.noUp == {} ==>
      ClimbCode(fs, i, dir) == if d[dir] >= MAX_CHAIN then -40 else if Under(fs.up, ROOT, d, i, dir) then -22 else 0
  {
    ChainExact(fs.up, ROOT, d, dir, MAX_CHAIN, i);
  }

  lemma ReparentedTree(up: map<nat, nat>, d: map<nat, nat>, i: nat, src: nat, dst: nat) returns (d': map<nat, nat>)
    requires Depths(up, ROOT, d) && i in up && i != ROOT && dst in up && !Under(up, ROOT, d, i, dst)
    ensures Depths(Reparented(up, i, src, dst), ROOT, d')
  {
    if src == dst {
      d' := d;
    } else {
      MoveOk(up, ROOT, d, i, dst);
      d' := MovedDepths(up, ROOT, d, i, dst);
    }
  }

  lemma DirMovedTree(fs: Fs, d: map<nat, nat>, r: nat, at: nat, x: Rec)
    requires RecsOk(fs) && Depths(fs.up, ROOT, d) && r in fs.recs && x.ino == fs.recs[r].ino && x.ino in fs.up
    requires x.dir in fs.up
    requires !Under(fs.up, ROOT, d, x.ino, x.dir)
    ensures Tree(DirMoved(fs, r, at, x).up, ROOT)
  {
    assert RecOk(fs, r);
    var d' := ReparentedTree(fs.up, d, x.ino, fs.recs[r].dir, x.dir);
  }

  lemma DirReplacedTree(fs: Fs, d: map<nat, nat>, r: nat, v: nat)
    requires RecsOk(fs) && Depths(fs.up, ROOT, d) && r in fs.recs && v in fs.recs && fs.recs[r].ino != fs.recs[v].ino
    requires fs.recs[r].ino in fs.up && fs.recs[v].ino in fs.up && NoRecs(fs.recs, fs.recs[v].ino)
    requires fs.recs[v].dir in fs.up && !Under(fs.up, ROOT, d, fs.recs[r].ino, fs.recs[v].dir)
    ensures Tree(DirReplaced(fs, r, v).up, ROOT)
  {
    var x, y := fs.recs[r], fs.recs[v];
    assert RecOk(fs, r) && RecOk(fs, v);
    NoChild(fs, y.ino);
    var d' := ReparentedTree(fs.up, d, x.ino, x.dir, y.dir);
    RemoveOk(Reparented(fs.up, x.ino, x.dir, y.dir), ROOT, d', y.ino);
  }

  lemma SwapTree(up: map<nat, nat>, d: map<nat, nat>, a: nat, b: nat, pa: nat, pb: nat) returns (d': map<nat, nat>)
    requires Depths(up, ROOT, d) && a != b && pa in up && pb in up
    requires a in up ==> a != ROOT && up[a] == pa && !Under(up, ROOT, d, a, pb)
    requires b in up ==> b != ROOT && up[b] == pb && !Under(up, ROOT, d, b, pa)
    ensures var up1 := if a in up then up[a := pb] else up; Depths(if b in up then up1[b := pa] else up1, ROOT, d')
    ensures d'[pa] == d[pa] && d'[pb] == d[pb]
    ensures var up1 := if a in up then up[a := pb] else up;
      var up2 := if b in up then up1[b := pa] else up1;
      forall c :: (Under(up2, ROOT, d', c, pa) <==> Under(up, ROOT, d, c, pa)) &&
        (Under(up2, ROOT, d', c, pb) <==> Under(up, ROOT, d, c, pb))
  {
    var up1, d1 := up, d;
    if a in up {
      MoveOk(up, ROOT, d, a, pb);
      up1, d1 := up[a := pb], MovedDepths(up, ROOT, d, a, pb);
      ParentNotUnder(up, ROOT, d, a);
      forall c ensures Under(up1, ROOT, d1, c, pa) <==> Under(up, ROOT, d, c, pa) {
        MoveOutside(up, ROOT, d, a, pb, d1, c, pa);
      }
      forall c ensures Under(up1, ROOT, d1, c, pb) <==> Under(up, ROOT, d, c, pb) {
        MoveOutside(up, ROOT, d, a, pb, d1, c, pb);
      }
      MoveOutside(up, ROOT, d, a, pb, d1, a, pa);
      MoveOutside(up, ROOT, d, a, pb, d1, a, pb);
    }
    d' := d1;
    if b in up {
      assert b in up1 && !Under(up1, ROOT, d1, b, pa);
      MoveOk(up1, ROOT, d1, b, pa);
      d' := MovedDepths(up1, ROOT, d1, b, pa);
      assert up1[b] == pb;
      ParentNotUnder(up1, ROOT, d1, b);
      forall c ensures Under(up1[b := pa], ROOT, d', c, pa) <==> Under(up1, ROOT, d1, c, pa) {
        MoveOutside(up1, ROOT, d1, b, pa, d', c, pa);
      }
      forall c ensures Under(up1[b := pa], ROOT, d', c, pb) <==> Under(up1, ROOT, d1, c, pb) {
        MoveOutside(up1, ROOT, d1, b, pa, d', c, pb);
      }
      MoveOutside(up1, ROOT, d1, b, pa, d', a, pa);
      MoveOutside(up1, ROOT, d1, b, pa, d', a, pb);
    }
  }

  ghost predicate MayExchange(fs: Fs, r: nat, q: nat) {
    r in fs.recs && q in fs.recs &&
    var a, b := fs.recs[r], fs.recs[q];
    && a.ino != b.ino
    && (a.dir != b.dir && a.ino in fs.up ==> !InChain(fs, a.ino, b.dir))
    && (a.dir != b.dir && b.ino in fs.up ==> !InChain(fs, b.ino, a.dir))
  }

  /** An accepted exchange keeps the tree, and leaves both places where they were. */
  lemma ExchangedTree(fs: Fs, d: map<nat, nat>, r: nat, q: nat) returns (d': map<nat, nat>)
    requires RecsOk(fs) && Depths(fs.up, ROOT, d) && MayExchange(fs, r, q)
    ensures var fs', a, b := Exchanged(fs, r, q), fs.recs[r], fs.recs[q];
      && Depths(fs'.up, ROOT, d') && a.dir in fs.up && b.dir in fs.up && d'[a.dir] == d[a.dir] && d'[b.dir] == d[b.dir]
      && forall c :: (Under(fs'.up, ROOT, d', c, a.dir) <==> Under(fs.up, ROOT, d, c, a.dir))
                  && (Under(fs'.up, ROOT, d', c, b.dir) <==> Under(fs.up, ROOT, d, c, b.dir))
  {
    var a, b := fs.recs[r], fs.recs[q];
    assert RecOk(fs, r) && RecOk(fs, q);
    if a.dir == b.dir {
      d' := d;
    } else {
      OnChainExact(fs.up, ROOT, d, a.ino, b.dir, MAX_CHAIN);
      OnChainExact(fs.up, ROOT, d, b.ino, a.dir, MAX_CHAIN);
      d' := SwapTree(fs.up, d, a.ino, b.ino, a.dir, b.dir);
    }
  }

  lemma ExchangedInv(fs: Fs, r: nat, q: nat)
    requires Sound(fs) && MayExchange(fs, r, q)
    ensures Sound(Exchanged(fs, r, q))
  {
    ExchangedBooks(fs, r, q);
    var d :| Depths(fs.up, ROOT, d);
    var d' := ExchangedTree(fs, d, r, q);
  }

  // ─── every call ───

  lemma CreateInv(fs: Fs, dir: nat, name: string, ino: nat, at: nat, target: Option<nat>)
    requires Sound(fs)
    ensures Sound(CreateCall(fs, dir, name, ino, at, target).fs)
  {
    if dir in fs.up {
      var seen, free := Seen(fs, dir, name, target), FreeSlot(fs.slots);
      if seen.Some? {
        ResolvedNamed(fs, dir, name, target);
        OpenedBooks(fs, free.value, seen.value);
      } else if !NoInode(fs, ino) && at !in fs.recs {
        var x := Rec(dir, name, ino);
        WithFileBooks(fs, at, x);
        if free.Some? {
          OpenedBooks(WithFile(fs, at, x), free.value, ino);
        }
      }
    }
  }

  lemma ResolvedNamed(fs: Fs, dir: nat, name: string, target: Option<nat>)
    requires Books(fs)
    ensures var i := Resolve(fs, dir, name, target); i.Some? ==> i.value in fs.links && fs.links[i.value] > 0
  {
    var i := Resolve(fs, dir, name, target);
    if i.Some? {
      var v := Lookup(fs.recs, dir, name);
      if fs.recs[v.value].ino !in fs.syms {
        assert RecOk(fs, v.value);
        NamesPositive(fs, v.value);
      } else {
        var r :| r in Names(fs.recs, target.value);
        NamesPositive(fs, r);
      }
    }
  }

  lemma SpentInv(fs: Fs, ino: nat)
    requires Sound(fs) && ino !in fs.links
    ensures Sound(fs.(spent := fs.spent + {ino}))
  {
    SymsBooks(fs, fs.syms, fs.spent + {ino});
  }

  lemma NewDirInv(fs: Fs, at: nat, x: Rec)
    requires Sound(fs) && at !in fs.recs && x.dir in fs.up && !NoInode(fs, x.ino)
    ensures Sound(WithDir(fs, at, x))
  {
    WithDirBooks(fs, at, x);
    WithDirTree(fs, at, x);
  }

  lemma OpenedInv(fs: Fs, k: nat, i: nat)
    requires Sound(fs) && k < MAX_OPEN && k !in fs.slots && (i in fs.links ==> fs.links[i] > 0)
    ensures Sound(Opened(fs, k, i))
  {
    OpenedBooks(fs, k, i);
  }

  lemma MkdirInv(fs: Fs, dir: nat, name: string, ino: nat, at: nat, target: Option<nat>)
    requires Sound(fs)
    ensures Sound(MkdirCall(fs, dir, name, ino, at, target).fs)
  {
    if dir in fs.up && Seen(fs, dir, name, target).None? && !NoInode(fs, ino) {
      if at in fs.recs {
        SpentInv(fs, ino);
      } else {
        var x := Rec(dir, name, ino);
        NewDirInv(fs, at, x);
        MkdirOutcome(fs, dir, name, ino, at, target);
        if FreeSlot(fs.slots) == Some(0) {
          OpenedInv(WithDir(fs, at, x), 0, ino);
        }
      }
    } else {
      assert MkdirCall(fs, dir, name, ino, at, target).fs == fs;
    }
  }

  lemma MkdirOutcome(fs: Fs, dir: nat, name: string, ino: nat, at: nat, target: Option<nat>)
    requires dir in fs.up && Seen(fs, dir, name, target).None? && !NoInode(fs, ino) && at !in fs.recs
    ensures var fs1 := WithDir(fs, at, Rec(dir, name, ino));
      && fs1.slots == fs.slots && ino in fs1.links && fs1.links[ino] == 2
      && MkdirCall(fs, dir, name, ino, at, target).fs == if FreeSlot(fs.slots) == Some(0) then Opened(fs1, 0, ino)
        else fs1
  {
  }

  lemma SymlinkInv(fs: Fs, dir: nat, name: string, ino: nat, at: nat)
    requires Sound(fs)
    ensures Sound(SymlinkCall(fs, dir, name, ino, at).fs)
  {
    if dir in fs.up && Lookup(fs.recs, dir, name).None? && !NoInode(fs, ino) {
      if at in fs.recs {
        SymsBooks(fs, fs.syms, fs.spent + {ino});
      } else {
        WithSymlinkBooks(fs, at, Rec(dir, name, ino));
      }
    }
  }

  lemma LinkInv(fs: Fs, ino: nat, dir: nat, name: string, at: nat)
    requires Sound(fs)
    ensures Sound(LinkCall(fs, ino, dir, name, at).fs)
  {
    if LinkCall(fs, ino, dir, name, at).code == 0 {
      WithLinkBooks(fs, at, Rec(dir, name, ino));
    }
  }

  lemma UnlinkInv(fs: Fs, dir: nat, name: string)
    requires Sound(fs)
    ensures Sound(UnlinkCall(fs, dir, name).fs)
  {
    var v := Lookup(fs.recs, dir, name);
    if v.Some? && fs.recs[v.value].ino !in fs.up {
      UnlinkedBooks(fs, v.value);
    }
  }

  lemma RmdirInv(fs: Fs, dir: nat, name: string)
    requires Sound(fs) && Undotted(fs.recs)
    ensures Sound(RmdirCall(fs, dir, name).fs)
  {
    var v := Lookup(fs.recs, dir, name);
    if v.Some? && fs.recs[v.value].ino in fs.up && EmptyDir(fs.recs, fs.recs[v.value].ino) {
      RemovedInv(fs, v.value);
    }
  }

  lemma RemovedInv(fs: Fs, r: nat)
    requires Sound(fs) && Undotted(fs.recs) && r in fs.recs && fs.recs[r].ino in fs.up
    requires EmptyDir(fs.recs, fs.recs[r].ino)
    ensures Sound(WithoutDir(fs, r))
  {
    EmptyMeans(fs.recs, fs.recs[r].ino);
    WithoutDirBooks(fs, r);
    WithoutDirTree(fs, r);
  }

  lemma FileReplacedInv(fs: Fs, r: nat, v: nat)
    requires Sound(fs) && r in fs.recs && v in fs.recs && r != v && fs.recs[r].ino !in fs.up && fs.recs[v].ino !in fs.up
    ensures Sound(FileReplaced(fs, r, v))
  {
    FileReplacedBooks(fs, r, v);
  }

  lemma FileMovedInv(fs: Fs, r: nat, at: nat, x: Rec)
    requires Sound(fs) && r in fs.recs && at !in fs.recs && x.ino == fs.recs[r].ino && x.ino !in fs.up && x.dir in fs.up
    ensures Sound(FileMoved(fs, r, at, x))
  {
    FileMovedBooks(fs, r, at, x);
  }

  lemma FileRenameInv(fs: Fs, r: nat, dir: nat, name: string, at: nat, noreplace: bool)
    requires Sound(fs) && r in fs.recs && fs.recs[r].ino !in fs.up && dir in fs.up
    requires !(fs.recs[r].dir == dir && fs.recs[r].name == name)
    ensures Sound(FileRename(fs, r, dir, name, at, noreplace).fs)
  {
    var v := Lookup(fs.recs, dir, name);
    if FileRename(fs, r, dir, name, at, noreplace).code == 0 {
      if v.Some? && fs.recs[v.value].ino != fs.recs[r].ino {
        FileReplacedInv(fs, r, v.value);
      } else {
        FileMovedInv(fs, r, at, Rec(dir, name, fs.recs[r].ino));
      }
    }
  }

  lemma DirMovedInv(fs: Fs, r: nat, at: nat, x: Rec)
    requires Sound(fs) && r in fs.recs && at !in fs.recs && x.ino == fs.recs[r].ino && x.ino in fs.up && x.dir in fs.up
    requires ClimbCode(fs, x.ino, x.dir) == 0
    ensures Sound(DirMoved(fs, r, at, x))
  {
    var d :| Depths(fs.up, ROOT, d);
    ClimbExact(fs, d, x.ino, x.dir);
    DirMovedBooks(fs, r, at, x);
    DirMovedTree(fs, d, r, at, x);
  }

  lemma DirReplacedInv(fs: Fs, r: nat, v: nat)
    requires Sound(fs) && r in fs.recs && v in fs.recs && fs.recs[r].ino != fs.recs[v].ino
    requires fs.recs[r].ino in fs.up && fs.recs[v].ino in fs.up && NoRecs(fs.recs, fs.recs[v].ino)
    requires fs.recs[v].dir in fs.up && ClimbCode(fs, fs.recs[r].ino, fs.recs[v].dir) == 0
    ensures Sound(DirReplaced(fs, r, v))
  {
    var d :| Depths(fs.up, ROOT, d);
    ClimbExact(fs, d, fs.recs[r].ino, fs.recs[v].dir);
    DirReplacedBooks(fs, r, v);
    DirReplacedTree(fs, d, r, v);
  }

  lemma DirRenameInv(fs: Fs, r: nat, dir: nat, name: string, at: nat, noreplace: bool)
    requires Sound(fs) && Undotted(fs.recs) && r in fs.recs && fs.recs[r].ino in fs.up && dir in fs.up
    ensures Sound(DirRename(fs, r, dir, name, at, noreplace).fs)
  {
    var v, i, out := Lookup(fs.recs, dir, name), fs.recs[r].ino, DirRename(fs, r, dir, name, at, noreplace);
    if out.code == 0 && !(v.Some? && fs.recs[v.value].ino == i) {
      if v.Some? {
        EmptyMeans(fs.recs, fs.recs[v.value].ino);
        DirReplacedInv(fs, r, v.value);
      } else {
        DirMovedInv(fs, r, at, Rec(dir, name, i));
      }
    }
  }

  lemma RenameInv(fs: Fs, src: nat, was: string, dir: nat, name: string, at: nat, noreplace: bool)
    requires Sound(fs) && Undotted(fs.recs)
    ensures Sound(RenameCall(fs, src, was, dir, name, at, noreplace).fs)
  {
    var v := Lookup(fs.recs, src, was);
    if dir in fs.up && !Dots(name) && v.Some? && !(src == dir && was == name) {
      if fs.recs[v.value].ino in fs.up {
        DirRenameInv(fs, v.value, dir, name, at, noreplace);
      } else {
        FileRenameInv(fs, v.value, dir, name, at, noreplace);
      }
    }
  }

  lemma ExchangeInv(fs: Fs, src: nat, was: string, dir: nat, name: string)
    requires Sound(fs)
    ensures Sound(ExchangeCall(fs, src, was, dir, name).fs)
  {
    var r, q, out := Lookup(fs.recs, src, was), Lookup(fs.recs, dir, name), ExchangeCall(fs, src, was, dir, name);
    if out.code == 0 && fs.recs[r.value].ino != fs.recs[q.value].ino {
      ExchangedInv(fs, r.value, q.value);
    }
  }

  lemma SlotInv(fs: Fs, op: Op)
    requires Sound(fs) && (op.Open? || op.Retain? || op.Close?)
    ensures Sound(PlainCall(fs, op).fs)
  {
    match op
    case Open(dir, name, target) =>
      var i, k := Resolve(fs, dir, name, target), FreeSlot(fs.slots);
      if i.Some? && k.Some? {
        ResolvedNamed(fs, dir, name, target);
        OpenedBooks(fs, k.value, i.value);
      }
    case Retain(k) =>
      if k in fs.slots {
        CountedBooks(fs, k, fs.slots[k].refs + 1);
      }
    case Close(k) =>
      if k in fs.slots {
        ClosedBooks(fs, k);
      }
  }

  lemma PlainSound(fs: Fs, op: Op)
    requires Sound(fs) && Undotted(fs.recs)
    ensures Sound(PlainCall(fs, op).fs)
  {
    match op
    case Create(dir, name, ino, at, target) => CreateInv(fs, dir, name, ino, at, target);
    case Mkdir(dir, name, ino, at, target) => MkdirInv(fs, dir, name, ino, at, target);
    case Symlink(dir, name, ino, at) => SymlinkInv(fs, dir, name, ino, at);
    case Link(ino, dir, name, at) => LinkInv(fs, ino, dir, name, at);
    case Unlink(dir, name) => UnlinkInv(fs, dir, name);
    case Rmdir(dir, name) => RmdirInv(fs, dir, name);
    case Rename(src, was, dir, name, at, noreplace) => RenameInv(fs, src, was, dir, name, at, noreplace);
    case Exchange(src, was, dir, name) => ExchangeInv(fs, src, was, dir, name);
    case Open(_, _, _) => SlotInv(fs, op);
    case Retain(_) => SlotInv(fs, op);
    case Close(_) => SlotInv(fs, op);
  }

  // ─── the dot names ───

  /** The position of the record a call adds, and its name. */
  ghost predicate NamesFrom(recs: map<nat, Rec>, recs': map<nat, Rec>, name: string) {
    forall r :: r in recs' ==> recs'[r].name == name || (r in recs && recs'[r].name == recs[r].name)
  }

  /** open(O_CREAT) or mkdir of a dot name that it does not see. */
  ghost predicate AddsDots(fs: Fs, op: Op) {
    (op.Create? || op.Mkdir?) && Dots(op.name) && op.dir in fs.up && FreeSlot(fs.slots).None? &&
      !NoInode(fs, op.ino) && op.at !in fs.recs
  }

  /** rmdir of an empty directory by its own ".", or of an empty root by "..". */
  ghost predicate RemovesDots(fs: Fs, op: Op) {
    op.Rmdir? && DotRec(fs, op.dir, op.name) && EmptyDir(fs.recs, DotIno(fs, op.dir, op.name))
  }

  /** rename of a directory by its own "." or by the ".." of a directory in it, to a place that takes it and is not its
      own. */
  ghost predicate RenamesDots(fs: Fs, op: Op) {
    && op.Rename? && DotRec(fs, op.src, op.was) && op.dir in fs.up && !Dots(op.name)
    && var v, i := Lookup(fs.recs, op.dir, op.name), DotIno(fs, op.src, op.was);
       && ClimbCode(fs, i, op.dir) == 0
       && if v.None? then op.at !in fs.recs
          else !op.noreplace && var j := fs.recs[v.value].ino; j in fs.up && j != i && EmptyDir(fs.recs, j)
  }

  /** The calls that take away or double a dot record. */
  ghost predicate Tears(fs: Fs, op: Op) { AddsDots(fs, op) || RemovesDots(fs, op) || RenamesDots(fs, op) }

  /** What open(O_CREAT) and mkdir do to the records. */
  ghost function RecsAfter(fs: Fs, dir: nat, name: string, ino: nat, at: nat, target: Option<nat>): map<nat, Rec> {
    if dir in fs.up && Seen(fs, dir, name, target).None? && !NoInode(fs, ino) && at !in fs.recs
    then fs.recs[at := Rec(dir, name, ino)] else fs.recs
  }

  lemma CreateNames(fs: Fs, dir: nat, name: string, ino: nat, at: nat, target: Option<nat>)
    ensures var fs' := CreateCall(fs, dir, name, ino, at, target).fs;
      fs'.recs == RecsAfter(fs, dir, name, ino, at, target) && fs'.noDot == fs.noDot && fs'.noUp == fs.noUp
  {
  }

  lemma MkdirNames(fs: Fs, dir: nat, name: string, ino: nat, at: nat, target: Option<nat>)
    ensures var fs' := MkdirCall(fs, dir, name, ino, at, target).fs;
      fs'.recs == RecsAfter(fs, dir, name, ino, at, target) && fs'.noDot == fs.noDot && fs'.noUp == fs.noUp
  {
  }

  lemma AddedWhole(fs: Fs, dir: nat, name: string, ino: nat, at: nat, target: Option<nat>)
    requires Whole(fs)
    ensures Undotted(RecsAfter(fs, dir, name, ino, at, target)) <==>
      !(Dots(name) && dir in fs.up && !NoInode(fs, ino) && at !in fs.recs)
  {
    var recs := RecsAfter(fs, dir, name, ino, at, target);
    if Dots(name) {
      assert Lookup(fs.recs, dir, name).None?;
      if recs != fs.recs {
        assert recs[at].name == name;
      }
    }
  }

  lemma CreateWhole(fs: Fs, op: Op)
    requires Whole(fs) && (op.Create? || op.Mkdir?) && !OnDots(fs, op)
    ensures Whole(PlainCall(fs, op).fs) <==> !AddsDots(fs, op)
  {
    AddedWhole(fs, op.dir, op.name, op.ino, op.at, op.target);
    if op.Create? {
      CreateNames(fs, op.dir, op.name, op.ino, op.at, op.target);
    } else {
      MkdirNames(fs, op.dir, op.name, op.ino, op.at, op.target);
    }
  }

  lemma LinkWhole(fs: Fs, op: Op)
    requires Whole(fs) && (op.Symlink? || op.Link?) && !OnDots(fs, op)
    ensures Whole(PlainCall(fs, op).fs)
  {
    assert op.dir in fs.up ==> !Dots(op.name);
    assert NamesFrom(fs.recs, PlainCall(fs, op).fs.recs, op.name);
  }

  lemma FileRenameNames(fs: Fs, r: nat, dir: nat, name: string, at: nat, noreplace: bool)
    requires r in fs.recs
    ensures var fs' := FileRename(fs, r, dir, name, at, noreplace).fs;
      NamesFrom(fs.recs, fs'.recs, name) && fs'.noDot == fs.noDot && fs'.noUp == fs.noUp
  {
  }

  lemma DirRenameNames(fs: Fs, r: nat, dir: nat, name: string, at: nat, noreplace: bool)
    requires r in fs.recs
    ensures var fs' := DirRename(fs, r, dir, name, at, noreplace).fs;
      NamesFrom(fs.recs, fs'.recs, name) && fs'.noDot == fs.noDot && fs'.noUp == fs.noUp
  {
  }

  lemma RenameWhole(fs: Fs, op: Op)
    requires Whole(fs) && op.Rename?
    ensures Whole(PlainCall(fs, op).fs)
  {
    var v := Lookup(fs.recs, op.src, op.was);
    if op.dir in fs.up && !Dots(op.name) && v.Some? && !(op.src == op.dir && op.was == op.name) {
      FileRenameNames(fs, v.value, op.dir, op.name, op.at, op.noreplace);
      DirRenameNames(fs, v.value, op.dir, op.name, op.at, op.noreplace);
    }
  }

  ghost predicate NamesKept(fs: Fs, fs': Fs) {
    && fs'.noDot == fs.noDot && fs'.noUp == fs.noUp
    && forall r :: r in fs'.recs ==> r in fs.recs && fs'.recs[r].name == fs.recs[r].name
  }

  lemma KeptWhole(fs: Fs, fs': Fs)
    requires Whole(fs) && NamesKept(fs, fs')
    ensures Whole(fs')
  {
  }

  lemma UnlinkNames(fs: Fs, dir: nat, name: string)
    ensures NamesKept(fs, UnlinkCall(fs, dir, name).fs) && NamesKept(fs, RmdirCall(fs, dir, name).fs)
  {
  }

  lemma ExchangeNames(fs: Fs, src: nat, was: string, dir: nat, name: string)
    ensures NamesKept(fs, ExchangeCall(fs, src, was, dir, name).fs)
  {
  }

  lemma SlotNames(fs: Fs, op: Op)
    requires op.Open? || op.Retain? || op.Close?
    ensures NamesKept(fs, PlainCall(fs, op).fs)
  {
  }

  lemma OtherWhole(fs: Fs, op: Op)
    requires Whole(fs) && !op.Create? && !op.Mkdir? && !op.Symlink? && !op.Link? && !op.Rename?
    ensures Whole(PlainCall(fs, op).fs)
  {
    match op
    case Unlink(dir, name) => UnlinkNames(fs, dir, name);
    case Rmdir(dir, name) => UnlinkNames(fs, dir, name);
    case Exchange(src, was, dir, name) => ExchangeNames(fs, src, was, dir, name);
    case Open(_, _, _) => SlotNames(fs, op);
    case Retain(_) => SlotNames(fs, op);
    case Close(_) => SlotNames(fs, op);
    KeptWhole(fs, PlainCall(fs, op).fs);
  }

  lemma PlainWhole(fs: Fs, op: Op)
    requires Whole(fs) && !OnDots(fs, op)
    ensures Whole(PlainCall(fs, op).fs) <==> !AddsDots(fs, op)
  {
    if op.Create? || op.Mkdir? {
      CreateWhole(fs, op);
    } else if op.Symlink? || op.Link? {
      LinkWhole(fs, op);
    } else if op.Rename? {
      RenameWhole(fs, op);
    } else {
      OtherWhole(fs, op);
    }
  }

  lemma OpenDotInv(fs: Fs, dir: nat, name: string)
    requires Inv(fs) && DotRec(fs, dir, name)
    ensures Inv(OpenDot(fs, dir, name).fs)
  {
    var k, i := FreeSlot(fs.slots), DotIno(fs, dir, name);
    if k.Some? {
      var d :| Depths(fs.up, ROOT, d);
      assert i in fs.up;
      assert fs.links[i] == Due(fs, i);
      OpenedInv(fs, k.value, i);
    }
  }

  /** rmdir of a dot name changes something exactly when the directory is empty, and then a dot record is gone. */
  lemma RmdirDotTears(fs: Fs, dir: nat, name: string)
    requires DotRec(fs, dir, name)
    ensures var fs' := RmdirDot(fs, dir, name).fs;
      if EmptyDir(fs.recs, DotIno(fs, dir, name)) then !Whole(fs') else fs' == fs
  {
    var i := DotIno(fs, dir, name);
    TornNotWhole(fs.(up := fs.up - {i}, links := Bump(fs.links, dir, -1) - {i}), dir, name);
  }

  /** rename of a dot name: the same. */
  lemma RenameDotTears(fs: Fs, op: Op)
    requires op.Rename? && DotRec(fs, op.src, op.was)
    ensures var fs' := RenameDot(fs, op.src, op.was, op.dir, op.name, op.at, op.noreplace).fs;
      if RenamesDots(fs, op) then !Whole(fs') else fs' == fs
  {
    var v, i := Lookup(fs.recs, op.dir, op.name), DotIno(fs, op.src, op.was);
    if RenamesDots(fs, op) {
      if v.Some? {
        var fs' := DotReplaced(fs, op.src, op.was, i, v.value);
        assert op.src in fs'.noDot || op.src in fs'.noUp;
      } else {
        var fs' := DotMoved(fs, op.src, op.was, op.at, Rec(op.dir, op.name, i));
        assert op.src in fs'.noDot || op.src in fs'.noUp;
      }
    }
  }

  lemma DotsInv(fs: Fs, op: Op)
    requires Inv(fs) && OnDots(fs, op)
    ensures Inv(DotCall(fs, op).fs) <==> !RemovesDots(fs, op) && !RenamesDots(fs, op)
  {
    match op
    case Create(dir, name, _, _, _) => OpenDotInv(fs, dir, name);
    case Open(dir, name, _) => OpenDotInv(fs, dir, name);
    case Rmdir(dir, name) => RmdirDotTears(fs, dir, name);
    case Rename(_, _, _, _, _, _) => RenameDotTears(fs, op);
    case _ =>
  }

  lemma TornNotWhole(fs: Fs, dir: nat, name: string)
    ensures var fs' := Torn(fs, dir, name); fs'.noDot != {} || fs'.noUp != {}
  {
    var fs' := Torn(fs, dir, name);
    assert dir in fs'.noDot || dir in fs'.noUp;
  }

  /** Every call keeps counts, records, tree, open inodes and dot records, exactly when it does not tear a dot
      record. */
  lemma StepInvExactly(fs: Fs, op: Op)
    requires Inv(fs)
    ensures Inv(Step(fs, op)) <==> !Tears(fs, op)
  {
    if OnDots(fs, op) {
      DotsInv(fs, op);
    } else {
      PlainSound(fs, op);
      PlainWhole(fs, op);
    }
  }

  ghost predicate NeverTears(fs: Fs, ops: seq<Op>) {
    ops == [] || (NeverTears(fs, ops[..|ops| - 1]) && !Tears(Run(fs, ops[..|ops| - 1]), ops[|ops| - 1]))
  }

  ghost predicate AlwaysInv(fs: Fs, ops: seq<Op>) {
    Inv(Run(fs, ops)) && (ops == [] || AlwaysInv(fs, ops[..|ops| - 1]))
  }

  /** In every state of a run: exact counts, ".." entries that agree with the records, one tree under the root, and
      inodes without names that exist exactly as long as they are open; exactly in the runs in which no call tears a dot
      record. */
  lemma {:induction false} RunInv(fs: Fs, ops: seq<Op>)
    requires Inv(fs)
    ensures AlwaysInv(fs, ops) <==> NeverTears(fs, ops)
    ensures NeverTears(fs, ops) ==> Inv(Run(fs, ops))
  {
    if ops != [] {
      RunInv(fs, ops[..|ops| - 1]);
      if NeverTears(fs, ops[..|ops| - 1]) {
        StepInvExactly(Run(fs, ops[..|ops| - 1]), ops[|ops| - 1]);
      }
    }
  }

  function Bare(): Fs { Fs(map[], map[ROOT := ROOT], map[ROOT := 2], {}, {}, map[], {}, {}) }

  lemma BareInv()
    ensures Inv(Bare())
  {
    var fs := Bare();
    assert Subs(fs.recs, fs.up.Keys, ROOT) == {};
    assert Depths(fs.up, ROOT, map[ROOT := 0]);
  }

  /** From a bare root, without the invariant: after any run that tears no dot record a directory's count is two plus
      the directories in it and a file's the number of its names; every directory reaches the root by its ".." entries;
      the record that names a directory lies in its ".."; and an inode without a name is open. */
  lemma FromBare(ops: seq<Op>, i: nat)
    requires NeverTears(Bare(), ops)
    ensures var fs := Run(Bare(), ops);
      && (i in fs.up ==>
            && i in fs.links && fs.links[i] == 2 + |Subs(fs.recs, fs.up.Keys, i)|
            && exists n :: Climb(fs.up, i, n) == ROOT)
      && (i in fs.links && i !in fs.up ==>
            fs.links[i] == |Names(fs.recs, i)| && (Names(fs.recs, i) == {} ==> IsOpen(fs.slots, i)))
      && (i in fs.recs && fs.recs[i].ino in fs.up ==> fs.up[fs.recs[i].ino] == fs.recs[i].dir)
  {
    var fs := Run(Bare(), ops);
    BareInv();
    RunInv(Bare(), ops);
    assert i in fs.recs ==> RecOk(fs, i);
    if i in fs.up {
      var d :| Depths(fs.up, ROOT, d);
      ClimbReaches(fs.up, ROOT, d, i);
    }
  }

  // ─── exchange twice ───

  /** Lookup sees directories and names, not inodes. */
  lemma LookupSame(recs: map<nat, Rec>, recs': map<nat, Rec>, dir: nat, name: string)
    requires recs'.Keys == recs.Keys && forall r :: r in recs ==>
      recs'[r].dir == recs[r].dir && recs'[r].name == recs[r].name
    ensures Lookup(recs', dir, name) == Lookup(recs, dir, name)
  {
    assert Matching(recs', dir, name) == Matching(recs, dir, name);
  }

  lemma BumpBack(links: map<nat, nat>, src: nat, dst: nat, delta: (int, int))
    requires -1 <= delta.0 <= 1 && delta.1 == -delta.0 && src != dst && src in links && dst in links
    requires (delta.0 < 0 ==> links[src] > 1) && (delta.1 < 0 ==> links[dst] > 1) && links[src] > 0 && links[dst] > 0
    ensures Adjust(Adjust(links, src, dst, delta), src, dst, (delta.1, delta.0)) == links
  {
  }

  lemma SwapBackRecs(recs: map<nat, Rec>, r: nat, q: nat)
    requires r in recs && q in recs
    ensures SwappedRecs(SwappedRecs(recs, r, q), r, q) == recs
  {
  }

  lemma SwapBackUp(up: map<nat, nat>, a: nat, pa: nat, b: nat, pb: nat)
    requires a != b && (a in up ==> up[a] == pa) && (b in up ==> up[b] == pb)
    ensures SwappedUp(SwappedUp(up, a, pa, b, pb), b, pa, a, pb) == up
  {
  }

  lemma SwapBackLinks(fs: Fs, r: nat, q: nat)
    requires CountsOk(fs) && RecsOk(fs) && r in fs.recs && q in fs.recs && fs.recs[r].ino != fs.recs[q].ino
    ensures var a, b := fs.recs[r], fs.recs[q];
      var aDir, bDir := a.ino in fs.up, b.ino in fs.up;
      Adjust(Adjust(fs.links, a.dir, b.dir, ExchangeDelta(a.dir, b.dir, aDir, bDir)), a.dir, b.dir,
        ExchangeDelta(a.dir, b.dir, bDir, aDir))
        == fs.links
  {
    var a, b := fs.recs[r], fs.recs[q];
    assert RecOk(fs, r) && RecOk(fs, q);
    if a.dir != b.dir {
      if a.ino in fs.up {
        ParentCounts(fs, r);
      }
      if b.ino in fs.up {
        ParentCounts(fs, q);
      }
      assert fs.links[a.dir] == Due(fs, a.dir) && fs.links[b.dir] == Due(fs, b.dir);
      BumpBack(fs.links, a.dir, b.dir, ExchangeDelta(a.dir, b.dir, a.ino in fs.up, b.ino in fs.up));
    }
  }

  lemma SwapBack(fs: Fs, r: nat, q: nat)
    requires CountsOk(fs) && RecsOk(fs) && r in fs.recs && q in fs.recs && fs.recs[r].ino != fs.recs[q].ino
    ensures var fs' := Exchanged(fs, r, q); r in fs'.recs && q in fs'.recs && Exchanged(fs', r, q) == fs
  {
    var a, b, fs' := fs.recs[r], fs.recs[q], Exchanged(fs, r, q);
    assert RecOk(fs, r) && RecOk(fs, q);
    ExchangedKeys(fs, r, q);
    assert fs'.recs[r] == a.(ino := b.ino) && fs'.recs[q] == b.(ino := a.ino);
    SwapBackRecs(fs.recs, r, q);
    SwapBackUp(fs.up, a.ino, a.dir, b.ino, b.dir);
    SwapBackLinks(fs, r, q);
  }

  /** The climb from `x` ends at the root before it is given up. */
  predicate Shallow(up: map<nat, nat>, x: nat) {
    var c := Chain(up, ROOT, x, MAX_CHAIN);
    c != [] && c[|c| - 1] == ROOT
  }

  /** What goes back must be allowed to: the climb of the second exchange starts at the other ends. */
  lemma MayExchangeAgain(fs: Fs, r: nat, q: nat)
    requires RecsOk(fs) && Tree(fs.up, ROOT) && MayExchange(fs, r, q) && fs.noUp == {}
    ensures var a, b := fs.recs[r], fs.recs[q];
      MayExchange(Exchanged(fs, r, q), r, q)
      <==> (a.dir != b.dir ==> (a.ino in fs.up ==> Shallow(fs.up, a.dir)) && (b.ino in fs.up ==> Shallow(fs.up, b.dir)))
  {
    var a, b, fs' := fs.recs[r], fs.recs[q], Exchanged(fs, r, q);
    var d :| Depths(fs.up, ROOT, d);
    var d' := ExchangedTree(fs, d, r, q);
    ExchangedKeys(fs, r, q);
    assert fs'.recs[r] == a.(ino := b.ino) && fs'.recs[q] == b.(ino := a.ino);
    assert RecOk(fs, r) && RecOk(fs, q);
    if a.dir != b.dir {
      BackAllowed(fs.up, d, fs'.up, d', a.ino, a.dir);
      BackAllowed(fs.up, d, fs'.up, d', b.ino, b.dir);
    }
  }

  lemma BackAllowed(up: map<nat, nat>, d: map<nat, nat>, up': map<nat, nat>, d': map<nat, nat>, i: nat, p: nat)
    requires Depths(up, ROOT, d) && Depths(up', ROOT, d') && up'.Keys == up.Keys && p in up && d'[p] == d[p]
    requires (i in up ==> i != ROOT && up[i] == p) && (Under(up', ROOT, d', i, p) <==> Under(up, ROOT, d, i, p))
    ensures i in up ==> (OnChain(up', ROOT, i, p, MAX_CHAIN) <==> !Shallow(up, p))
  {
    if i in up {
      ParentNotUnder(up, ROOT, d, i);
      OnChainExact(up', ROOT, d', i, p, MAX_CHAIN);
      ChainExact(up, ROOT, d, p, MAX_CHAIN, i);
    }
  }

  /** RENAME_EXCHANGE a second time with the same names is accepted exactly when neither name lies too deep for the
      directory that has to go back there, and then it restores the file system. */
  lemma ExchangeTwiceExactly(fs: Fs, src: nat, was: string, dir: nat, name: string)
    requires Inv(fs) && ExchangeCall(fs, src, was, dir, name).code == 0
    ensures var r, q := Lookup(fs.recs, src, was), Lookup(fs.recs, dir, name);
      && r.Some? && q.Some?
      && var a, b := fs.recs[r.value].ino, fs.recs[q.value].ino;
         var again := ExchangeCall(ExchangeCall(fs, src, was, dir, name).fs, src, was, dir, name);
         && (again.code == 0 <==>
               (a != b && src != dir ==> (a in fs.up ==> Shallow(fs.up, src)) && (b in fs.up ==> Shallow(fs.up, dir))))
         && (again.code == 0 ==> again.fs == fs)
  {
    var r, q := Lookup(fs.recs, src, was).value, Lookup(fs.recs, dir, name).value;
    if fs.recs[r].ino != fs.recs[q].ino {
      ExchangeDecides(fs, src, was, dir, name);
      assert ExchangeCall(fs, src, was, dir, name).fs == Exchanged(fs, r, q);
      ExchangeAgain(fs, src, was, dir, name, r, q);
    }
  }

  /** Names the call back sees: the same two positions, with the inodes the other way round. */
  lemma ExchangedLookups(fs: Fs, src: nat, was: string, dir: nat, name: string, r: nat, q: nat)
    requires RecsOk(fs) && r in fs.recs && q in fs.recs && fs.recs[r].ino != fs.recs[q].ino
    requires Lookup(fs.recs, src, was) == Some(r) && Lookup(fs.recs, dir, name) == Some(q)
    ensures var recs := Exchanged(fs, r, q).recs;
      && Lookup(recs, src, was) == Some(r) && Lookup(recs, dir, name) == Some(q)
      && recs[r].ino == fs.recs[q].ino && recs[q].ino == fs.recs[r].ino
  {
    var recs := SwappedRecs(fs.recs, r, q);
    ExchangedKeys(fs, r, q);
    LookupSame(fs.recs, recs, src, was);
    LookupSame(fs.recs, recs, dir, name);
  }

  lemma ExchangeGoesBack(fs: Fs, fs': Fs, src: nat, was: string, dir: nat, name: string, r: nat, q: nat, may: bool)
    requires !Dots(was) && !Dots(name) && Lookup(fs'.recs, src, was) == Some(r)
    requires Lookup(fs'.recs, dir, name) == Some(q)
    requires r in fs'.recs && q in fs'.recs && fs'.recs[r].ino != fs'.recs[q].ino
    requires (MayExchange(fs', r, q) <==> may) && Exchanged(fs', r, q) == fs
    ensures var again := ExchangeCall(fs', src, was, dir, name);
      (again.code == 0 <==> may) && (again.code == 0 ==> again.fs == fs)
  {
    ExchangeDecides(fs', src, was, dir, name);
  }

  lemma ExchangeAgain(fs: Fs, src: nat, was: string, dir: nat, name: string, r: nat, q: nat)
    requires Inv(fs) && MayExchange(fs, r, q) && !Dots(was) && !Dots(name)
    requires Lookup(fs.recs, src, was) == Some(r) && Lookup(fs.recs, dir, name) == Some(q)
    ensures var a, b := fs.recs[r].ino, fs.recs[q].ino;
      var again := ExchangeCall(Exchanged(fs, r, q), src, was, dir, name);
      && (again.code == 0 <==> (src != dir ==>
        (a in fs.up ==> Shallow(fs.up, src)) && (b in fs.up ==> Shallow(fs.up, dir))))
      && (again.code == 0 ==> again.fs == fs)
  {
    MayExchangeAgain(fs, r, q);
    SwapBack(fs, r, q);
    ExchangedLookups(fs, src, was, dir, name, r, q);
    var may := src != dir ==>
      (fs.recs[r].ino in fs.up ==> Shallow(fs.up, src)) && (fs.recs[q].ino in fs.up ==> Shallow(fs.up, dir));
    ExchangeGoesBack(fs, Exchanged(fs, r, q), src, was, dir, name, r, q, may);
  }

  /** The call on two different inodes does what it may. */
  lemma ExchangeDecides(fs: Fs, src: nat, was: string, dir: nat, name: string)
    requires !Dots(was) && !Dots(name) && Lookup(fs.recs, src, was).Some? && Lookup(fs.recs, dir, name).Some?
    ensures var r, q, out := Lookup(fs.recs, src, was).value, Lookup(fs.recs, dir, name).value,
      ExchangeCall(fs, src, was, dir, name);
      fs.recs[r].ino != fs.recs[q].ino ==>
        (out.code == 0 <==> MayExchange(fs, r, q)) && (out.code == 0 ==> out.fs == Exchanged(fs, r, q))
  {
  }

}
