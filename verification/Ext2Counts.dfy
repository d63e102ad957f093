/** What every ext2 call keeps besides the tree: exact link counts, ".." entries that agree with the records, and inodes
    without names that exist exactly as long as they are open. */
module Ext2Counts {
  import opened Ext2Links

  ghost predicate CountsOk(fs: Fs) { forall i :: i in fs.links ==> fs.links[i] == Due(fs, i) }

  ghost predicate RecOk(fs: Fs, r: nat) {
    r in fs.recs &&
    var x := fs.recs[r];
    x.ino in fs.links && x.dir in fs.up && x.ino != ROOT && (x.ino in fs.up ==> fs.up[x.ino] == x.dir)
  }

  ghost predicate OneName(recs: map<nat, Rec>, dirs: set<nat>) {
    forall r, q :: r in recs && q in recs && recs[r].ino == recs[q].ino && recs[r].ino in dirs ==> r == q
  }

  ghost predicate HasName(recs: map<nat, Rec>, i: nat) { exists r :: r in recs && recs[r].ino == i }

  ghost predicate RecsOk(fs: Fs) {
    && ROOT in fs.up && fs.up[ROOT] == ROOT && fs.up.Keys <= fs.links.Keys
    && fs.syms <= fs.links.Keys && fs.syms !! fs.up.Keys && fs.spent !! fs.links.Keys
    && (forall r :: r in fs.recs ==> RecOk(fs, r)) && OneName(fs.recs, fs.up.Keys)
    && (forall i :: i in fs.up && i != ROOT ==> HasName(fs.recs, i))
  }

  ghost predicate SlotOk(fs: Fs, k: nat) {
    k in fs.slots &&
    var s := fs.slots[k];
    k < MAX_OPEN && s.refs > 0 && (s.pending ==> s.ino in fs.links && s.ino !in fs.up && fs.links[s.ino] == 0)
  }

  ghost predicate AllPending(slots: map<nat, Slot>, i: nat) {
    forall k :: k in slots && slots[k].ino == i ==> slots[k].pending
  }

  /** An inode without a name is kept by open slots, all of which know it. */
  ghost predicate SlotsOk(fs: Fs) {
    && (forall k :: k in fs.slots ==> SlotOk(fs, k))
    && (forall i :: i in fs.links && fs.links[i] == 0 ==> IsOpen(fs.slots, i) && AllPending(fs.slots, i))
  }

  ghost predicate Books(fs: Fs) { CountsOk(fs) && RecsOk(fs) && SlotsOk(fs) }

  // ─── files ───

  lemma NamesPositive(fs: Fs, r: nat)
    requires CountsOk(fs) && r in fs.recs && fs.recs[r].ino in fs.links
    ensures fs.links[fs.recs[r].ino] > 0
  {
    if fs.recs[r].ino !in fs.up {
      assert r in Names(fs.recs, fs.recs[r].ino);
    }
  }

  lemma AddedDue(fs: Fs, at: nat, x: Rec, i: nat)
    requires at !in fs.recs && x.ino !in fs.up
    ensures Due(fs.(recs := fs.recs[at := x]), i) == Due(fs, i) + (if i !in fs.up && x.ino == i then 1 else 0)
  {
    AddRec(fs.recs, fs.up.Keys, at, x, i);
  }

  lemma AddedRecs(fs: Fs, at: nat, x: Rec, links: map<nat, nat>)
    requires RecsOk(fs) && at !in fs.recs && x.ino !in fs.up && x.dir in fs.up && x.ino !in fs.spent
    requires links.Keys == fs.links.Keys + {x.ino}
    ensures RecsOk(fs.(recs := fs.recs[at := x], links := links))
  {
    var fs' := fs.(recs := fs.recs[at := x], links := links);
    forall r | r in fs'.recs ensures RecOk(fs', r) {
      assert r != at ==> RecOk(fs, r);
    }
    forall i | i in fs'.up && i != ROOT ensures HasName(fs'.recs, i) {
      assert HasName(fs.recs, i);
      var r :| r in fs.recs && fs.recs[r].ino == i;
      assert r in fs'.recs && fs'.recs[r].ino == i;
    }
  }

  lemma NoNames(fs: Fs, i: nat)
    requires RecsOk(fs) && i !in fs.links
    ensures Names(fs.recs, i) == {} && forall dirs: set<nat> :: Subs(fs.recs, dirs, i) == {}
  {
    forall r | r in fs.recs ensures fs.recs[r].ino != i && fs.recs[r].dir != i {
      assert RecOk(fs, r);
    }
  }

  lemma WithFileCounts(fs: Fs, at: nat, x: Rec)
    requires CountsOk(fs) && RecsOk(fs) && at !in fs.recs && x.ino !in fs.links
    ensures CountsOk(WithFile(fs, at, x))
  {
    var fs' := WithFile(fs, at, x);
    NoNames(fs, x.ino);
    forall i | i in fs'.links ensures fs'.links[i] == Due(fs', i) {
      AddedDue(fs, at, x, i);
      assert Due(fs', i) == Due(fs.(recs := fs.recs[at := x]), i);
    }
  }

  lemma WithFileSlots(fs: Fs, at: nat, x: Rec)
    requires SlotsOk(fs) && x.ino !in fs.links
    ensures SlotsOk(WithFile(fs, at, x))
  {
    var fs' := WithFile(fs, at, x);
    forall k | k in fs'.slots ensures SlotOk(fs', k) {
      assert SlotOk(fs, k);
    }
  }

  lemma WithFileBooks(fs: Fs, at: nat, x: Rec)
    requires Books(fs) && at !in fs.recs && x.dir in fs.up && !NoInode(fs, x.ino)
    ensures Books(WithFile(fs, at, x))
  {
    AddedRecs(fs, at, x, fs.links[x.ino := 1]);
    WithFileCounts(fs, at, x);
    WithFileSlots(fs, at, x);
  }

  lemma WithSymlinkBooks(fs: Fs, at: nat, x: Rec)
    requires Books(fs) && at !in fs.recs && x.dir in fs.up && !NoInode(fs, x.ino)
    ensures Books(WithSymlink(fs, at, x))
  {
    WithFileBooks(fs, at, x);
    SymsBooks(WithFile(fs, at, x), fs.syms + {x.ino}, fs.spent);
  }

  lemma SymsBooks(fs: Fs, syms: set<nat>, spent: set<nat>)
    requires Books(fs) && syms <= fs.links.Keys && syms !! fs.up.Keys && spent !! fs.links.Keys
    ensures Books(fs.(syms := syms, spent := spent))
  {
    var fs' := fs.(syms := syms, spent := spent);
    forall i | i in fs'.links ensures fs'.links[i] == Due(fs', i) {
      assert fs.links[i] == Due(fs, i);
    }
    forall r | r in fs'.recs ensures RecOk(fs', r) {
      assert RecOk(fs, r);
    }
    forall k | k in fs'.slots ensures SlotOk(fs', k) {
      assert SlotOk(fs, k);
    }
  }

  lemma WithLinkCounts(fs: Fs, at: nat, x: Rec)
    requires CountsOk(fs) && at !in fs.recs && x.ino in fs.links && x.ino !in fs.up
    ensures CountsOk(WithLink(fs, at, x))
  {
    var fs' := WithLink(fs, at, x);
    forall i | i in fs'.links ensures fs'.links[i] == Due(fs', i) {
      AddedDue(fs, at, x, i);
      assert Due(fs', i) == Due(fs.(recs := fs.recs[at := x]), i) && fs.links[i] == Due(fs, i);
    }
  }

  /** Counts that change without reaching or leaving zero do not matter to open slots. */
  lemma SlotsRaised(fs: Fs, fs': Fs)
    requires SlotsOk(fs) && fs'.slots == fs.slots && fs'.links.Keys == fs.links.Keys && fs'.up.Keys == fs.up.Keys
    requires forall i :: i in fs.links ==> (fs'.links[i] == 0 <==> fs.links[i] == 0)
    ensures SlotsOk(fs')
  {
    forall k | k in fs'.slots ensures SlotOk(fs', k) {
      assert SlotOk(fs, k);
    }
  }

  lemma WithLinkSlots(fs: Fs, at: nat, x: Rec)
    requires SlotsOk(fs) && x.ino in fs.links && fs.links[x.ino] > 0
    ensures SlotsOk(WithLink(fs, at, x))
  {
    SlotsRaised(fs, WithLink(fs, at, x));
  }

  lemma WithLinkRecs(fs: Fs, at: nat, x: Rec)
    requires RecsOk(fs) && at !in fs.recs && x.dir in fs.up && x.ino in fs.links && x.ino !in fs.up
    ensures RecsOk(WithLink(fs, at, x))
  {
    AddedRecs(fs, at, x, Bump(fs.links, x.ino, 1));
  }

  lemma WithLinkBooks(fs: Fs, at: nat, x: Rec)
    requires Books(fs) && at !in fs.recs && x.dir in fs.up && Named(fs, x.ino) && x.ino !in fs.up
    ensures Books(WithLink(fs, at, x))
  {
    var r :| r in Names(fs.recs, x.ino);
    NamesPositive(fs, r);
    WithLinkRecs(fs, at, x);
    WithLinkCounts(fs, at, x);
    WithLinkSlots(fs, at, x);
  }

  /** The books with one link of `i` too many. */
  ghost predicate CountsBut(fs: Fs, i: nat) {
    forall j :: j in fs.links ==> fs.links[j] == Due(fs, j) + (if j == i then 1 else 0)
  }

  /** Inodes that nothing names may go. */
  lemma InodesGone(fs: Fs, links: map<nat, nat>, syms: set<nat>, slots: map<nat, Slot>)
    requires RecsOk(fs) && links.Keys <= fs.links.Keys && fs.up.Keys <= links.Keys && syms <= fs.syms
    requires syms <= links.Keys
    requires forall r :: r in fs.recs ==> fs.recs[r].ino in links
    ensures RecsOk(fs.(links := links, syms := syms, slots := slots))
  {
    var fs' := fs.(links := links, syms := syms, slots := slots);
    forall r | r in fs'.recs ensures RecOk(fs', r) {
      assert RecOk(fs, r);
    }
  }

  lemma LastName(fs: Fs, i: nat)
    requires CountsBut(fs, i) && i in fs.links && i !in fs.up && fs.links[i] <= 1
    ensures forall r :: r in fs.recs ==> fs.recs[r].ino != i
  {
    assert Names(fs.recs, i) == {};
    forall r | r in fs.recs ensures fs.recs[r].ino != i {
      assert fs.recs[r].ino == i ==> r in Names(fs.recs, i);
    }
  }

  lemma ReleasedRecs(fs: Fs, i: nat)
    requires CountsBut(fs, i) && RecsOk(fs) && i in fs.links && i !in fs.up
    ensures RecsOk(Released(fs, i))
  {
    assert forall r :: r in fs.recs ==> RecOk(fs, r);
    if fs.links[i] > 1 {
      InodesGone(fs, fs.links[i := fs.links[i] - 1], fs.syms, fs.slots);
    } else {
      LastName(fs, i);
      if IsOpen(fs.slots, i) {
        InodesGone(fs, fs.links[i := 0], fs.syms, Orphaned(fs.slots, i));
      } else {
        InodesGone(fs, fs.links - {i}, fs.syms - {i}, fs.slots);
      }
    }
  }

  lemma ReleasedCounts(fs: Fs, i: nat)
    requires CountsBut(fs, i) && i in fs.links && i !in fs.up
    ensures CountsOk(Released(fs, i))
  {
    var fs' := Released(fs, i);
    forall j | j in fs'.links ensures fs'.links[j] == Due(fs', j) {
      assert Due(fs', j) == Due(fs, j);
    }
  }

  lemma DeferredSlots(fs: Fs, i: nat)
    requires SlotsOk(fs) && i in fs.links && i !in fs.up && fs.links[i] > 0 && IsOpen(fs.slots, i)
    ensures SlotsOk(fs.(links := fs.links[i := 0], slots := Orphaned(fs.slots, i)))
  {
    var fs' := fs.(links := fs.links[i := 0], slots := Orphaned(fs.slots, i));
    forall k | k in fs'.slots ensures SlotOk(fs', k) {
      assert SlotOk(fs, k);
    }
    forall j | j in fs'.links && fs'.links[j] == 0 ensures IsOpen(fs'.slots, j) && AllPending(fs'.slots, j) {
      assert IsOpen(fs.slots, j) && (j != i ==> AllPending(fs.slots, j));
      var k :| k in fs.slots && fs.slots[k].ino == j;
      assert k in fs'.slots && fs'.slots[k].ino == j;
    }
  }

  lemma FreedSlots(fs: Fs, i: nat, syms: set<nat>)
    requires SlotsOk(fs) && !IsOpen(fs.slots, i)
    ensures SlotsOk(fs.(links := fs.links - {i}, syms := syms))
  {
    var fs' := fs.(links := fs.links - {i}, syms := syms);
    forall k | k in fs'.slots ensures SlotOk(fs', k) {
      assert SlotOk(fs, k) && fs.slots[k].ino != i;
    }
  }

  lemma ReleasedSlots(fs: Fs, i: nat)
    requires CountsBut(fs, i) && SlotsOk(fs) && i in fs.links && i !in fs.up
    ensures SlotsOk(Released(fs, i))
  {
    if fs.links[i] > 1 {
      SlotsRaised(fs, Released(fs, i));
    } else if IsOpen(fs.slots, i) {
      DeferredSlots(fs, i);
    } else {
      FreedSlots(fs, i, fs.syms - {i});
    }
  }

  lemma ReleasedBooks(fs: Fs, i: nat)
    requires CountsBut(fs, i) && RecsOk(fs) && SlotsOk(fs) && i in fs.links && i !in fs.up
    ensures Books(Released(fs, i))
  {
    ReleasedCounts(fs, i);
    ReleasedRecs(fs, i);
    ReleasedSlots(fs, i);
  }

  lemma SlotsSame(fs: Fs, fs': Fs)
    requires SlotsOk(fs) && fs'.slots == fs.slots && fs'.links == fs.links && fs'.up.Keys == fs.up.Keys
    ensures SlotsOk(fs')
  {
    forall k | k in fs'.slots ensures SlotOk(fs', k) {
      assert SlotOk(fs, k);
    }
  }

  /** Records that hold the same directories under their names. */
  lemma FewerRecs(fs: Fs, recs: map<nat, Rec>)
    requires RecsOk(fs)
    requires forall q :: q in recs ==> recs[q].ino in fs.links && recs[q].dir in fs.up && recs[q].ino != ROOT
    requires forall q :: q in recs && recs[q].ino in fs.up ==> q in fs.recs && recs[q] == fs.recs[q]
    requires forall q :: q in fs.recs && fs.recs[q].ino in fs.up ==> q in recs && recs[q] == fs.recs[q]
    ensures RecsOk(fs.(recs := recs))
  {
    var fs' := fs.(recs := recs);
    forall q | q in recs ensures RecOk(fs', q) {
      assert q in fs.recs ==> RecOk(fs, q);
    }
    forall i | i in fs.up && i != ROOT ensures HasName(recs, i) {
      assert HasName(fs.recs, i);
      var r :| r in fs.recs && fs.recs[r].ino == i;
      assert r in recs && recs[r].ino == i;
    }
  }

  lemma UnlinkedRecs(fs: Fs, r: nat)
    requires RecsOk(fs) && r in fs.recs && fs.recs[r].ino !in fs.up
    ensures RecsOk(fs.(recs := fs.recs - {r}))
  {
    forall q | q in fs.recs - {r} ensures fs.recs[q].ino in fs.links && fs.recs[q].dir in fs.up &&
      fs.recs[q].ino != ROOT {
      assert RecOk(fs, q);
    }
    FewerRecs(fs, fs.recs - {r});
  }

  lemma UnlinkedBooks(fs: Fs, r: nat)
    requires Books(fs) && r in fs.recs && fs.recs[r].ino !in fs.up
    ensures Books(Unlinked(fs, r))
  {
    var fs1, i := fs.(recs := fs.recs - {r}), fs.recs[r].ino;
    assert RecOk(fs, r);
    UnlinkedRecs(fs, r);
    SlotsSame(fs, fs1);
    forall j | j in fs1.links ensures fs1.links[j] == Due(fs1, j) + (if j == i then 1 else 0) {
      DelRec(fs.recs, fs.up.Keys, r, j);
      assert fs.links[j] == Due(fs, j);
    }
    ReleasedBooks(fs1, i);
  }

  lemma ReplacedDue(fs: Fs, r: nat, v: nat, i: nat)
    requires r in fs.recs && v in fs.recs && r != v && fs.recs[r].ino !in fs.up && fs.recs[v].ino !in fs.up
    ensures Due(fs.(recs := fs.recs[v := fs.recs[v].(ino := fs.recs[r].ino)] - {r}), i)
         == Due(fs, i) - (if fs.recs[v].ino == i then 1 else 0)
  {
    Retarget(fs.recs, fs.up.Keys, v, fs.recs[r].ino, i);
    DelRec(fs.recs[v := fs.recs[v].(ino := fs.recs[r].ino)], fs.up.Keys, r, i);
  }

  lemma FileReplacedRecs(fs: Fs, r: nat, v: nat)
    requires RecsOk(fs) && r in fs.recs && v in fs.recs && r != v && fs.recs[r].ino !in fs.up
    requires fs.recs[v].ino !in fs.up
    ensures RecsOk(fs.(recs := fs.recs[v := fs.recs[v].(ino := fs.recs[r].ino)] - {r}))
  {
    var recs := fs.recs[v := fs.recs[v].(ino := fs.recs[r].ino)] - {r};
    assert RecOk(fs, r) && RecOk(fs, v);
    forall q | q in recs ensures recs[q].ino in fs.links && recs[q].dir in fs.up && recs[q].ino != ROOT {
      assert RecOk(fs, q);
    }
    FewerRecs(fs, recs);
  }

  lemma FileReplacedBooks(fs: Fs, r: nat, v: nat)
    requires Books(fs) && r in fs.recs && v in fs.recs && r != v && fs.recs[r].ino !in fs.up && fs.recs[v].ino !in fs.up
    ensures Books(FileReplaced(fs, r, v))
  {
    var i := fs.recs[v].ino;
    var fs1 := fs.(recs := fs.recs[v := fs.recs[v].(ino := fs.recs[r].ino)] - {r});
    assert RecOk(fs, v);
    FileReplacedRecs(fs, r, v);
    SlotsSame(fs, fs1);
    forall j | j in fs1.links ensures fs1.links[j] == Due(fs1, j) + (if j == i then 1 else 0) {
      ReplacedDue(fs, r, v, j);
      assert fs.links[j] == Due(fs, j);
    }
    ReleasedBooks(fs1, i);
  }

  lemma MovedDue(fs: Fs, r: nat, at: nat, x: Rec, i: nat)
    requires r in fs.recs && at !in fs.recs && x.ino == fs.recs[r].ino
    ensures Due(fs.(recs := fs.recs[at := x] - {r}), i)
         == Due(fs, i) + (if i in fs.up && x.ino in fs.up
           then (if x.dir == i then 1 else 0) - (if fs.recs[r].dir == i then 1 else 0) else 0)
  {
    AddRec(fs.recs, fs.up.Keys, at, x, i);
    DelRec(fs.recs[at := x], fs.up.Keys, r, i);
  }

  lemma FileMovedRecs(fs: Fs, r: nat, at: nat, x: Rec)
    requires RecsOk(fs) && r in fs.recs && at !in fs.recs && x.ino == fs.recs[r].ino && x.ino !in fs.up
    requires x.dir in fs.up
    ensures RecsOk(FileMoved(fs, r, at, x))
  {
    var recs := fs.recs[at := x] - {r};
    assert RecOk(fs, r);
    forall q | q in recs ensures recs[q].ino in fs.links && recs[q].dir in fs.up && recs[q].ino != ROOT {
      assert q != at ==> RecOk(fs, q);
    }
    FewerRecs(fs, recs);
  }

  lemma FileMovedBooks(fs: Fs, r: nat, at: nat, x: Rec)
    requires Books(fs) && r in fs.recs && at !in fs.recs && x.ino == fs.recs[r].ino && x.ino !in fs.up && x.dir in fs.up
    ensures Books(FileMoved(fs, r, at, x))
  {
    var fs' := FileMoved(fs, r, at, x);
    FileMovedRecs(fs, r, at, x);
    SlotsSame(fs, fs');
    forall i | i in fs'.links ensures fs'.links[i] == Due(fs', i) {
      MovedDue(fs, r, at, x, i);
      assert fs.links[i] == Due(fs, i);
    }
  }

  // ─── directories ───

  /** A directory that holds a directory counts at least three. */
  lemma ParentCounts(fs: Fs, r: nat)
    requires CountsOk(fs) && RecsOk(fs) && r in fs.recs && fs.recs[r].ino in fs.up
    ensures fs.recs[r].dir in fs.links && fs.links[fs.recs[r].dir] >= 3
  {
    assert RecOk(fs, r);
    assert r in Subs(fs.recs, fs.up.Keys, fs.recs[r].dir);
  }

  lemma WithDirDue(fs: Fs, at: nat, x: Rec, i: nat)
    requires RecsOk(fs) && at !in fs.recs && x.dir in fs.up && x.ino !in fs.links
    ensures Due(WithDir(fs, at, x), i) == if i == x.ino then 2 else Due(fs, i) + (if i == x.dir then 1 else 0)
  {
    NoNames(fs, x.ino);
    forall r | r in fs.recs ensures fs.recs[r].ino != x.ino {
      assert RecOk(fs, r);
    }
    var dirs := fs.up.Keys + {x.ino};
    assert WithDir(fs, at, x).up.Keys == dirs;
    NewDir(fs.recs, fs.up.Keys, x.ino, i);
    AddRec(fs.recs, dirs, at, x, i);
  }

  lemma WithDirCounts(fs: Fs, at: nat, x: Rec)
    requires CountsOk(fs) && RecsOk(fs) && at !in fs.recs && x.dir in fs.up && x.ino !in fs.links
    ensures CountsOk(WithDir(fs, at, x))
  {
    var fs' := WithDir(fs, at, x);
    forall i | i in fs'.links ensures fs'.links[i] == Due(fs', i) {
      WithDirDue(fs, at, x, i);
      assert i != x.ino ==> fs.links[i] == Due(fs, i);
    }
  }

  lemma WithDirRecs(fs: Fs, at: nat, x: Rec)
    requires RecsOk(fs) && at !in fs.recs && x.dir in fs.up && !NoInode(fs, x.ino)
    ensures RecsOk(WithDir(fs, at, x))
  {
    var fs' := WithDir(fs, at, x);
    forall r | r in fs'.recs ensures RecOk(fs', r) && (r != at ==> fs'.recs[r].ino != x.ino) {
      assert r != at ==> RecOk(fs, r);
    }
    forall i | i in fs'.up && i != ROOT ensures HasName(fs'.recs, i) {
      if i == x.ino {
        assert at in fs'.recs;
      } else {
        assert HasName(fs.recs, i);
        var r :| r in fs.recs && fs.recs[r].ino == i;
        assert r in fs'.recs && fs'.recs[r].ino == i;
      }
    }
  }

  lemma WithDirSlots(fs: Fs, at: nat, x: Rec)
    requires SlotsOk(fs) && CountsOk(fs) && x.ino !in fs.links && x.dir in fs.up && x.dir in fs.links
    ensures SlotsOk(WithDir(fs, at, x))
  {
    var fs' := WithDir(fs, at, x);
    assert fs.links[x.dir] >= 2;
    forall k | k in fs'.slots ensures SlotOk(fs', k) {
      assert SlotOk(fs, k);
    }
  }

  lemma WithDirBooks(fs: Fs, at: nat, x: Rec)
    requires Books(fs) && at !in fs.recs && x.dir in fs.up && !NoInode(fs, x.ino)
    ensures Books(WithDir(fs, at, x))
  {
    WithDirCounts(fs, at, x);
    WithDirRecs(fs, at, x);
    WithDirSlots(fs, at, x);
  }

  /** Only directories gain, lose or go. */
  ghost predicate DirsOnly(fs: Fs, fs': Fs) {
    && fs'.slots == fs.slots && fs'.up.Keys <= fs.up.Keys && fs'.links.Keys <= fs.links.Keys
    && fs.links.Keys - fs'.links.Keys <= fs.up.Keys
    && forall i :: i in fs'.links ==> if i in fs.up then fs'.links[i] > 0 else fs'.links[i] == fs.links[i]
  }

  /** Directories are never without a name: whether slots keep inodes does not depend on them. */
  lemma SlotsDirs(fs: Fs, fs': Fs)
    requires SlotsOk(fs) && CountsOk(fs) && DirsOnly(fs, fs')
    ensures SlotsOk(fs')
  {
    forall k | k in fs'.slots ensures SlotOk(fs', k) {
      assert SlotOk(fs, k);
    }
  }

  lemma WithoutDirDue(fs: Fs, r: nat, i: nat)
    requires RecsOk(fs) && r in fs.recs && fs.recs[r].ino in fs.up && i != fs.recs[r].ino
    ensures Due(WithoutDir(fs, r), i) == Due(fs, i) - (if i in fs.up && i == fs.recs[r].dir then 1 else 0)
  {
    var x := fs.recs[r];
    DelRec(fs.recs, fs.up.Keys, r, i);
    NewDir(fs.recs - {r}, fs.up.Keys, x.ino, i);
    assert WithoutDir(fs, r).up.Keys == fs.up.Keys - {x.ino};
  }

  lemma WithoutDirCounts(fs: Fs, r: nat)
    requires CountsOk(fs) && RecsOk(fs) && r in fs.recs && fs.recs[r].ino in fs.up
    ensures CountsOk(WithoutDir(fs, r))
  {
    var fs' := WithoutDir(fs, r);
    ParentCounts(fs, r);
    assert RecOk(fs, r);
    forall i | i in fs'.links ensures fs'.links[i] == Due(fs', i) {
      WithoutDirDue(fs, r, i);
      assert fs.links[i] == Due(fs, i);
    }
  }

  lemma WithoutDirRecs(fs: Fs, r: nat)
    requires RecsOk(fs) && r in fs.recs && fs.recs[r].ino in fs.up && NoRecs(fs.recs, fs.recs[r].ino)
    ensures RecsOk(WithoutDir(fs, r))
  {
    var fs', gone := WithoutDir(fs, r), fs.recs[r].ino;
    assert RecOk(fs, r);
    forall q | q in fs'.recs ensures RecOk(fs', q) {
      assert RecOk(fs, q) && fs.recs[q].ino != gone;
    }
    forall i | i in fs'.up && i != ROOT ensures HasName(fs'.recs, i) {
      assert HasName(fs.recs, i);
      var q :| q in fs.recs && fs.recs[q].ino == i;
      assert q in fs'.recs && fs'.recs[q].ino == i;
    }
  }

  lemma WithoutDirSlots(fs: Fs, r: nat)
    requires CountsOk(fs) && RecsOk(fs) && SlotsOk(fs) && r in fs.recs && fs.recs[r].ino in fs.up
    ensures SlotsOk(WithoutDir(fs, r))
  {
    ParentCounts(fs, r);
    assert RecOk(fs, r);
    SlotsDirs(fs, WithoutDir(fs, r));
  }

  lemma WithoutDirBooks(fs: Fs, r: nat)
    requires Books(fs) && r in fs.recs && fs.recs[r].ino in fs.up && NoRecs(fs.recs, fs.recs[r].ino)
    ensures Books(WithoutDir(fs, r))
  {
    WithoutDirCounts(fs, r);
    WithoutDirRecs(fs, r);
    WithoutDirSlots(fs, r);
  }

  // ─── moving directories ───

  lemma AdjustKeys(links: map<nat, nat>, src: nat, dst: nat, delta: (int, int))
    ensures Adjust(links, src, dst, delta).Keys == links.Keys
  {
    assert Bump(links, dst, delta.1).Keys == links.Keys;
  }

  lemma DirMovedCountAt(fs: Fs, r: nat, at: nat, x: Rec, i: nat)
    requires CountsOk(fs) && RecsOk(fs) && r in fs.recs && at !in fs.recs && x.ino == fs.recs[r].ino
    requires x.ino in fs.up && x.dir in fs.up
    requires i in fs.links
    ensures var fs' := DirMoved(fs, r, at, x);
      && i in fs'.links && fs'.links[i] == Due(fs', i)
      && if i in fs.up then fs'.links[i] > 0 else fs'.links[i] == fs.links[i]
  {
    var fs', src := DirMoved(fs, r, at, x), fs.recs[r].dir;
    ParentCounts(fs, r);
    MovedDue(fs, r, at, x, i);
    assert fs.links[i] == Due(fs, i) && fs'.up.Keys == fs.up.Keys;
    AdjustAt(fs.links, src, x.dir, MoveDelta(src, x.dir), i);
    assert Due(fs', i) == Due(fs.(recs := fs.recs[at := x] - {r}), i);
  }

  lemma DirMovedCounts(fs: Fs, r: nat, at: nat, x: Rec)
    requires CountsOk(fs) && RecsOk(fs) && r in fs.recs && at !in fs.recs && x.ino == fs.recs[r].ino
    requires x.ino in fs.up && x.dir in fs.up
    ensures CountsOk(DirMoved(fs, r, at, x)) && DirsOnly(fs, DirMoved(fs, r, at, x))
  {
    var fs' := DirMoved(fs, r, at, x);
    AdjustKeys(fs.links, fs.recs[r].dir, x.dir, MoveDelta(fs.recs[r].dir, x.dir));
    forall i | i in fs.links
      ensures fs'.links[i] == Due(fs', i) && if i in fs.up then fs'.links[i] > 0 else fs'.links[i] == fs.links[i]
    {
      DirMovedCountAt(fs, r, at, x, i);
    }
  }

  lemma DirMovedRecs(fs: Fs, r: nat, at: nat, x: Rec)
    requires RecsOk(fs) && r in fs.recs && at !in fs.recs && x.ino == fs.recs[r].ino && x.ino in fs.up && x.dir in fs.up
    ensures RecsOk(DirMoved(fs, r, at, x))
  {
    var fs' := DirMoved(fs, r, at, x);
    assert RecOk(fs, r);
    forall q | q in fs'.recs ensures RecOk(fs', q) {
      DirMovedRecAt(fs, r, at, x, q);
    }
    forall i | i in fs'.up && i != ROOT ensures HasName(fs'.recs, i) {
      assert HasName(fs.recs, i);
      var q :| q in fs.recs && fs.recs[q].ino == i;
      var q' := if q == r then at else q;
      assert q' in fs'.recs && fs'.recs[q'].ino == i;
    }
  }

  lemma DirMovedRecAt(fs: Fs, r: nat, at: nat, x: Rec, q: nat)
    requires RecsOk(fs) && r in fs.recs && at !in fs.recs && x.ino == fs.recs[r].ino && x.ino in fs.up && x.dir in fs.up
    requires q in DirMoved(fs, r, at, x).recs
    ensures RecOk(DirMoved(fs, r, at, x), q)
  {
    AdjustKeys(fs.links, fs.recs[r].dir, x.dir, MoveDelta(fs.recs[r].dir, x.dir));
    assert RecOk(fs, r) && (q != at ==> RecOk(fs, q) && fs.recs[q].ino != x.ino);
  }

  lemma DirMovedBooks(fs: Fs, r: nat, at: nat, x: Rec)
    requires Books(fs) && r in fs.recs && at !in fs.recs && x.ino == fs.recs[r].ino && x.ino in fs.up && x.dir in fs.up
    ensures Books(DirMoved(fs, r, at, x))
  {
    DirMovedCounts(fs, r, at, x);
    DirMovedRecs(fs, r, at, x);
    SlotsDirs(fs, DirMoved(fs, r, at, x));
  }

  lemma VictimUnnamed(fs: Fs, r: nat, v: nat)
    requires RecsOk(fs) && r in fs.recs && v in fs.recs && fs.recs[r].ino != fs.recs[v].ino && fs.recs[v].ino in fs.up
    ensures var recs := fs.recs[v := fs.recs[v].(ino := fs.recs[r].ino)] - {r};
      forall q :: q in recs ==> recs[q].ino != fs.recs[v].ino
  {
  }

  /** Replacing an empty directory costs the mover's old parent its "..". */
  lemma DirReplacedDue(fs: Fs, r: nat, v: nat, i: nat)
    requires RecsOk(fs) && r in fs.recs && v in fs.recs && fs.recs[r].ino != fs.recs[v].ino
    requires fs.recs[r].ino in fs.up && fs.recs[v].ino in fs.up && i != fs.recs[v].ino
    ensures Due(DirReplaced(fs, r, v), i) == Due(fs, i) - (if i in fs.up && fs.recs[r].dir == i then 1 else 0)
  {
    var x, y := fs.recs[r], fs.recs[v];
    Retarget(fs.recs, fs.up.Keys, v, x.ino, i);
    DelRec(fs.recs[v := y.(ino := x.ino)], fs.up.Keys, r, i);
    VictimUnnamed(fs, r, v);
    var recs := fs.recs[v := y.(ino := x.ino)] - {r};
    NewDir(recs, fs.up.Keys, y.ino, i);
    ReplacedKeys(fs, r, v);
    assert |Subs(recs, fs.up.Keys - {y.ino}, i)| == |Subs(recs, fs.up.Keys, i)|;
  }

  lemma ReplacedKeys(fs: Fs, r: nat, v: nat)
    requires r in fs.recs && v in fs.recs && fs.recs[r].ino in fs.up
    ensures var fs' := DirReplaced(fs, r, v);
      && fs'.recs == fs.recs[v := fs.recs[v].(ino := fs.recs[r].ino)] - {r}
      && fs'.up.Keys == fs.up.Keys - {fs.recs[v].ino} && fs'.links.Keys == fs.links.Keys - {fs.recs[v].ino}
  {
    AdjustKeys(fs.links, fs.recs[r].dir, fs.recs[v].dir, ReplaceDelta(fs.recs[r].dir, fs.recs[v].dir));
  }

  lemma DirReplacedCountAt(fs: Fs, r: nat, v: nat, i: nat)
    requires CountsOk(fs) && RecsOk(fs) && r in fs.recs && v in fs.recs && fs.recs[r].ino != fs.recs[v].ino
    requires fs.recs[r].ino in fs.up && fs.recs[v].ino in fs.up && i in fs.links && i != fs.recs[v].ino
    ensures var fs' := DirReplaced(fs, r, v);
      && i in fs'.links && fs'.links[i] == Due(fs', i)
      && if i in fs.up then fs'.links[i] > 0 else fs'.links[i] == fs.links[i]
  {
    var x, y := fs.recs[r], fs.recs[v];
    ParentCounts(fs, r);
    DirReplacedDue(fs, r, v, i);
    assert fs.links[i] == Due(fs, i);
    AdjustAt(fs.links, x.dir, y.dir, ReplaceDelta(x.dir, y.dir), i);
  }

  lemma DirReplacedCounts(fs: Fs, r: nat, v: nat)
    requires CountsOk(fs) && RecsOk(fs) && r in fs.recs && v in fs.recs && fs.recs[r].ino != fs.recs[v].ino
    requires fs.recs[r].ino in fs.up && fs.recs[v].ino in fs.up
    ensures CountsOk(DirReplaced(fs, r, v)) && DirsOnly(fs, DirReplaced(fs, r, v))
  {
    var fs' := DirReplaced(fs, r, v);
    ReplacedKeys(fs, r, v);
    forall i | i in fs'.links
      ensures fs'.links[i] == Due(fs', i) && if i in fs.up then fs'.links[i] > 0 else fs'.links[i] == fs.links[i]
    {
      DirReplacedCountAt(fs, r, v, i);
    }
  }

  lemma DirReplacedRecAt(fs: Fs, r: nat, v: nat, q: nat)
    requires RecsOk(fs) && r in fs.recs && v in fs.recs && fs.recs[r].ino != fs.recs[v].ino
    requires fs.recs[r].ino in fs.up && fs.recs[v].ino in fs.up && NoRecs(fs.recs, fs.recs[v].ino)
    requires q in fs.recs && q != r
    ensures RecOk(DirReplaced(fs, r, v), q)
  {
    ReplacedKeys(fs, r, v);
    assert RecOk(fs, r) && RecOk(fs, v) && RecOk(fs, q);
    assert fs.recs[q].ino != fs.recs[r].ino && (q != v ==> fs.recs[q].ino != fs.recs[v].ino);
  }

  lemma DirReplacedRecs(fs: Fs, r: nat, v: nat)
    requires RecsOk(fs) && r in fs.recs && v in fs.recs && fs.recs[r].ino != fs.recs[v].ino
    requires fs.recs[r].ino in fs.up && fs.recs[v].ino in fs.up && NoRecs(fs.recs, fs.recs[v].ino)
    ensures RecsOk(DirReplaced(fs, r, v))
  {
    var fs' := DirReplaced(fs, r, v);
    ReplacedKeys(fs, r, v);
    assert RecOk(fs, r) && RecOk(fs, v);
    forall q | q in fs'.recs ensures RecOk(fs', q) {
      DirReplacedRecAt(fs, r, v, q);
    }
    forall i | i in fs'.up && i != ROOT ensures HasName(fs'.recs, i) {
      assert HasName(fs.recs, i);
      var q :| q in fs.recs && fs.recs[q].ino == i;
      var q' := if q == r then v else q;
      assert q' in fs'.recs && fs'.recs[q'].ino == i;
    }
  }

  lemma DirReplacedBooks(fs: Fs, r: nat, v: nat)
    requires Books(fs) && r in fs.recs && v in fs.recs && fs.recs[r].ino != fs.recs[v].ino
    requires fs.recs[r].ino in fs.up && fs.recs[v].ino in fs.up && NoRecs(fs.recs, fs.recs[v].ino)
    ensures Books(DirReplaced(fs, r, v))
  {
    DirReplacedCounts(fs, r, v);
    DirReplacedRecs(fs, r, v);
    SlotsDirs(fs, DirReplaced(fs, r, v));
  }

  // ─── exchange ───

  lemma ExchangeCounts(recs: map<nat, Rec>, dirs: set<nat>, r: nat, q: nat, i: nat)
    requires r in recs && q in recs && recs[r].ino != recs[q].ino
    ensures var a, b := recs[r], recs[q];
      var recs' := SwappedRecs(recs, r, q);
      var aDir, bDir := if a.ino in dirs then 1 else 0, if b.ino in dirs then 1 else 0;
      && |Names(recs', i)| == |Names(recs, i)|
      && |Subs(recs', dirs, i)| == |Subs(recs, dirs, i)| + (if a.dir == i then bDir - aDir else 0) +
        (if b.dir == i then aDir - bDir else 0)
  {
    Retarget(recs, dirs, r, recs[q].ino, i);
    Retarget(recs[r := recs[r].(ino := recs[q].ino)], dirs, q, recs[r].ino, i);
  }

  lemma ExchangedCountAt(fs: Fs, r: nat, q: nat, i: nat)
    requires CountsOk(fs) && RecsOk(fs) && r in fs.recs && q in fs.recs && fs.recs[r].ino != fs.recs[q].ino
    requires i in fs.links
    ensures var fs' := Exchanged(fs, r, q); i in fs'.links && fs'.links[i] == Due(fs', i)
    ensures if i in fs.up then Exchanged(fs, r, q).links[i] > 0 else Exchanged(fs, r, q).links[i] == fs.links[i]
  {
    var a, b, fs' := fs.recs[r], fs.recs[q], Exchanged(fs, r, q);
    ExchangeCounts(fs.recs, fs.up.Keys, r, q, i);
    assert fs'.recs == SwappedRecs(fs.recs, r, q) && fs'.up.Keys == fs.up.Keys;
    assert RecOk(fs, r) && RecOk(fs, q);
    if a.ino in fs.up {
      ParentCounts(fs, r);
    }
    if b.ino in fs.up {
      ParentCounts(fs, q);
    }
    assert fs.links[i] == Due(fs, i);
    AdjustAt(fs.links, a.dir, b.dir, ExchangeDelta(a.dir, b.dir, a.ino in fs.up, b.ino in fs.up), i);
  }

  lemma ExchangedNames(recs: map<nat, Rec>, dirs: set<nat>, r: nat, q: nat)
    requires OneName(recs, dirs) && r in recs && q in recs
    ensures OneName(SwappedRecs(recs, r, q), dirs)
    ensures forall i :: HasName(recs, i) ==> HasName(SwappedRecs(recs, r, q), i)
  {
    var recs' := SwappedRecs(recs, r, q);
    forall x, y | x in recs' && y in recs' && recs'[x].ino == recs'[y].ino && recs'[x].ino in dirs ensures x == y {
      var x0, y0 := Swapped(x, r, q), Swapped(y, r, q);
      assert recs[x0].ino == recs[y0].ino;
    }
    forall i | HasName(recs, i) ensures HasName(recs', i) {
      var x :| x in recs && recs[x].ino == i;
      assert Swapped(x, r, q) in recs' && recs'[Swapped(x, r, q)].ino == i;
    }
  }

  lemma ExchangedKeys(fs: Fs, r: nat, q: nat)
    requires RecsOk(fs) && r in fs.recs && q in fs.recs
    ensures var fs' := Exchanged(fs, r, q);
      && fs'.up.Keys == fs.up.Keys && fs'.links.Keys == fs.links.Keys && fs'.recs == SwappedRecs(fs.recs, r, q)
      && fs'.recs.Keys == fs.recs.Keys && ROOT in fs'.up && fs'.up[ROOT] == ROOT
  {
    var a, b := fs.recs[r], fs.recs[q];
    assert RecOk(fs, r) && RecOk(fs, q);
    AdjustKeys(fs.links, a.dir, b.dir, ExchangeDelta(a.dir, b.dir, a.ino in fs.up, b.ino in fs.up));
  }

  lemma ExchangedRecs(fs: Fs, r: nat, q: nat)
    requires RecsOk(fs) && r in fs.recs && q in fs.recs && fs.recs[r].ino != fs.recs[q].ino
    ensures RecsOk(Exchanged(fs, r, q)) && Exchanged(fs, r, q).links.Keys == fs.links.Keys
  {
    var fs' := Exchanged(fs, r, q);
    ExchangedKeys(fs, r, q);
    forall x | x in fs'.recs ensures RecOk(fs', x) {
      ExchangedRecAt(fs, r, q, x);
    }
    ExchangedNames(fs.recs, fs.up.Keys, r, q);
  }

  lemma ExchangedRecAt(fs: Fs, r: nat, q: nat, x: nat)
    requires RecsOk(fs) && r in fs.recs && q in fs.recs && fs.recs[r].ino != fs.recs[q].ino && x in fs.recs
    ensures RecOk(Exchanged(fs, r, q), x)
  {
    assert RecOk(fs, r) && RecOk(fs, q) && RecOk(fs, x);
    assert x != r && fs.recs[r].ino in fs.up ==> fs.recs[x].ino != fs.recs[r].ino;
    assert x != q && fs.recs[q].ino in fs.up ==> fs.recs[x].ino != fs.recs[q].ino;
  }

  function Swapped(x: nat, r: nat, q: nat): nat { if x == r then q else if x == q then r else x }

  lemma ExchangedCounts(fs: Fs, r: nat, q: nat)
    requires CountsOk(fs) && RecsOk(fs) && r in fs.recs && q in fs.recs && fs.recs[r].ino != fs.recs[q].ino
    ensures CountsOk(Exchanged(fs, r, q)) && DirsOnly(fs, Exchanged(fs, r, q))
  {
    var fs' := Exchanged(fs, r, q);
    ExchangedKeys(fs, r, q);
    forall i | i in fs.links
      ensures fs'.links[i] == Due(fs', i) && if i in fs.up then fs'.links[i] > 0 else fs'.links[i] == fs.links[i]
    {
      ExchangedCountAt(fs, r, q, i);
    }
  }

  lemma ExchangedBooks(fs: Fs, r: nat, q: nat)
    requires Books(fs) && r in fs.recs && q in fs.recs && fs.recs[r].ino != fs.recs[q].ino
    ensures Books(Exchanged(fs, r, q))
  {
    ExchangedRecs(fs, r, q);
    ExchangedCounts(fs, r, q);
    SlotsDirs(fs, Exchanged(fs, r, q));
  }

  // ─── open slots ───

  lemma CountsSame(fs: Fs, slots: map<nat, Slot>)
    requires CountsOk(fs) && RecsOk(fs)
    ensures CountsOk(fs.(slots := slots)) && RecsOk(fs.(slots := slots))
  {
    var fs' := fs.(slots := slots);
    forall i | i in fs'.links ensures fs'.links[i] == Due(fs', i) {
      assert fs.links[i] == Due(fs, i);
    }
    InodesGone(fs, fs.links, fs.syms, slots);
  }

  lemma OpenedBooks(fs: Fs, k: nat, i: nat)
    requires Books(fs) && k < MAX_OPEN && k !in fs.slots && (i in fs.links ==> fs.links[i] > 0)
    ensures Books(Opened(fs, k, i))
  {
    var fs' := Opened(fs, k, i);
    CountsSame(fs, fs'.slots);
    forall j | j in fs'.slots ensures SlotOk(fs', j) {
      assert j != k ==> SlotOk(fs, j);
    }
    forall j | j in fs'.links && fs'.links[j] == 0 ensures IsOpen(fs'.slots, j) && AllPending(fs'.slots, j) {
      assert IsOpen(fs.slots, j) && AllPending(fs.slots, j);
      var m :| m in fs.slots && fs.slots[m].ino == j;
      assert m in fs'.slots && fs'.slots[m].ino == j;
    }
  }

  lemma CountedBooks(fs: Fs, k: nat, refs: nat)
    requires Books(fs) && k in fs.slots && refs > 0
    ensures Books(fs.(slots := fs.slots[k := fs.slots[k].(refs := refs)]))
  {
    var fs' := fs.(slots := fs.slots[k := fs.slots[k].(refs := refs)]);
    CountsSame(fs, fs'.slots);
    forall j | j in fs'.slots ensures SlotOk(fs', j) {
      assert SlotOk(fs, j);
    }
    forall j | j in fs'.links && fs'.links[j] == 0 ensures IsOpen(fs'.slots, j) && AllPending(fs'.slots, j) {
      assert IsOpen(fs.slots, j) && AllPending(fs.slots, j);
      var m :| m in fs.slots && fs.slots[m].ino == j;
      assert m in fs'.slots && fs'.slots[m].ino == j;
    }
  }

  lemma UnusedSlot(fs: Fs, k: nat)
    requires SlotsOk(fs) && k in fs.slots && (fs.slots[k].pending ==> IsOpen(fs.slots - {k}, fs.slots[k].ino))
    ensures SlotsOk(fs.(slots := fs.slots - {k}))
  {
    var fs' := fs.(slots := fs.slots - {k});
    forall j | j in fs'.slots ensures SlotOk(fs', j) {
      assert SlotOk(fs, j);
    }
    forall j | j in fs'.links && fs'.links[j] == 0 ensures IsOpen(fs'.slots, j) && AllPending(fs'.slots, j) {
      assert IsOpen(fs.slots, j) && AllPending(fs.slots, j);
      var m :| m in fs.slots && fs.slots[m].ino == j;
      if m != k {
        assert m in fs'.slots && fs'.slots[m].ino == j;
      }
    }
  }

  lemma ReclaimedBooks(fs: Fs, k: nat)
    requires Books(fs) && k in fs.slots && fs.slots[k].pending && !IsOpen(fs.slots - {k}, fs.slots[k].ino)
    ensures var i := fs.slots[k].ino;
      Books(fs.(slots := fs.slots - {k}, links := fs.links - {i}, syms := fs.syms - {i}))
  {
    var i := fs.slots[k].ino;
    assert SlotOk(fs, k);
    assert Names(fs.recs, i) == {};
    forall r | r in fs.recs ensures fs.recs[r].ino in fs.links - {i} {
      assert RecOk(fs, r) && (fs.recs[r].ino == i ==> r in Names(fs.recs, i));
    }
    InodesGone(fs, fs.links - {i}, fs.syms - {i}, fs.slots - {k});
    ReclaimedCounts(fs, k);
    ReclaimedSlots(fs, k);
  }

  lemma ReclaimedCounts(fs: Fs, k: nat)
    requires CountsOk(fs) && k in fs.slots
    ensures var i := fs.slots[k].ino;
      CountsOk(fs.(slots := fs.slots - {k}, links := fs.links - {i}, syms := fs.syms - {i}))
  {
    var i := fs.slots[k].ino;
    var fs' := fs.(slots := fs.slots - {k}, links := fs.links - {i}, syms := fs.syms - {i});
    forall j | j in fs'.links ensures fs'.links[j] == Due(fs', j) {
      assert fs.links[j] == Due(fs, j);
    }
  }

  lemma ReclaimedSlots(fs: Fs, k: nat)
    requires SlotsOk(fs) && k in fs.slots && !IsOpen(fs.slots - {k}, fs.slots[k].ino)
    ensures var i := fs.slots[k].ino;
      SlotsOk(fs.(slots := fs.slots - {k}, links := fs.links - {i}, syms := fs.syms - {i}))
  {
    var i := fs.slots[k].ino;
    var fs' := fs.(slots := fs.slots - {k}, links := fs.links - {i}, syms := fs.syms - {i});
    forall j | j in fs'.slots ensures SlotOk(fs', j) {
      assert SlotOk(fs, j) && fs'.slots[j].ino != i;
    }
    forall j | j in fs'.links && fs'.links[j] == 0 ensures IsOpen(fs'.slots, j) && AllPending(fs'.slots, j) {
      assert IsOpen(fs.slots, j) && AllPending(fs.slots, j);
      var m :| m in fs.slots && fs.slots[m].ino == j;
      assert m in fs'.slots && fs'.slots[m].ino == j;
    }
  }

  lemma ClosedBooks(fs: Fs, k: nat)
    requires Books(fs) && k in fs.slots
    ensures Books(Closed(fs, k))
  {
    var s := fs.slots[k];
    assert SlotOk(fs, k);
    if s.refs > 1 {
      CountedBooks(fs, k, s.refs - 1);
    } else if s.pending && !IsOpen(fs.slots - {k}, s.ino) {
      ReclaimedBooks(fs, k);
    } else {
      CountsSame(fs, fs.slots - {k});
      UnusedSlot(fs, k);
    }
  }
}
