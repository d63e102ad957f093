/** ext2 directories: records, ".." entries, link counts, and the small table of open files that lookups go through. */
module Ext2Links {
  import opened Basics
  import opened ParentTree

  const ROOT: nat := 2
  const MAX_OPEN: nat := 16
  const MAX_CHAIN: nat := 64

  datatype Rec = Rec(dir: nat, name: string, ino: nat)
  datatype Slot = Slot(ino: nat, refs: nat, pending: bool)

  /** `recs` are directory records by position, without the "." and ".." every directory is made with; `up` is the ".."
      of every directory; `noDot` and `noUp` are the directories that have lost their "." and their ".."; `links` the
      counts of the inodes in use; `spent` are inodes marked used on disk that nothing names; `slots` is the open-file
      table. */
  datatype Fs = Fs(
    recs: map<nat, Rec>, up: map<nat, nat>, links: map<nat, nat>, syms: set<nat>, spent: set<nat>,
    slots: map<nat, Slot>, noDot: set<nat>, noUp: set<nat>)

  // ─── what the counts should be ───

  ghost function Names(recs: map<nat, Rec>, i: nat): set<nat> { set r | r in recs && recs[r].ino == i }

  ghost function Subs(recs: map<nat, Rec>, dirs: set<nat>, i: nat): set<nat> {
    set r | r in recs && recs[r].dir == i && recs[r].ino in dirs
  }

  /** The number of names of a file; for a directory its own name or root, its ".", and the ".." of each directory in
      it. */
  ghost function Due(fs: Fs, i: nat): nat {
    if i in fs.up then 2 + |Subs(fs.recs, fs.up.Keys, i)| else |Names(fs.recs, i)|
  }

  lemma AddName(recs: map<nat, Rec>, slot: nat, x: Rec, i: nat)
    requires slot !in recs
    ensures |Names(recs[slot := x], i)| == |Names(recs, i)| + (if x.ino == i then 1 else 0)
  {
    if x.ino == i {
      assert Names(recs[slot := x], i) == Names(recs, i) + {slot};
      assert slot !in Names(recs, i);
    } else {
      assert Names(recs[slot := x], i) == Names(recs, i);
    }
  }

  lemma AddSub(recs: map<nat, Rec>, dirs: set<nat>, slot: nat, x: Rec, i: nat)
    requires slot !in recs
    ensures |Subs(recs[slot := x], dirs, i)| == |Subs(recs, dirs, i)| + (if x.dir == i && x.ino in dirs then 1 else 0)
  {
    if x.dir == i && x.ino in dirs {
      assert Subs(recs[slot := x], dirs, i) == Subs(recs, dirs, i) + {slot};
      assert slot !in Subs(recs, dirs, i);
    } else {
      assert Subs(recs[slot := x], dirs, i) == Subs(recs, dirs, i);
    }
  }

  lemma AddRec(recs: map<nat, Rec>, dirs: set<nat>, slot: nat, x: Rec, i: nat)
    requires slot !in recs
    ensures |Names(recs[slot := x], i)| == |Names(recs, i)| + (if x.ino == i then 1 else 0)
    ensures |Subs(recs[slot := x], dirs, i)| == |Subs(recs, dirs, i)| + (if x.dir == i && x.ino in dirs then 1 else 0)
  {
    AddName(recs, slot, x, i);
    AddSub(recs, dirs, slot, x, i);
  }

  lemma DelRec(recs: map<nat, Rec>, dirs: set<nat>, r: nat, i: nat)
    requires r in recs
    ensures |Names(recs - {r}, i)| == |Names(recs, i)| - (if recs[r].ino == i then 1 else 0)
    ensures |Subs(recs - {r}, dirs, i)| == |Subs(recs, dirs, i)| -
      (if recs[r].dir == i && recs[r].ino in dirs then 1 else 0)
  {
    assert Names(recs - {r}, i) == Names(recs, i) - {r};
    assert Subs(recs - {r}, dirs, i) == Subs(recs, dirs, i) - {r};
    assert r in Names(recs, i) <==> recs[r].ino == i;
    assert r in Subs(recs, dirs, i) <==> recs[r].dir == i && recs[r].ino in dirs;
  }

  /** Pointing a record at another inode. */
  lemma Retarget(recs: map<nat, Rec>, dirs: set<nat>, v: nat, ino: nat, i: nat)
    requires v in recs
    ensures var recs', was := recs[v := recs[v].(ino := ino)], recs[v].ino;
      && |Names(recs', i)| == |Names(recs, i)| - (if was == i then 1 else 0) + (if ino == i then 1 else 0)
      && |Subs(recs', dirs, i)| == |Subs(recs, dirs, i)|
           - (if recs[v].dir == i && was in dirs then 1 else 0) + (if recs[v].dir == i && ino in dirs then 1 else 0)
  {
    DelRec(recs, dirs, v, i);
    AddRec(recs - {v}, dirs, v, recs[v].(ino := ino), i);
    assert (recs - {v})[v := recs[v].(ino := ino)] == recs[v := recs[v].(ino := ino)];
  }

  /** An inode without records is no subdirectory of anything. */
  lemma NewDir(recs: map<nat, Rec>, dirs: set<nat>, ino: nat, i: nat)
    requires forall r :: r in recs ==> recs[r].ino != ino
    ensures Subs(recs, dirs + {ino}, i) == Subs(recs, dirs, i) && Subs(recs, dirs - {ino}, i) == Subs(recs, dirs, i)
  {
  }

  // ─── looking names up ───

  ghost function Matching(recs: map<nat, Rec>, dir: nat, name: string): set<nat> {
    set r | r in recs && recs[r].dir == dir && recs[r].name == name
  }

  ghost predicate IsLeast(s: set<nat>, x: nat) { x in s && forall y :: y in s ==> x <= y }

  lemma {:induction false} LeastExists(s: set<nat>)
    requires s != {}
    ensures exists x :: IsLeast(s, x)
    decreases s
  {
    var y :| y in s;
    if s == {y} {
      assert IsLeast(s, y);
    } else {
      LeastExists(s - {y});
      var x :| IsLeast(s - {y}, x);
      var least := if x < y then x else y;
      forall z | z in s ensures least <= z {
        assert z == y || z in s - {y};
      }
      assert IsLeast(s, least);
    }
  }

  ghost function Least(s: set<nat>): (x: nat)
    requires s != {}
    ensures IsLeast(s, x)
  {
    LeastExists(s);
    var x :| IsLeast(s, x);
    x
  }

  /** The scan of a directory takes the first record of the name. */
  ghost function Lookup(recs: map<nat, Rec>, dir: nat, name: string): (v: Option<nat>)
    ensures v.Some? ==> v.value in recs && recs[v.value].dir == dir && recs[v.value].name == name
    ensures v.None? ==> forall r :: r in recs ==> !(recs[r].dir == dir && recs[r].name == name)
  {
    var s := Matching(recs, dir, name);
    if s == {} then assert forall r :: r in recs && recs[r].dir == dir && recs[r].name == name ==> r in s; None
    else Some(Least(s))
  }

  /** The lowest free slot of the open-file table. */
  ghost function FreeSlot(slots: map<nat, Slot>): (v: Option<nat>)
    ensures v.Some? ==> v.value < MAX_OPEN && v.value !in slots
    ensures v.None? ==> forall k :: 0 <= k < MAX_OPEN ==> k in slots
  {
    var s := set k | 0 <= k < MAX_OPEN && k !in slots;
    if s == {} then assert forall k :: 0 <= k < MAX_OPEN && k !in slots ==> k in s; None
    else Some(Least(s))
  }

  /** The name is that of a record the directory was made with and still has. */
  predicate DotRec(fs: Fs, dir: nat, name: string) {
    dir in fs.up && ((name == "." && dir !in fs.noDot) || (name == ".." && dir !in fs.noUp))
  }

  function DotIno(fs: Fs, dir: nat, name: string): nat
    requires DotRec(fs, dir, name)
  {
    if name == "." then dir else fs.up[dir]
  }

  ghost predicate Named(fs: Fs, i: nat) { i in fs.links && Names(fs.recs, i) != {} }

  /** The inode a name leads to; `target` is where a final symbolic link leads, None when nowhere. */
  ghost function Resolve(fs: Fs, dir: nat, name: string, target: Option<nat>): Option<nat> {
    match Lookup(fs.recs, dir, name)
    case None => None
    case Some(r) =>
      if fs.recs[r].ino !in fs.syms then Some(fs.recs[r].ino)
      else if target.Some? && Named(fs, target.value) then target
      else None
  }

  /** open(O_CREAT) and mkdir test for existence by opening: without a free slot nothing exists for them. */
  ghost function Seen(fs: Fs, dir: nat, name: string, target: Option<nat>): Option<nat> {
    if FreeSlot(fs.slots).None? then None else Resolve(fs, dir, name, target)
  }

  // ─── link counts as the kernel moves them ───

  /** A count goes up by `delta`, or down by one but never below one. */
  function Bump(links: map<nat, nat>, i: nat, delta: int): map<nat, nat> {
    if i !in links || delta == 0 then links
    else if delta > 0 then links[i := links[i] + delta]
    else if links[i] > 1 then links[i := links[i] - 1]
    else links
  }

  function MoveDelta(src: nat, dst: nat): (int, int) { if src == dst then (0, 0) else (-1, 1) }

  function ReplaceDelta(src: nat, dst: nat): (int, int) { (-1, 0) }

  function ExchangeDelta(src: nat, dst: nat, aDir: bool, bDir: bool): (int, int) {
    var a, b := if aDir then 1 else 0, if bDir then 1 else 0;
    if src == dst then (0, 0) else (b - a, a - b)
  }

  function Adjust(links: map<nat, nat>, src: nat, dst: nat, delta: (int, int)): map<nat, nat> {
    Bump(Bump(links, dst, delta.1), src, delta.0)
  }

  lemma AdjustAt(links: map<nat, nat>, src: nat, dst: nat, delta: (int, int), i: nat)
    requires i in links && delta.0 >= -1 && delta.1 >= -1 && (delta.1 < 0 && dst in links ==> links[dst] > 1)
    requires delta.0 < 0 && src in links ==> links[src] > 1 && (src == dst ==> links[src] + delta.1 > 1)
    ensures i in Adjust(links, src, dst, delta)
    ensures Adjust(links, src, dst, delta)[i] == links[i] + (if i == src then delta.0 else 0) +
      (if i == dst then delta.1 else 0)
  {
  }

  // ─── changes ───

  function Opened(fs: Fs, k: nat, i: nat): Fs { fs.(slots := fs.slots[k := Slot(i, 1, false)]) }

  function WithFile(fs: Fs, at: nat, x: Rec): Fs { fs.(recs := fs.recs[at := x], links := fs.links[x.ino := 1]) }

  function WithSymlink(fs: Fs, at: nat, x: Rec): Fs { WithFile(fs, at, x).(syms := fs.syms + {x.ino}) }

  function WithDir(fs: Fs, at: nat, x: Rec): Fs {
    fs.(recs := fs.recs[at := x], up := fs.up[x.ino := x.dir], links := Bump(fs.links, x.dir, 1)[x.ino := 2])
  }

  function WithLink(fs: Fs, at: nat, x: Rec): Fs { fs.(recs := fs.recs[at := x], links := Bump(fs.links, x.ino, 1)) }

  predicate IsOpen(slots: map<nat, Slot>, i: nat) { exists k :: k in slots && slots[k].ino == i }

  function Orphaned(slots: map<nat, Slot>, i: nat): map<nat, Slot> {
    map k | k in slots :: if slots[k].ino == i then slots[k].(pending := true) else slots[k]
  }

  /** One link of a file goes; with the last the inode goes, at once or when its last open slot is closed. */
  function Released(fs: Fs, i: nat): Fs {
    if i !in fs.links then fs
    else if fs.links[i] > 1 then fs.(links := fs.links[i := fs.links[i] - 1])
    else if !IsOpen(fs.slots, i) then fs.(links := fs.links - {i}, syms := fs.syms - {i})
    else fs.(links := fs.links[i := 0], slots := Orphaned(fs.slots, i))
  }

  function Unlinked(fs: Fs, r: nat): Fs
    requires r in fs.recs
  {
    Released(fs.(recs := fs.recs - {r}), fs.recs[r].ino)
  }

  function WithoutDir(fs: Fs, r: nat): Fs
    requires r in fs.recs
  {
    var x := fs.recs[r];
    fs.(recs := fs.recs - {r}, up := fs.up - {x.ino}, links := Bump(fs.links, x.dir, -1) - {x.ino})
  }

  function FileReplaced(fs: Fs, r: nat, v: nat): Fs
    requires r in fs.recs && v in fs.recs
  {
    Released(fs.(recs := fs.recs[v := fs.recs[v].(ino := fs.recs[r].ino)] - {r}), fs.recs[v].ino)
  }

  function FileMoved(fs: Fs, r: nat, at: nat, x: Rec): Fs { fs.(recs := fs.recs[at := x] - {r}) }

  /** The ".." of a moved directory is rewritten only when its parent changes. */
  function Reparented(up: map<nat, nat>, i: nat, src: nat, dst: nat): map<nat, nat> {
    if src == dst then up else up[i := dst]
  }

  function DirReplaced(fs: Fs, r: nat, v: nat): Fs
    requires r in fs.recs && v in fs.recs
  {
    var x, y := fs.recs[r], fs.recs[v];
    fs.(recs := fs.recs[v := y.(ino := x.ino)] - {r}, up := Reparented(fs.up, x.ino, x.dir, y.dir) - {y.ino},
        links := Adjust(fs.links, x.dir, y.dir, ReplaceDelta(x.dir, y.dir)) - {y.ino})
  }

  function DirMoved(fs: Fs, r: nat, at: nat, x: Rec): Fs
    requires r in fs.recs
  {
    var src := fs.recs[r].dir;
    fs.(recs := fs.recs[at := x] - {r}, up := Reparented(fs.up, x.ino, src, x.dir),
        links := Adjust(fs.links, src, x.dir, MoveDelta(src, x.dir)))
  }

  function SwappedRecs(recs: map<nat, Rec>, r: nat, q: nat): map<nat, Rec>
    requires r in recs && q in recs
  {
    recs[r := recs[r].(ino := recs[q].ino)][q := recs[q].(ino := recs[r].ino)]
  }

  /** The ".." entries after `a` went from `pa` to `pb` and `b` the other way. */
  function SwappedUp(up: map<nat, nat>, a: nat, pa: nat, b: nat, pb: nat): map<nat, nat> {
    if pa == pb then up
    else
      var up1 := if a in up then up[a := pb] else up;
      if b in up then up1[b := pa] else up1
  }

  /** Between directories of one parent only the records change. */
  function Exchanged(fs: Fs, r: nat, q: nat): Fs
    requires r in fs.recs && q in fs.recs
  {
    var a, b := fs.recs[r], fs.recs[q];
    fs.(recs := SwappedRecs(fs.recs, r, q), up := SwappedUp(fs.up, a.ino, a.dir, b.ino, b.dir),
        links := Adjust(fs.links, a.dir, b.dir, ExchangeDelta(a.dir, b.dir, a.ino in fs.up, b.ino in fs.up)))
  }

  /** Closing a slot: the last reference frees it, and the last slot of an inode without names frees the inode. */
  function Closed(fs: Fs, k: nat): Fs
    requires k in fs.slots
  {
    var s := fs.slots[k];
    if s.refs > 1 then fs.(slots := fs.slots[k := s.(refs := s.refs - 1)])
    else
      var rest := fs.slots - {k};
      if s.pending && !IsOpen(rest, s.ino) && s.ino in fs.links && fs.links[s.ino] == 0
      then fs.(slots := rest, links := fs.links - {s.ino}, syms := fs.syms - {s.ino})
      else fs.(slots := rest)
  }

  // ─── calls ───

  /** `ino` and `at` are what the allocators offer: an inode in use means there is none, a position in use that there is
      no room for the record. */
  datatype Op =
    | Create(dir: nat, name: string, ino: nat, at: nat, target: Option<nat>)
    | Mkdir(dir: nat, name: string, ino: nat, at: nat, target: Option<nat>)
    | Symlink(dir: nat, name: string, ino: nat, at: nat)
    | Link(ino: nat, dir: nat, name: string, at: nat)
    | Unlink(dir: nat, name: string)
    | Rmdir(dir: nat, name: string)
    | Rename(src: nat, was: string, dir: nat, name: string, at: nat, noreplace: bool)
    | Exchange(src: nat, was: string, dir: nat, name: string)
    | Open(dir: nat, name: string, target: Option<nat>)
    | Retain(k: nat)
    | Close(k: nat)

  /** What a call answers and what it leaves. */
  datatype Outcome = Outcome(code: int, fs: Fs)

  predicate NoInode(fs: Fs, ino: nat) { ino in fs.links || ino in fs.spent }

  ghost function CreateCall(fs: Fs, dir: nat, name: string, ino: nat, at: nat, target: Option<nat>): Outcome {
    if dir !in fs.up then Outcome(-2, fs)
    else
      match Seen(fs, dir, name, target)
      case Some(i) => var k := FreeSlot(fs.slots).value; Outcome(k, Opened(fs, k, i))
      case None =>
        if NoInode(fs, ino) || at in fs.recs then Outcome(-1, fs)
        else
          var fs1 := WithFile(fs, at, Rec(dir, name, ino));
          match FreeSlot(fs.slots)
          case None => Outcome(-1, fs1)
          case Some(k) => Outcome(k, Opened(fs1, k, ino))
  }

  /** The caller closes the slot of a new directory unless it is slot 0. */
  ghost function MkdirCall(fs: Fs, dir: nat, name: string, ino: nat, at: nat, target: Option<nat>): Outcome {
    if dir !in fs.up then Outcome(-2, fs)
    else
      match Seen(fs, dir, name, target)
      case Some(_) => Outcome(-17, fs)
      case None =>
        if NoInode(fs, ino) then Outcome(-28, fs)
        else if at in fs.recs then Outcome(-28, fs.(spent := fs.spent + {ino}))
        else
          var fs1 := WithDir(fs, at, Rec(dir, name, ino));
          match FreeSlot(fs.slots)
          case None => Outcome(-1, fs1)
          case Some(k) => Outcome(0, if k == 0 then Opened(fs1, 0, ino) else fs1)
  }

  ghost function SymlinkCall(fs: Fs, dir: nat, name: string, ino: nat, at: nat): Outcome {
    if dir !in fs.up then Outcome(-2, fs)
    else if Lookup(fs.recs, dir, name).Some? then Outcome(-17, fs)
    else if NoInode(fs, ino) then Outcome(-28, fs)
    else if at in fs.recs then Outcome(-28, fs.(spent := fs.spent + {ino}))
    else Outcome(0, WithSymlink(fs, at, Rec(dir, name, ino)))
  }

  ghost function LinkCall(fs: Fs, ino: nat, dir: nat, name: string, at: nat): Outcome {
    if !Named(fs, ino) then Outcome(-2, fs)
    else if ino in fs.up then Outcome(-1, fs)
    else if dir !in fs.up then Outcome(-2, fs)
    else if Lookup(fs.recs, dir, name).Some? then Outcome(-17, fs)
    else if at in fs.recs then Outcome(-28, fs)
    else Outcome(0, WithLink(fs, at, Rec(dir, name, ino)))
  }

  ghost function UnlinkCall(fs: Fs, dir: nat, name: string): Outcome {
    match Lookup(fs.recs, dir, name)
    case None => Outcome(-2, fs)
    case Some(r) => if fs.recs[r].ino in fs.up then Outcome(-21, fs) else Outcome(0, Unlinked(fs, r))
  }

  /** Records named "." and ".." do not count, whichever they are. */
  predicate EmptyDir(recs: map<nat, Rec>, i: nat) { forall r :: r in recs && recs[r].dir == i ==> Dots(recs[r].name) }

  /** No record lies in the directory at all. */
  predicate NoRecs(recs: map<nat, Rec>, i: nat) { forall r :: r in recs ==> recs[r].dir != i }

  ghost function RmdirCall(fs: Fs, dir: nat, name: string): Outcome {
    match Lookup(fs.recs, dir, name)
    case None => Outcome(-2, fs)
    case Some(r) =>
      if fs.recs[r].ino !in fs.up then Outcome(-20, fs)
      else if !EmptyDir(fs.recs, fs.recs[r].ino) then Outcome(-39, fs)
      else Outcome(0, WithoutDir(fs, r))
  }

  /** A climb stops where a ".." is missing. */
  predicate Stuck(fs: Fs, x: nat) {
    exists i :: i in Chain(fs.up, ROOT, x, MAX_CHAIN) && i != ROOT && i in fs.noUp
  }

  /** `i` is `x` or above it, or the climb did not get far enough to know. */
  predicate InChain(fs: Fs, i: nat, x: nat) { OnChain(fs.up, ROOT, i, x, MAX_CHAIN) || Stuck(fs, x) }

  ghost function RenameCall(fs: Fs, src: nat, was: string, dir: nat, name: string, at: nat, noreplace: bool): Outcome {
    if dir !in fs.up then Outcome(-2, fs)
    else if Dots(name) then Outcome(-22, fs)
    else
      match Lookup(fs.recs, src, was)
      case None => Outcome(-2, fs)
      case Some(r) =>
        if src == dir && was == name then Outcome(0, fs)
        else if fs.recs[r].ino in fs.up then DirRename(fs, r, dir, name, at, noreplace)
        else FileRename(fs, r, dir, name, at, noreplace)
  }

  /** A different inode under the target name is replaced in place; otherwise a record of the new name is added, also
      when the target is another link to the same file. */
  ghost function FileRename(fs: Fs, r: nat, dir: nat, name: string, at: nat, noreplace: bool): Outcome
    requires r in fs.recs
  {
    var v := Lookup(fs.recs, dir, name);
    if v.Some? && noreplace then Outcome(-17, fs)
    else if v.Some? && fs.recs[v.value].ino != fs.recs[r].ino then
      if fs.recs[v.value].ino in fs.up then Outcome(-21, fs) else Outcome(0, FileReplaced(fs, r, v.value))
    else if at in fs.recs then Outcome(-28, fs)
    else Outcome(0, FileMoved(fs, r, at, Rec(dir, name, fs.recs[r].ino)))
  }

  ghost function DirRename(fs: Fs, r: nat, dir: nat, name: string, at: nat, noreplace: bool): Outcome
    requires r in fs.recs
  {
    var v, i := Lookup(fs.recs, dir, name), fs.recs[r].ino;
    if v.Some? && noreplace then Outcome(-17, fs)
    else if v.Some? && fs.recs[v.value].ino !in fs.up then Outcome(-20, fs)
    else if v.Some? && fs.recs[v.value].ino == i then Outcome(0, fs)
    else if v.Some? && !EmptyDir(fs.recs, fs.recs[v.value].ino) then Outcome(-39, fs)
    else
      var climbed := ClimbCode(fs, i, dir);
      if climbed != 0 then Outcome(climbed, fs)
      else if v.Some? then Outcome(0, DirReplaced(fs, r, v.value))
      else if at in fs.recs then Outcome(-1, fs)
      else Outcome(0, DirMoved(fs, r, at, Rec(dir, name, i)))
  }

  /** Whether directory `i` may go to `dir`: the climb from there must reach the root and not meet `i`. */
  function ClimbCode(fs: Fs, i: nat, dir: nat): int {
    var c := Chain(fs.up, ROOT, dir, MAX_CHAIN);
    if Stuck(fs, dir) then -1
    else if |c| == MAX_CHAIN && c[MAX_CHAIN - 1] != ROOT then -40
    else if i in c then -22
    else 0
  }

  ghost function ExchangeCall(fs: Fs, src: nat, was: string, dir: nat, name: string): Outcome {
    if Dots(was) || Dots(name) then Outcome(-22, fs)
    else
      var r, q := Lookup(fs.recs, src, was), Lookup(fs.recs, dir, name);
      if r.None? || q.None? then Outcome(-2, fs)
      else
        var a, b := fs.recs[r.value].ino, fs.recs[q.value].ino;
        if a == b then Outcome(0, fs)
        else if src != dir && a in fs.up && InChain(fs, a, dir) then Outcome(-22, fs)
        else if src != dir && b in fs.up && InChain(fs, b, src) then Outcome(-22, fs)
        else Outcome(0, Exchanged(fs, r.value, q.value))
  }

  ghost function OpenCall(fs: Fs, dir: nat, name: string, target: Option<nat>): Outcome {
    match Resolve(fs, dir, name, target)
    case None => Outcome(-2, fs)
    case Some(i) =>
      match FreeSlot(fs.slots)
      case None => Outcome(-23, fs)
      case Some(k) => Outcome(k, Opened(fs, k, i))
  }

  /** The call when the name is that of a record. */
  ghost function PlainCall(fs: Fs, op: Op): Outcome {
    match op
    case Create(dir, name, ino, at, target) => CreateCall(fs, dir, name, ino, at, target)
    case Mkdir(dir, name, ino, at, target) => MkdirCall(fs, dir, name, ino, at, target)
    case Symlink(dir, name, ino, at) => SymlinkCall(fs, dir, name, ino, at)
    case Link(ino, dir, name, at) => LinkCall(fs, ino, dir, name, at)
    case Unlink(dir, name) => UnlinkCall(fs, dir, name)
    case Rmdir(dir, name) => RmdirCall(fs, dir, name)
    case Rename(src, was, dir, name, at, noreplace) => RenameCall(fs, src, was, dir, name, at, noreplace)
    case Exchange(src, was, dir, name) => ExchangeCall(fs, src, was, dir, name)
    case Open(dir, name, target) => OpenCall(fs, dir, name, target)
    case Retain(k) => Outcome(0, if k in fs.slots
      then fs.(slots := fs.slots[k := fs.slots[k].(refs := fs.slots[k].refs + 1)]) else fs)
    case Close(k) => Outcome(0, if k in fs.slots then Closed(fs, k) else fs)
  }

  // ─── the names "." and ".." ───

  /** The name a call looks up is the "." or ".." of its directory. open(O_CREAT) and mkdir see it only with a slot
      free. */
  ghost predicate OnDots(fs: Fs, op: Op) {
    match op
    case Create(dir, name, _, _, _) => DotRec(fs, dir, name) && FreeSlot(fs.slots).Some?
    case Mkdir(dir, name, _, _, _) => DotRec(fs, dir, name) && FreeSlot(fs.slots).Some?
    case Symlink(dir, name, _, _) => DotRec(fs, dir, name)
    case Link(_, dir, name, _) => DotRec(fs, dir, name)
    case Unlink(dir, name) => DotRec(fs, dir, name)
    case Rmdir(dir, name) => DotRec(fs, dir, name)
    case Rename(src, was, _, _, _, _) => DotRec(fs, src, was)
    case Open(dir, name, _) => DotRec(fs, dir, name)
    case _ => false
  }

  /** The directory without its "." or its "..". */
  function Torn(fs: Fs, dir: nat, name: string): Fs {
    if name == "." then fs.(noDot := fs.noDot + {dir}) else fs.(noUp := fs.noUp + {dir})
  }

  /** rmdir removes the record it was given, takes a link from the directory that record lies in, and frees the
      inode. */
  function RmdirDot(fs: Fs, dir: nat, name: string): Outcome
    requires DotRec(fs, dir, name)
  {
    var i := DotIno(fs, dir, name);
    if !EmptyDir(fs.recs, i) then Outcome(-39, fs)
    else Outcome(0, Torn(fs.(up := fs.up - {i}, links := Bump(fs.links, dir, -1) - {i}), dir, name))
  }

  /** A directory renamed by its "." or by the ".." of a directory in it: the record it really has stays. */
  ghost function RenameDot(fs: Fs, src: nat, was: string, dir: nat, name: string, at: nat, noreplace: bool): Outcome
    requires DotRec(fs, src, was)
  {
    var v, i := Lookup(fs.recs, dir, name), DotIno(fs, src, was);
    if dir !in fs.up then Outcome(-2, fs)
    else if Dots(name) then Outcome(-22, fs)
    else if v.Some? && noreplace then Outcome(-17, fs)
    else if v.Some? && fs.recs[v.value].ino !in fs.up then Outcome(-20, fs)
    else if v.Some? && fs.recs[v.value].ino == i then Outcome(0, fs)
    else if v.Some? && !EmptyDir(fs.recs, fs.recs[v.value].ino) then Outcome(-39, fs)
    else
      var climbed := ClimbCode(fs, i, dir);
      if climbed != 0 then Outcome(climbed, fs)
      else if v.Some? then Outcome(0, DotReplaced(fs, src, was, i, v.value))
      else if at in fs.recs then Outcome(-1, fs)
      else Outcome(0, DotMoved(fs, src, was, at, Rec(dir, name, i)))
  }

  function DotReplaced(fs: Fs, src: nat, was: string, i: nat, v: nat): Fs
    requires v in fs.recs
  {
    var y := fs.recs[v];
    Torn(fs.(recs := fs.recs[v := y.(ino := i)], up := Reparented(fs.up, i, src, y.dir) - {y.ino},
             links := Adjust(fs.links, src, y.dir, ReplaceDelta(src, y.dir)) - {y.ino}), src, was)
  }

  function DotMoved(fs: Fs, src: nat, was: string, at: nat, x: Rec): Fs {
    Torn(fs.(recs := fs.recs[at := x], up := Reparented(fs.up, x.ino, src, x.dir),
             links := Adjust(fs.links, src, x.dir, MoveDelta(src, x.dir))), src, was)
  }

  ghost function OpenDot(fs: Fs, dir: nat, name: string): Outcome
    requires DotRec(fs, dir, name)
  {
    match FreeSlot(fs.slots)
    case None => Outcome(-23, fs)
    case Some(k) => Outcome(k, Opened(fs, k, DotIno(fs, dir, name)))
  }

  ghost function DotCall(fs: Fs, op: Op): Outcome
    requires OnDots(fs, op)
  {
    match op
    case Create(dir, name, _, _, _) => OpenDot(fs, dir, name)
    case Mkdir(_, _, _, _, _) => Outcome(-17, fs)
    case Symlink(_, _, _, _) => Outcome(-17, fs)
    case Link(ino, _, _, _) => Outcome(if !Named(fs, ino) then -2 else if ino in fs.up then -1 else -17, fs)
    case Unlink(_, _) => Outcome(-21, fs)
    case Rmdir(dir, name) => RmdirDot(fs, dir, name)
    case Rename(src, was, dir, name, at, noreplace) => RenameDot(fs, src, was, dir, name, at, noreplace)
    case Open(dir, name, _) => OpenDot(fs, dir, name)
  }

  ghost function Call(fs: Fs, op: Op): Outcome { if OnDots(fs, op) then DotCall(fs, op) else PlainCall(fs, op) }

  ghost function Step(fs: Fs, op: Op): Fs { Call(fs, op).fs }

  ghost function Run(fs: Fs, ops: seq<Op>): Fs {
    if ops == [] then fs else Step(Run(fs, ops[..|ops| - 1]), ops[|ops| - 1])
  }
}
