/** Directory descriptors on ext2: a descriptor holds an inode number and the path it was opened by; the *at calls
    rebuild a path from the inode, or fall back to the stored one, and look the result up from the root. `born` stamps
    every directory when it is made, so that a directory can be told from a later one with its inode number. */
module Ext2Paths {
  import opened Basics
  import opened PathNames
  import opened ParentTree
  import opened Ext2Links
  import opened Ext2Counts
  import opened Ext2Tree
  import opened Ext2Names

  const MAX_DEPTH: nat := 32

  datatype Fd = Fd(ino: nat, path: Components, stamp: nat)
  datatype World = World(fs: Fs, born: map<nat, nat>, clock: nat, fds: map<nat, Fd>)

  /** `leads` says where each symbolic link leads, if it leads to a directory. */
  datatype Act =
    | Do(op: Op)
    | OpenDir(h: nat, path: Components, leads: map<nat, nat>)
    | CloseDir(h: nat)

  // ─── walking down ───

  ghost function Enter(fs: Fs, leads: map<nat, nat>, x: nat, name: string): Option<nat> {
    if DotRec(fs, x, name) then Some(DotIno(fs, x, name))
    else
      match Lookup(fs.recs, x, name)
      case None => None
      case Some(r) =>
        var j := fs.recs[r].ino;
        if j in fs.up then Some(j)
        else if j in fs.syms && j in leads && leads[j] in fs.up then Some(leads[j])
        else None
  }

  ghost function Walk(fs: Fs, leads: map<nat, nat>, path: Components): Option<nat> {
    if path == [] then Some(ROOT)
    else
      match Walk(fs, leads, path[..|path| - 1])
      case None => None
      case Some(x) => Enter(fs, leads, x, path[|path| - 1])
  }

  // ─── steps ───

  ghost function Stamped(w: World, fs: Fs): World {
    w.(fs := fs, born := map i | i in fs.up :: if i in w.fs.up && i in w.born then w.born[i] else w.clock,
       clock := w.clock + 1)
  }

  ghost function StepW(w: World, a: Act): World {
    match a
    case Do(op) => Stamped(w, Step(w.fs, op))
    case OpenDir(h, path, leads) =>
      (match (Walk(w.fs, leads, path), FreeSlot(w.fs.slots))
       case (Some(i), Some(k)) =>
         if i in w.born then w.(fs := Opened(w.fs, k, i), fds := w.fds[h := Fd(i, path, w.born[i])]) else w
       case _ => w)
    case CloseDir(h) => w.(fds := w.fds - {h})
  }

  ghost function RunW(w: World, acts: seq<Act>): World {
    if acts == [] then w else StepW(RunW(w, acts[..|acts| - 1]), acts[|acts| - 1])
  }

  // ─── the path of a directory ───

  /** The record that names directory `i` in its parent; its own dots are not looked at. */
  ghost function NameOf(fs: Fs, i: nat): Option<string> {
    if r :| r in fs.recs && fs.recs[r].ino == i && i in fs.up && fs.recs[r].dir == fs.up[i] && !Dots(fs.recs[r].name)
    then Some(fs.recs[r].name) else None
  }

  /** Climb by ".." to the root, at most `k` levels, and collect the names. */
  ghost function Climbed(fs: Fs, i: nat, k: nat): Option<Components>
    decreases k
  {
    if i !in fs.up then None
    else if i == ROOT then Some([])
    else if k == 0 || i in fs.noUp || NameOf(fs, i).None? then None
    else
      match Climbed(fs, fs.up[i], k - 1)
      case None => None
      case Some(p) => Some(p + [NameOf(fs, i).value])
  }

  /** The path rebuilt from the inode: none for an inode that is no directory, one too deep, or a path too long. */
  ghost function Rebuilt(fs: Fs, i: nat): Option<Components> {
    match Climbed(fs, i, MAX_DEPTH)
    case None => None
    case Some(p) => if Length(p) > MAX_PATH then None else Some(p)
  }

  /** The names on the way from the root. */
  ghost function PathOf(fs: Fs, d: map<nat, nat>, i: nat): Components
    requires Depths(fs.up, ROOT, d) && i in fs.up
    decreases d[i]
  {
    if i == ROOT then []
    else
      assert Below(fs.up, d, i);
      PathOf(fs, d, fs.up[i]) + [if NameOf(fs, i).Some? then NameOf(fs, i).value else ""]
  }

  lemma NameIs(fs: Fs, i: nat)
    requires Inv(fs) && i in fs.up && i != ROOT
    ensures NameOf(fs, i).Some?
    ensures exists r :: r in fs.recs && fs.recs[r] == Rec(fs.up[i], NameOf(fs, i).value, i)
  {
    assert HasName(fs.recs, i);
    var r :| r in fs.recs && fs.recs[r].ino == i;
    assert RecOk(fs, r);
  }

  /** Every directory but the root has a name in its parent, and its "..". */
  ghost predicate AllNamed(fs: Fs) { fs.noUp == {} && forall i :: i in fs.up && i != ROOT ==> NameOf(fs, i).Some? }

  lemma AllAreNamed(fs: Fs)
    requires Inv(fs)
    ensures AllNamed(fs)
  {
    forall i | i in fs.up && i != ROOT ensures NameOf(fs, i).Some? {
      NameIs(fs, i);
    }
  }

  /** The climb gives the path exactly when the directory is at most `k` levels down. */
  lemma {:induction false} ClimbedExactly(fs: Fs, d: map<nat, nat>, i: nat, k: nat)
    requires AllNamed(fs) && Depths(fs.up, ROOT, d) && i in fs.up
    ensures Climbed(fs, i, k) == if d[i] <= k then Some(PathOf(fs, d, i)) else None
    decreases k
  {
    if i != ROOT {
      assert Below(fs.up, d, i);
      if k > 0 {
        ClimbedExactly(fs, d, fs.up[i], k - 1);
      }
    }
  }

  lemma RebuiltExactly(fs: Fs, d: map<nat, nat>, i: nat)
    requires Inv(fs) && Depths(fs.up, ROOT, d)
    ensures Rebuilt(fs, i) ==
      if i in fs.up && d[i] <= MAX_DEPTH && Length(PathOf(fs, d, i)) <= MAX_PATH then Some(PathOf(fs, d, i)) else None
  {
    AllAreNamed(fs);
    if i in fs.up {
      ClimbedExactly(fs, d, i, MAX_DEPTH);
    }
  }

  /** With names unique the path leads back. */
  lemma {:induction false} PathLeadsBack(fs: Fs, leads: map<nat, nat>, d: map<nat, nat>, i: nat)
    requires Inv(fs) && Unique(fs.recs) && Depths(fs.up, ROOT, d) && i in fs.up
    ensures Walk(fs, leads, PathOf(fs, d, i)) == Some(i) && NoDots(PathOf(fs, d, i))
    decreases d[i]
  {
    if i != ROOT {
      assert Below(fs.up, d, i);
      var p, path := fs.up[i], PathOf(fs, d, i);
      PathLeadsBack(fs, leads, d, p);
      NameIs(fs, i);
      var name := NameOf(fs, i).value;
      var r :| r in fs.recs && fs.recs[r] == Rec(p, name, i);
      assert path[..|path| - 1] == PathOf(fs, d, p) && path[|path| - 1] == name;
      EnterUnique(fs, leads, r);
    }
  }

  lemma EnterUnique(fs: Fs, leads: map<nat, nat>, r: nat)
    requires Inv(fs) && Unique(fs.recs) && r in fs.recs && fs.recs[r].ino in fs.up
    ensures Enter(fs, leads, fs.recs[r].dir, fs.recs[r].name) == Some(fs.recs[r].ino)
    ensures !Dots(fs.recs[r].name)
  {
    var v := Lookup(fs.recs, fs.recs[r].dir, fs.recs[r].name).value;
    assert SameName(fs.recs[v], fs.recs[r]);
  }

  // ─── the name created through a descriptor ───

  /** Trees with a file system of their own: what lies under these names of the root is not on this disk. */
  predicate Foreign(q: Components) { q != [] && (q[0] == "tmp" || q[0] == "dev" || q[0] == "proc") }

  /** The path a descriptor stands for: rebuilt from its inode, or the one it was opened by, dots collapsed. */
  ghost function BaseOf(fs: Fs, fd: Fd): Option<Components> {
    match Rebuilt(fs, fd.ino)
    case Some(p) => Some(Normal(p))
    case None => if Length(fd.path) > MAX_PATH then None else Some(Normal(fd.path))
  }

  /** The directory in which openat(fd, name, O_CREAT) makes `name`: the two are joined, the dots collapsed, and the
      result looked up from the root. None: too long, on another file system, or nowhere. */
  ghost function AtLookup(fs: Fs, leads: map<nat, nat>, fd: Fd, name: string): Option<nat> {
    match BaseOf(fs, fd)
    case None => None
    case Some(base) =>
      var q := Normal(base + [name]);
      if JoinLength(base, name) > MAX_PATH || q == [] || Foreign(q) then None else Walk(fs, leads, q[..|q| - 1])
  }

  /** The directory the descriptor was opened on is still there. */
  predicate Alive(w: World, fd: Fd) { fd.ino in w.fs.up && fd.ino in w.born && w.born[fd.ino] == fd.stamp }

  /** The name lands in the directory the descriptor was opened on. */
  ghost predicate Lands(w: World, leads: map<nat, nat>, fd: Fd, name: string) {
    Alive(w, fd) && AtLookup(w.fs, leads, fd, name) == Some(fd.ino)
  }

  predicate Fits(base: Components, name: string) { JoinLength(base, name) <= MAX_PATH && !Foreign(base + [name]) }

  lemma PlainJoin(base: Components, name: string)
    requires NoDots(base) && !Dots(name)
    ensures Normal(base) == base
    ensures var q := Normal(base + [name]); q == base + [name] && q[..|q| - 1] == base
  {
    NormalSame(base);
    assert NoDots(base + [name]);
    NormalSame(base + [name]);
  }

  /** The path of the descriptor's directory can be rebuilt and takes the name, or it cannot be and the path it was
      opened by still leads there and does. */
  ghost predicate Reachable(fs: Fs, leads: map<nat, nat>, d: map<nat, nat>, fd: Fd, name: string)
    requires Depths(fs.up, ROOT, d) && fd.ino in fs.up
  {
    var p := PathOf(fs, d, fd.ino);
    if d[fd.ino] <= MAX_DEPTH && Length(p) <= MAX_PATH then Fits(p, name)
    else
      Length(fd.path) <= MAX_PATH && Walk(fs, leads, Normal(fd.path)) == Some(fd.ino) && Fits(Normal(fd.path), name)
  }

  lemma AtRebuilt(fs: Fs, leads: map<nat, nat>, fd: Fd, p: Components, name: string)
    requires Rebuilt(fs, fd.ino) == Some(p) && NoDots(p) && Walk(fs, leads, p) == Some(fd.ino) && !Dots(name)
    ensures AtLookup(fs, leads, fd, name) == Some(fd.ino) <==> Fits(p, name)
  {
    PlainJoin(p, name);
  }

  lemma AtStored(fs: Fs, leads: map<nat, nat>, fd: Fd, name: string)
    requires Rebuilt(fs, fd.ino).None? && !Dots(name)
    ensures AtLookup(fs, leads, fd, name) == Some(fd.ino) <==>
      Length(fd.path) <= MAX_PATH && Walk(fs, leads, Normal(fd.path)) == Some(fd.ino) && Fits(Normal(fd.path), name)
  {
    NormalNoDots(fd.path);
    PlainJoin(Normal(fd.path), name);
  }

  /** A name created through a descriptor lands in its directory exactly when that directory is still there and either
      its path can be rebuilt (it is at most 32 levels down and the path short enough) and takes the name, or it cannot
      and the path it was opened by, with its dots collapsed, still leads to it and takes the name. */
  lemma LandsExactly(w: World, leads: map<nat, nat>, d: map<nat, nat>, fd: Fd, name: string)
    requires Inv(w.fs) && Unique(w.fs.recs) && Depths(w.fs.up, ROOT, d) && !Dots(name)
    ensures Lands(w, leads, fd, name) <==> Alive(w, fd) && Reachable(w.fs, leads, d, fd, name)
  {
    if Alive(w, fd) {
      RebuiltExactly(w.fs, d, fd.ino);
      PathLeadsBack(w.fs, leads, d, fd.ino);
      if Rebuilt(w.fs, fd.ino).Some? {
        AtRebuilt(w.fs, leads, fd, PathOf(w.fs, d, fd.ino), name);
      } else {
        AtStored(w.fs, leads, fd, name);
      }
    }
  }

  // ─── over runs ───

  ghost predicate Stamps(w: World) {
    w.born.Keys == w.fs.up.Keys && forall i :: i in w.born ==> w.born[i] < w.clock
  }

  lemma StampsKept(w: World, a: Act)
    requires Stamps(w)
    ensures Stamps(StepW(w, a))
  {
    var w' := StepW(w, a);
    if a.Do? {
      assert w'.born.Keys == w'.fs.up.Keys;
    }
  }

  /** Directory `i` is there in every state of the run. */
  ghost predicate Stays(w: World, acts: seq<Act>, i: nat) {
    i in RunW(w, acts).fs.up && (acts == [] || Stays(w, acts[..|acts| - 1], i))
  }

  /** A stamp stays with its directory and never comes back. */
  lemma StampStep(w: World, a: Act, i: nat, stamp: nat)
    requires Stamps(w) && stamp < w.clock
    ensures var w' := StepW(w, a);
      && stamp < w'.clock
      && (i in w'.born && w'.born[i] == stamp <==> i in w.born && w.born[i] == stamp && i in w'.fs.up)
  {
    StampsKept(w, a);
  }

  /** The directory a descriptor was opened on is still there exactly when it was never removed; a later directory that
      got its inode number is another one. */
  lemma {:induction false} AliveExactly(w: World, acts: seq<Act>, fd: Fd)
    requires Stamps(w) && Alive(w, fd)
    ensures Stamps(RunW(w, acts)) && fd.stamp < RunW(w, acts).clock
    ensures Alive(RunW(w, acts), fd) <==> Stays(w, acts, fd.ino)
  {
    if acts != [] {
      var most := acts[..|acts| - 1];
      AliveExactly(w, most, fd);
      StampsKept(RunW(w, most), acts[|acts| - 1]);
      StampStep(RunW(w, most), acts[|acts| - 1], fd.ino, fd.stamp);
    }
  }

  ghost predicate NeverTearsW(w: World, acts: seq<Act>) {
    acts != [] ==>
      && NeverTearsW(w, acts[..|acts| - 1])
      && (acts[|acts| - 1].Do? ==> !Tears(RunW(w, acts[..|acts| - 1]).fs, acts[|acts| - 1].op))
  }

  lemma StepInvW(w: World, a: Act)
    requires Inv(w.fs) && Stamps(w) && (a.Do? ==> !Tears(w.fs, a.op))
    ensures Inv(StepW(w, a).fs)
  {
    match a
    case Do(op) => StepInvExactly(w.fs, op);
    case OpenDir(h, path, leads) =>
      var i, k := Walk(w.fs, leads, path), FreeSlot(w.fs.slots);
      if i.Some? && k.Some? && i.value in w.born {
        assert w.fs.links[i.value] == Due(w.fs, i.value);
        OpenedInv(w.fs, k.value, i.value);
      }
    case CloseDir(_) =>
  }

  lemma {:induction false} RunInvW(w: World, acts: seq<Act>)
    requires Inv(w.fs) && Stamps(w) && NeverTearsW(w, acts)
    ensures Inv(RunW(w, acts).fs) && Stamps(RunW(w, acts))
  {
    if acts != [] {
      RunInvW(w, acts[..|acts| - 1]);
      StepInvW(RunW(w, acts[..|acts| - 1]), acts[|acts| - 1]);
      StampsKept(RunW(w, acts[..|acts| - 1]), acts[|acts| - 1]);
    }
  }

  /** Over every run of renames, exchanges, removals and everything else, with no dot record torn and names unique at
      the end: a name created through a descriptor lands in the directory the descriptor was opened on exactly when that
      directory was there all the time and can be reached. */
  lemma DescriptorFollows(w: World, acts: seq<Act>, leads: map<nat, nat>, fd: Fd, name: string)
    requires Inv(w.fs) && Stamps(w) && Alive(w, fd) && NeverTearsW(w, acts) && Unique(RunW(w, acts).fs.recs)
    requires !Dots(name)
    ensures exists d ::
      && Depths(RunW(w, acts).fs.up, ROOT, d)
      && (Lands(RunW(w, acts), leads, fd, name) <==>
          Stays(w, acts, fd.ino) && Reachable(RunW(w, acts).fs, leads, d, fd, name))
  {
    RunInvW(w, acts);
    AliveExactly(w, acts, fd);
    var d :| Depths(RunW(w, acts).fs.up, ROOT, d);
    LandsExactly(RunW(w, acts), leads, d, fd, name);
  }

  // ─── a directory made again ───

  const MKDIR_G: Op := Mkdir(ROOT, "g", 11, 0, None)

  ghost function Start(): World { World(Bare(), map[ROOT := 0], 1, map[]) }

  /** The root with one empty directory, its slot still open, and a second slot on it. */
  function DirG(slots: map<nat, Slot>): Fs {
    Fs(map[0 := Rec(ROOT, "g", 11)], map[ROOT := ROOT, 11 := ROOT], map[ROOT := 3, 11 := 2], {}, {}, slots, {}, {})
  }

  function Empty(slots: map<nat, Slot>): Fs { Bare().(slots := slots) }

  /** mkdir in a root that has no such name; slot 0 is taken by it when free. */
  lemma MkdirG(slots: map<nat, Slot>)
    requires slots.Keys <= {0, 1} && (0 in slots || 1 !in slots)
    ensures Step(Empty(slots), MKDIR_G) == DirG(if 0 in slots then slots else slots[0 := Slot(11, 1, false)])
  {
    assert "g" != "." && "g" != "..";
    FreeSlotIs(slots, if 0 !in slots then 0 else if 1 !in slots then 1 else 2);
    assert Lookup(Empty(slots).recs, ROOT, "g").None?;
    MkdirOutcome(Empty(slots), ROOT, "g", 11, 0, None);
    assert Bump(map[ROOT := 2], ROOT, 1)[11 := 2] == map[ROOT := 3, 11 := 2];
  }

  lemma RmdirG(slots: map<nat, Slot>)
    ensures Step(DirG(slots), Rmdir(ROOT, "g")) == Empty(slots)
  {
    assert "g" != "." && "g" != "..";
    LookupIs(DirG(slots).recs, ROOT, "g", 0);
    assert EmptyDir(DirG(slots).recs, 11);
    var fs := WithoutDir(DirG(slots), 0);
    assert fs.recs == map[] && fs.up == map[ROOT := ROOT] && fs.links == map[ROOT := 2];
  }

  lemma EnterG(slots: map<nat, Slot>, leads: map<nat, nat>)
    ensures Walk(DirG(slots), leads, ["g"]) == Some(11)
  {
    assert "g" != "." && "g" != "..";
    LookupIs(DirG(slots).recs, ROOT, "g", 0);
    assert ["g"][..0] == [];
  }

  const ONE_SLOT: map<nat, Slot> := map[0 := Slot(11, 1, false)]
  const TWO_SLOTS: map<nat, Slot> := ONE_SLOT[1 := Slot(11, 1, false)]
  const HANDLE: Fd := Fd(11, ["g"], 1)

  lemma OpenG()
    ensures StepW(StepW(Start(), Do(MKDIR_G)), OpenDir(7, ["g"], map[])) ==
      World(DirG(TWO_SLOTS), map[ROOT := 0, 11 := 1], 2, map[7 := HANDLE])
  {
    MkdirG(map[]);
    assert Empty(map[]) == Bare();
    var w1 := StepW(Start(), Do(MKDIR_G));
    assert w1 == World(DirG(ONE_SLOT), map[ROOT := 0, 11 := 1], 2, map[]);
    EnterG(ONE_SLOT, map[]);
    FreeSlotIs(ONE_SLOT, 1);
  }

  lemma RemakeG(w: World)
    requires w == World(DirG(TWO_SLOTS), map[ROOT := 0, 11 := 1], 2, map[7 := HANDLE])
    ensures StepW(StepW(w, Do(Rmdir(ROOT, "g"))), Do(MKDIR_G)) ==
      World(DirG(TWO_SLOTS), map[ROOT := 0, 11 := 3], 4, map[7 := HANDLE])
  {
    RmdirG(TWO_SLOTS);
    var w1 := StepW(w, Do(Rmdir(ROOT, "g")));
    assert w1 == World(Empty(TWO_SLOTS), map[ROOT := 0], 3, map[7 := HANDLE]);
    MkdirG(TWO_SLOTS);
    assert StepW(w1, Do(MKDIR_G)).born == map[ROOT := 0, 11 := 3];
  }

  /** mkdir g, open it, rmdir g, mkdir g: a name created through the old descriptor lands in the new directory. */
  lemma LandsInSuccessor()
    ensures var acts := [Do(MKDIR_G), OpenDir(7, ["g"], map[]), Do(Rmdir(ROOT, "g")), Do(MKDIR_G)];
      var w := RunW(Start(), acts);
      7 in w.fds && !Alive(w, w.fds[7]) && AtLookup(w.fs, map[], w.fds[7], "x") == Some(11) && 11 in w.fs.up
  {
    var a1, a2, a3 := Do(MKDIR_G), OpenDir(7, ["g"], map[]), Do(Rmdir(ROOT, "g"));
    var acts := [a1, a2, a3, a1];
    assert acts[..3] == [a1, a2, a3] && acts[..3][..2] == [a1, a2] && [a1, a2][..1] == [a1] && [a1][..0] == [];
    assert RunW(Start(), [a1]) == StepW(Start(), a1);
    assert RunW(Start(), [a1, a2]) == StepW(StepW(Start(), a1), a2);
    OpenG();
    RemakeG(RunW(Start(), [a1, a2]));
    JoinG();
  }

  lemma JoinG()
    ensures AtLookup(DirG(TWO_SLOTS), map[], HANDLE, "x") == Some(11)
  {
    var fs := DirG(TWO_SLOTS);
    LookupIs(fs.recs, ROOT, "g", 0);
    assert "g" != "." && "g" != ".." && "x" != "." && "x" != "..";
    assert fs.recs[0].ino == 11 && NameOf(fs, 11) == Some("g");
    assert Climbed(fs, ROOT, 31) == Some([]);
    assert Climbed(fs, 11, 32) == Some([] + ["g"]);
    assert ["g"][..0] == [] && Length(["g"]) == 2;
    EnterG(TWO_SLOTS, map[]);
    PlainJoin(["g"], "x");
    assert Rebuilt(fs, 11) == Some(["g"]);
  }
}
