/** Paths: directories found again after any renames, exchange undone by exchange, and the table walks themselves. */
module TmpfsPaths {
  import opened Basics
  import opened PathNames
  import opened TmpfsTree
  import opened TmpfsCalls

  // ─── the path of an entry ───

  /** The names on the way from the root. */
  ghost function PathOf(t: Table, d: map<nat, nat>, i: nat): Path
    requires Shape(t) && Depths(t, d) && Live(t, i)
    decreases if i in d then d[i] else 0
  {
    Up(t, d, i);
    if i == 0 then [] else PathOf(t, d, t[i].parent) + [t[i].name]
  }

  lemma {:induction false} WalkSnoc(t: Table, i: nat, path: Path, name: string)
    ensures Walk(t, i, path + [name]) ==
      match Walk(t, i, path)
      case None => None
      case Some(p) =>
        match Find(t, p, name)
        case None => None
        case Some(j) => if t[j].isDir then Some(j) else None
    decreases path
  {
    if path == [] {
      assert [name][1..] == [];
      assert Walk(t, i, [name]) ==
        match Find(t, i, name) case None => None case Some(j) => if t[j].isDir then Walk(t, j, []) else None;
    } else {
      assert (path + [name])[1..] == path[1..] + [name];
      if Find(t, i, path[0]).Some? && t[Find(t, i, path[0]).value].isDir {
        WalkSnoc(t, Find(t, i, path[0]).value, path[1..], name);
      }
    }
  }

  lemma {:induction false} DirPathResolves(t: Table, d: map<nat, nat>, i: nat)
    requires Shape(t) && Depths(t, d) && IsDir(t, i)
    ensures Walk(t, 0, PathOf(t, d, i)) == Some(i)
    decreases if i in d then d[i] else 0
  {
    Up(t, d, i);
    if i != 0 {
      DirPathResolves(t, d, t[i].parent);
      WalkSnoc(t, 0, PathOf(t, d, t[i].parent), t[i].name);
      FindIs(t, t[i].parent, t[i].name, i);
    }
  }

  /** A walk down names exactly the path read upwards. */
  lemma {:induction false} WalkIsPath(t: Table, d: map<nat, nat>, path: Path)
    requires Shape(t) && Depths(t, d) && Walk(t, 0, path).Some?
    ensures var i := Walk(t, 0, path).value; IsDir(t, i) && PathOf(t, d, i) == path
    decreases |path|
  {
    if path != [] {
      var front, name := path[..|path| - 1], path[|path| - 1];
      assert path == front + [name];
      WalkSnoc(t, 0, front, name);
      WalkIsPath(t, d, front);
      var p, i := Walk(t, 0, front).value, Walk(t, 0, path).value;
      assert Child(t, p, i) && t[i].name == name;
      assert PathOf(t, d, i) == PathOf(t, d, p) + [name];
    }
  }

  /** Where openat(2) and its relatives look for a name in the directory with this path: the two are joined, the dots
      collapsed, and the result looked up from the root. None: too long, or not in this tree at all. */
  ghost function AtLookup(t: Table, path: Path, name: string): Option<nat> {
    var whole := ["tmp"] + path + [name];
    var q := Normal(whole);
    if Length(whole) > MAX_PATH || |q| < 2 || q[0] != "tmp" then None else ParentOf(t, q[1..])
  }

  lemma AtLookupPlain(t: Table, d: map<nat, nat>, i: nat, name: string)
    requires Shape(t) && Depths(t, d) && IsDir(t, i) && !Dots(name) && |name| <= MAX_NAME_LEN
    requires NoDots(PathOf(t, d, i)) && Length(["tmp"] + PathOf(t, d, i) + [name]) <= MAX_PATH
    ensures AtLookup(t, PathOf(t, d, i), name) == Some(i)
  {
    var path := PathOf(t, d, i);
    var whole := ["tmp"] + path + [name];
    assert NoDots(whole);
    NormalSame(whole);
    DirPathResolves(t, d, i);
    assert whole[1..] == path + [name] && (path + [name])[..|path|] == path;
  }

  lemma AtLookupDotted(t: Table, d: map<nat, nat>, i: nat, name: string)
    requires Shape(t) && Depths(t, d) && IsDir(t, i) && !Dots(name) && !NoDots(PathOf(t, d, i))
    ensures AtLookup(t, PathOf(t, d, i), name) != Some(i)
  {
    var path := PathOf(t, d, i);
    var front := ["tmp"] + path;
    var q := Normal(front + [name]);
    Extended(front, name);
    NormalNoDots(front);
    if AtLookup(t, path, name) == Some(i) {
      assert q[1..][..|q[1..]| - 1] == Normal(front)[1..];
      WalkIsPath(t, d, Normal(front)[1..]);
    }
  }

  /** After any run of calls, the path read off the parents of a directory that is still there leads back to it. A name
      created through a descriptor of that directory lands in it if and only if no directory on the way bears a dot name
      and the joined path is not too long. */
  lemma PathLeadsBack(t0: Table, ops: seq<Op>, i: nat, name: string)
    requires TreeOk(t0) && IsDir(Run(t0, ops), i) && !Dots(name) && |name| <= MAX_NAME_LEN
    ensures exists d ::
      && Depths(Run(t0, ops), d) && Shape(Run(t0, ops))
      && var path := PathOf(Run(t0, ops), d, i);
        && Walk(Run(t0, ops), 0, path) == Some(i)
        && (AtLookup(Run(t0, ops), path, name) == Some(i) <==>
            NoDots(path) && Length(["tmp"] + path + [name]) <= MAX_PATH)
  {
    RunOk(t0, ops);
    var t := Run(t0, ops);
    var d :| Depths(t, d);
    DirPathResolves(t, d, i);
    if !NoDots(PathOf(t, d, i)) {
      AtLookupDotted(t, d, i, name);
    } else if Length(["tmp"] + PathOf(t, d, i) + [name]) <= MAX_PATH {
      AtLookupPlain(t, d, i, name);
    }
  }

  function RootOnly(): Table { map[0 := Entry("/", 0, true, false, 0)] }

  /** mkdir /tmp/a, then mkdir /tmp/a/.. : absolute names are not collapsed, so the second makes an entry. */
  function DotTable(): Table {
    RootOnly()[1 := Entry("a", 0, true, false, 0)][2 := Entry("..", 1, true, false, 0)]
  }

  lemma MkdirTwice()
    ensures Run(RootOnly(), [Create(["a"], true, Some(1), 0), Create(["a", ".."], true, Some(2), 0)]) == DotTable()
    ensures TreeOk(DotTable())
  {
    var x, y := Create(["a"], true, Some(1), 0), Create(["a", ".."], true, Some(2), 0);
    assert [x, y][..1] == [x] && [x][..0] == [];
    RootOk(RootOnly());
    RunOk(RootOnly(), [x, y]);
    var t1 := RootOnly()[1 := Entry("a", 0, true, false, 0)];
    assert ["a"][..0] == [] && ["a", ".."][..1] == ["a"] && ["a"][1..] == [];
    assert Find(RootOnly(), 0, "a") == None;
    assert Run(RootOnly(), [x]) == t1;
    StepOk(RootOnly(), x);
    FindIs(t1, 0, "a", 1);
    assert Walk(t1, 0, ["a"]) == Walk(t1, 1, []);
    assert Find(t1, 1, "..") == None;
  }

  /** With the directory ".." of /tmp/a open, openat(fd, "x", O_CREAT) looks in /tmp instead. */
  lemma DotNameMisleads()
    ensures IsDir(DotTable(), 2)
    ensures exists d ::
      && Depths(DotTable(), d) && Shape(DotTable()) && PathOf(DotTable(), d, 2) == ["a", ".."]
      && AtLookup(DotTable(), PathOf(DotTable(), d, 2), "x") == Some(0)
  {
    MkdirTwice();
    var t := DotTable();
    var d :| Depths(t, d);
    assert PathOf(t, d, 0) == [] && PathOf(t, d, 1) == [] + ["a"];
    assert PathOf(t, d, 2) == ["a", ".."];
    var whole := ["tmp"] + ["a", ".."] + ["x"];
    assert whole == ["tmp", "a", "..", "x"];
    DotsCollapse();
    assert ["tmp", "x"][1..] == ["x"] && ["x"][..0] == [];
  }

  lemma DotsCollapse()
    ensures var whole := ["tmp", "a", "..", "x"]; Normal(whole) == ["tmp", "x"] && Length(whole) <= MAX_PATH
  {
    var s1: Components := ["tmp"];
    var s2 := s1 + ["a"];
    var s3 := s2 + [".."];
    assert Normal(s1) == s1 && Length(s1) == 4 by {
      assert s1[..0] == [] && [] + ["tmp"] == s1;
    }
    Extended(s1, "a");
    Extended(s2, "..");
    Extended(s3, "x");
    assert s2[..1] == s1 && s3 + ["x"] == ["tmp", "a", "..", "x"] && s1 + ["x"] == ["tmp", "x"];
  }

  /** A directory that was removed while open has no entry in it, in any state of any run. */
  lemma RemovedStaysEmpty(t0: Table, ops: seq<Op>, i: nat, c: nat)
    requires TreeOk(t0) && i in Run(t0, ops) && Run(t0, ops)[i].gone
    ensures !Child(Run(t0, ops), i, c)
  {
    RunOk(t0, ops);
    assert ParentOk(Run(t0, ops), c);
  }

  // ─── what a rename does to the names ───

  /** A successful rename puts the source under the new name and leaves no entry under the old one, unless they are the
      same name; every other entry keeps its place. */
  lemma RenameMoves(t: Table, src: Path, dst: Path, perm: int)
    requires TreeOk(t) && src != [] && dst != [] && Code(t, Rename(src, dst, Replace, perm)) == 0
    ensures var p, q := ParentOf(t, src), ParentOf(t, dst);
      p.Some? && q.Some? && Find(t, p.value, Last(src)).Some? &&
      var s, t' := Find(t, p.value, Last(src)).value, Step(t, Rename(src, dst, Replace, perm));
      && Find(t', q.value, Last(dst)) == Some(s)
      && ((p, Last(src)) != (q, Last(dst)) ==> Find(t', p.value, Last(src)) == None)
      && forall i :: Live(t', i) && i != s ==> Live(t, i) && t'[i].parent == t[i].parent && t'[i].name == t[i].name
  {
    var op := Rename(src, dst, Replace, perm);
    var p, q := ParentOf(t, src).value, ParentOf(t, dst).value;
    var s, d := Find(t, p, Last(src)).value, Find(t, q, Last(dst));
    StepOk(t, op);
    var t' := Step(t, op);
    if d == Some(s) {
      assert t[s].parent == p == q;
    } else {
      assert Child(t', q, s) && t'[s].name == Last(dst);
      FindIs(t', q, Last(dst), s);
      if (p, Last(src)) != (q, Last(dst)) {
        OldNameGone(t, t', p, Last(src), s);
      }
    }
  }

  lemma OldNameGone(t: Table, t': Table, p: nat, name: string, s: nat)
    requires Shape(t) && Child(t, p, s) && t[s].name == name && (!Child(t', p, s) || t'[s].name != name)
    requires forall i :: Live(t', i) && i != s ==> Live(t, i) && t'[i].parent == t[i].parent && t'[i].name == t[i].name
    ensures Find(t', p, name) == None
  {
    forall i ensures !(Child(t', p, i) && t'[i].name == name) {
      if Child(t', p, i) && t'[i].name == name && i != s {
        assert Twins(t, i, s);
      }
    }
  }

  // ─── exchange is its own inverse, call by call ───

  lemma {:induction false} ChainOutside(t: Table, d: map<nat, nat>, t': Table, d': map<nat, nat>, a: nat, b: nat,
    c: nat, x: nat)
    requires Shape(t) && Depths(t, d) && Shape(t') && Depths(t', d') && Live(t, a) && Live(t, b)
    requires t' == Exchanged(t, a, b)
    requires Live(t, x) && Live(t', x) && !Under(t, d, a, x) && !Under(t, d, b, x)
    ensures Under(t', d', c, x) <==> Under(t, d, c, x)
    decreases if x in d then d[x] else 0
  {
    Up(t, d, x);
    Up(t', d', x);
    if x != c && x != 0 {
      ChainOutside(t, d, t', d', a, b, c, t[x].parent);
    }
  }

  /** A walk that ends outside both exchanged entries is not affected. */
  lemma {:induction false} WalkOutside(t: Table, d: map<nat, nat>, a: nat, b: nat, i: nat, path: Path)
    requires Shape(t) && Depths(t, d) && Live(t, a) && Live(t, b) && a != 0 && b != 0 && a != b
    requires Shape(Exchanged(t, a, b))
    requires Live(t, i) && Walk(t, i, path).Some? && Live(t, Walk(t, i, path).value)
    requires !Under(t, d, a, Walk(t, i, path).value) && !Under(t, d, b, Walk(t, i, path).value)
    ensures Walk(Exchanged(t, a, b), i, path) == Walk(t, i, path)
    ensures Under(t, d, i, Walk(t, i, path).value)
    decreases path
  {
    if path != [] {
      var j := Find(t, i, path[0]).value;
      WalkOutside(t, d, a, b, j, path[1..]);
      var t' := Exchanged(t, a, b);
      assert j != a && j != b && Child(t', i, j) && t'[j].name == path[0];
      FindIs(t', i, path[0], j);
      UnderTrans(t, d, i, j, Walk(t, i, path).value);
    }
  }

  lemma {:induction false} UnderTrans(t: Table, d: map<nat, nat>, a: nat, b: nat, x: nat)
    requires Shape(t) && Depths(t, d) && Child(t, a, b) && Live(t, a) && Live(t, x) && Under(t, d, b, x)
    ensures Under(t, d, a, x)
    decreases if x in d then d[x] else 0
  {
    Up(t, d, x);
    if x != b {
      UnderTrans(t, d, a, b, t[x].parent);
    }
  }

  lemma ParentOutside(t: Table, d: map<nat, nat>, a: nat, b: nat)
    requires Shape(t) && Depths(t, d) && Live(t, a) && Live(t, b) && a != 0 && b != 0 && Live(t, t[a].parent)
    requires t[b].isDir ==> !AncestorOrSelf(t, b, t[a].parent)
    requires IsDir(t, t[a].parent)
    ensures !Under(t, d, a, t[a].parent) && !Under(t, d, b, t[a].parent)
  {
    Up(t, d, a);
    if Under(t, d, a, t[a].parent) {
      UnderDeeper(t, d, a, t[a].parent);
    }
    AncestorExact(t, d, b, t[a].parent);
    if !t[b].isDir {
      UnderFile(t, d, b, t[a].parent);
    }
  }

  /** renameat2(EXCHANGE) a second time with the same paths is accepted and restores the table exactly. */
  lemma ExchangeCallTwice(t: Table, src: Path, dst: Path, perm: int)
    requires TreeOk(t) && src != [] && dst != [] && perm >= 0 && Code(t, Rename(src, dst, Exchange, perm)) == 0
    ensures var op := Rename(src, dst, Exchange, perm); Code(Step(t, op), op) == 0 && Step(Step(t, op), op) == t
  {
    var op := Rename(src, dst, Exchange, perm);
    var p, q := ParentOf(t, src).value, ParentOf(t, dst).value;
    var s, dd := Find(t, p, Last(src)).value, Find(t, q, Last(dst));
    if dd != Some(s) {
      ExchangeBack(t, src, dst, perm, p, q, s, dd.value);
    }
  }

  lemma ExchangeLookups(t: Table, d: map<nat, nat>, src: Path, dst: Path, p: nat, q: nat, a: nat, b: nat)
    requires Shape(t) && Depths(t, d) && src != [] && dst != [] && Shape(ExchangedIn(t, a, b)) && Live(t, a)
    requires Live(t, b) && a != b
    requires ParentOf(t, src) == Some(p) && ParentOf(t, dst) == Some(q)
    requires Find(t, p, Last(src)) == Some(a) && Find(t, q, Last(dst)) == Some(b) && Live(t, p) && Live(t, q)
    requires !Under(t, d, a, p) && !Under(t, d, b, p) && !Under(t, d, a, q) && !Under(t, d, b, q)
    ensures var t' := ExchangedIn(t, a, b);
      && ParentOf(t', src) == Some(p) && ParentOf(t', dst) == Some(q)
      && Find(t', p, Last(src)) == Some(b) && Find(t', q, Last(dst)) == Some(a)
  {
    var t' := ExchangedIn(t, a, b);
    WalkOutside(t, d, a, b, 0, src[..|src| - 1]);
    WalkOutside(t, d, a, b, 0, dst[..|dst| - 1]);
    assert Child(t', p, b) && t'[b].name == Last(src) && Child(t', q, a) && t'[a].name == Last(dst);
    FindIs(t', p, Last(src), b);
    FindIs(t', q, Last(dst), a);
  }

  function ExchangedIn(t: Table, a: nat, b: nat): Table { if a in t && b in t then Exchanged(t, a, b) else t }

  lemma ExchangeRules(t: Table, d: map<nat, nat>, p: nat, q: nat, a: nat, b: nat, perm: int)
    requires Shape(t) && Depths(t, d) && Live(t, a) && Live(t, b) && a != b && TreeOk(ExchangedIn(t, a, b)) && perm >= 0
    requires Live(t, p) && Live(t, q) && !Under(t, d, a, p) && !Under(t, d, b, p) && !Under(t, d, a, q)
    requires !Under(t, d, b, q)
    ensures RenameRule(ExchangedIn(t, a, b), b, p, q, Some(a), Exchange, perm) == 0
  {
    var t' := ExchangedIn(t, a, b);
    var d' :| Depths(t', d');
    ChainOutside(t, d, t', d', a, b, a, p);
    ChainOutside(t, d, t', d', a, b, b, q);
    AncestorExact(t', d', b, q);
    AncestorExact(t', d', a, p);
  }

  lemma ExchangeBack(t: Table, src: Path, dst: Path, perm: int, p: nat, q: nat, a: nat, b: nat)
    requires TreeOk(t) && src != [] && dst != [] && perm >= 0 && Code(t, Rename(src, dst, Exchange, perm)) == 0
    requires ParentOf(t, src) == Some(p) && ParentOf(t, dst) == Some(q)
    requires Find(t, p, Last(src)) == Some(a) && Find(t, q, Last(dst)) == Some(b) && a != b
    ensures var op := Rename(src, dst, Exchange, perm); Code(Step(t, op), op) == 0 && Step(Step(t, op), op) == t
  {
    var op := Rename(src, dst, Exchange, perm);
    var d :| Depths(t, d);
    WalkDir(t, 0, src[..|src| - 1]);
    WalkDir(t, 0, dst[..|dst| - 1]);
    StepOk(t, op);
    var t' := ExchangedIn(t, a, b);
    assert Step(t, op) == t';
    ParentOutside(t, d, a, b);
    ParentOutside(t, d, b, a);
    ExchangeLookups(t, d, src, dst, p, q, a, b);
    ExchangeRules(t, d, p, q, a, b, perm);
    assert Exchanged(t', b, a) == Exchanged(t', a, b);
    ExchangeTwice(t, a, b);
  }

  // ─── the table walks ───

  class Tmpfs {
    var t: Table

    constructor ()
      ensures TreeOk(t) && t == map[0 := Entry("/", 0, true, false, 0)]
    {
      t := map[0 := Entry("/", 0, true, false, 0)];
      new;
      RootOk(t);
    }

    /** Scan the table for a name in a directory. */
    method FindEntry(name: string, parent: nat) returns (r: Option<nat>)
      requires Shape(t)
      ensures r == Find(t, parent, name)
    {
      var i := 1;
      while i < MAX_FILES
        invariant 1 <= i <= MAX_FILES && forall j: nat :: j < i ==> !(Child(t, parent, j) && t[j].name == name)
      {
        if Child(t, parent, i) && t[i].name == name {
          FindIs(t, parent, name, i);
          return Some(i);
        }
        i := i + 1;
      }
      r := None;
    }

    /** Climb from `dir` looking for `anc`, at most as many steps as there are entries. */
    method IsAncestorOrSelf(anc: nat, dir: nat) returns (r: bool)
      ensures r == AncestorOrSelf(t, anc, dir)
    {
      var cur, hops := dir, 0;
      while hops <= MAX_FILES
        invariant hops <= MAX_FILES + 1 && AncestorOrSelf(t, anc, dir) == OnChain(t, anc, cur, MAX_FILES + 1 - hops)
      {
        if cur == anc {
          return true;
        }
        if cur == 0 || cur !in t {
          return false;
        }
        cur := t[cur].parent;
        hops := hops + 1;
      }
      r := false;
    }

    /** Resolve all but the last name of a path. */
    method Resolve(path: Path) returns (r: Option<nat>)
      requires Shape(t) && path != []
      ensures r == ParentOf(t, path)
    {
      if |path[|path| - 1]| > MAX_NAME_LEN {
        return None;
      }
      var cur, k := 0, 0;
      ghost var front := path[..|path| - 1];
      while k < |path| - 1
        invariant k <= |path| - 1 && Walk(t, 0, front) == Walk(t, cur, front[k..])
      {
        var j := FindEntry(path[k], cur);
        if j.None? {
          return None;
        }
        if !t[j.value].isDir {
          return None;
        }
        assert front[k..][1..] == front[k + 1..];
        cur := j.value;
        k := k + 1;
      }
      r := Some(cur);
    }

    /** The path of an entry, read off its parents; none once the entry has lost its name. */
    method EntryPath(i: nat, ghost d: map<nat, nat>) returns (r: Option<Path>)
      requires Shape(t) && Depths(t, d)
      ensures r.Some? <==> Live(t, i)
      ensures r.Some? ==> r.value == PathOf(t, d, i)
    {
      if i !in t || t[i].gone {
        return None;
      }
      var cur, names := i, [];
      Up(t, d, i);
      while cur != 0
        invariant Live(t, cur) && cur in d && PathOf(t, d, i) == PathOf(t, d, cur) + names
        decreases if cur in d then d[cur] else 0
      {
        Up(t, d, cur);
        names := [t[cur].name] + names;
        cur := t[cur].parent;
      }
      r := Some(names);
    }

    /** The rename call: exactly the specified result and the specified table. */
    method RenameCall(src: Path, dst: Path, mode: Mode, perm: int) returns (r: int)
      requires TreeOk(t) && src != [] && dst != []
      modifies this
      ensures r == Code(old(t), Rename(src, dst, mode, perm)) && t == Step(old(t), Rename(src, dst, mode, perm)) &&
        TreeOk(t)
    {
      StepOk(t, Rename(src, dst, mode, perm));
      var p := Resolve(src);
      if p.None? {
        r := Errno(src);
        return;
      }
      var q := Resolve(dst);
      if q.None? {
        r := Errno(dst);
        return;
      }
      var s := FindEntry(Last(src), p.value);
      var d := FindEntry(Last(dst), q.value);
      if s.None? {
        return -2;
      }
      if d == s {
        return 0;
      }
      var rule := CheckTarget(mode, t[s.value].isDir, d.Some?, d.Some? && t[d.value].isDir,
                              d.Some? && !HasChildren(t, d.value));
      if rule != 0 {
        return rule;
      }
      if t[s.value].isDir {
        var loop := IsAncestorOrSelf(s.value, q.value);
        if loop {
          return -22;
        }
      }
      if mode == Exchange && t[d.value].isDir {
        var loop := IsAncestorOrSelf(d.value, p.value);
        if loop {
          return -22;
        }
      }
      if perm < 0 {
        return perm;
      }
      if mode == Exchange {
        t := Exchanged(t, s.value, d.value);
      } else {
        if d.Some? {
          t := Removed(t, d.value);
        }
        t := Moved(t, s.value, q.value, Last(dst));
      }
      r := 0;
    }

    method Errno(path: Path) returns (r: int)
      requires Shape(t) && path != []
      ensures r == WalkErrno(t, 0, path)
    {
      var cur, k := 0, 0;
      while k < |path| - 1
        invariant k <= |path| - 1 && WalkErrno(t, 0, path) == WalkErrno(t, cur, path[k..])
      {
        var j := FindEntry(path[k], cur);
        if j.None? {
          return -2;
        }
        if !t[j.value].isDir {
          return -20;
        }
        assert path[k..][1..] == path[k + 1..];
        cur := j.value;
        k := k + 1;
      }
      r := if |path[k]| > MAX_NAME_LEN then -36 else -2;
    }
  }

  lemma RootOk(t: Table)
    requires t == map[0 := Entry("/", 0, true, false, 0)]
    ensures TreeOk(t)
  {
    var d: map<nat, nat> := map[0 := 0];
    assert forall i :: ParentOk(t, i) && DepthOk(t, d, i);
    assert Depths(t, d);
  }
}
