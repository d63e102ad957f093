/** rename, renameat2, create, mkdir, unlink, rmdir, open and close on the tmpfs tree, by path. */
module TmpfsCalls {
  import opened Basics
  import opened TmpfsTree

  type Path = seq<string>

  const MAX_NAME_LEN: nat := 60

  // ─── lookup ───

  ghost function Find(t: Table, p: nat, name: string): Option<nat> {
    if i :| Child(t, p, i) && t[i].name == name then Some(i) else None
  }

  lemma FindIs(t: Table, p: nat, name: string, i: nat)
    requires Shape(t) && Child(t, p, i) && t[i].name == name
    ensures Find(t, p, name) == Some(i)
  {
    var j := Find(t, p, name).value;
    assert Twins(t, i, j);
  }

  /** Follow directory names from entry `i`. */
  ghost function Walk(t: Table, i: nat, path: Path): Option<nat>
    decreases path
  {
    if path == [] then Some(i)
    else
      match Find(t, i, path[0])
      case None => None
      case Some(j) => if t[j].isDir then Walk(t, j, path[1..]) else None
  }

  /** Why a path has no parent directory: a file in the middle, a name too long at the end, or nothing there. */
  ghost function WalkErrno(t: Table, i: nat, path: Path): (r: int)
    ensures r < 0
    decreases path
  {
    if path == [] then -2
    else if |path| == 1 then (if |path[0]| > MAX_NAME_LEN then -36 else -2)
    else
      match Find(t, i, path[0])
      case None => -2
      case Some(j) => if t[j].isDir then WalkErrno(t, j, path[1..]) else -20
  }

  ghost function ParentOf(t: Table, path: Path): Option<nat>
    requires path != []
  {
    if |path[|path| - 1]| > MAX_NAME_LEN then None else Walk(t, 0, path[..|path| - 1])
  }

  function Last(path: Path): string
    requires path != []
  {
    path[|path| - 1]
  }

  lemma {:induction false} WalkDir(t: Table, i: nat, path: Path)
    requires Shape(t) && IsDir(t, i)
    ensures Walk(t, i, path).Some? ==> IsDir(t, Walk(t, i, path).value)
    decreases path
  {
    if path != [] && Find(t, i, path[0]).Some? && t[Find(t, i, path[0]).value].isDir {
      WalkDir(t, Find(t, i, path[0]).value, path[1..]);
    }
  }

  // ─── the bounded ancestor walk ───

  /** Whether `a` is met on the way up from `x` within `hops` steps. */
  predicate OnChain(t: Table, a: nat, x: nat, hops: nat)
    decreases hops
  {
    if hops == 0 then false
    else if x == a then true
    else if x == 0 || x !in t then false
    else OnChain(t, a, t[x].parent, hops - 1)
  }

  lemma {:induction false} OnChainExact(t: Table, d: map<nat, nat>, a: nat, x: nat, hops: nat)
    requires Shape(t) && Depths(t, d) && Live(t, x) && x in d && hops > d[x]
    ensures OnChain(t, a, x, hops) <==> Under(t, d, a, x)
    decreases hops
  {
    Up(t, d, x);
    if x != a && x != 0 {
      OnChainExact(t, d, a, t[x].parent, hops - 1);
    }
  }

  predicate AncestorOrSelf(t: Table, a: nat, x: nat) { OnChain(t, a, x, MAX_FILES + 1) }

  lemma AncestorExact(t: Table, d: map<nat, nat>, a: nat, x: nat)
    requires Shape(t) && Depths(t, d) && Live(t, x)
    ensures AncestorOrSelf(t, a, x) <==> Under(t, d, a, x)
  {
    DepthBound(t, d, x);
    OnChainExact(t, d, a, x, MAX_FILES + 1);
  }

  // ─── calls ───

  datatype Mode = Replace | NoReplace | Exchange
  datatype Want = File | Directory

  datatype Op =
    | Rename(src: Path, dst: Path, mode: Mode, perm: int)
    | Create(path: Path, dir: bool, slot: Option<nat>, perm: int)
    | Remove(path: Path, want: Want, perm: int)
    | OpenRef(i: nat)
    | CloseRef(i: nat)

  predicate HasChildren(t: Table, i: nat) { exists c :: c in t && Child(t, i, c) }

  function CheckTarget(mode: Mode, srcDir: bool, taken: bool, dstDir: bool, dstEmpty: bool): int {
    match mode
    case Exchange => if taken then 0 else -2
    case NoReplace => if taken then -17 else 0
    case Replace =>
      if !taken then 0
      else if srcDir && !dstDir then -20
      else if !srcDir && dstDir then -21
      else if dstDir && !dstEmpty then -39
      else 0
  }

  /** rename of source entry `s` (in `op`) to a name in `np` that entry `d` holds, if any. */
  ghost function RenameRule(t: Table, s: nat, op: nat, np: nat, d: Option<nat>, mode: Mode, perm: int): int
    requires s in t && (d.Some? ==> d.value in t)
  {
    var rule := CheckTarget(mode, t[s].isDir, d.Some?, d.Some? && t[d.value].isDir,
                            d.Some? && !HasChildren(t, d.value));
    if rule != 0 then rule
    else if t[s].isDir && AncestorOrSelf(t, s, np) then -22
    else if mode == Exchange && d.Some? && t[d.value].isDir && AncestorOrSelf(t, d.value, op) then -22
    else if perm < 0 then perm
    else 0
  }

  ghost function Code(t: Table, op: Op): int {
    match op
    case Rename(src, dst, mode, perm) =>
      if src != [] && ParentOf(t, src).None? then WalkErrno(t, 0, src)
      else if dst != [] && ParentOf(t, dst).None? then WalkErrno(t, 0, dst)
      else if src == [] || dst == [] then -16
      else
        var s, d := Find(t, ParentOf(t, src).value, Last(src)), Find(t, ParentOf(t, dst).value, Last(dst));
        if s.None? then -2
        else if d == s then 0
        else RenameRule(t, s.value, ParentOf(t, src).value, ParentOf(t, dst).value, d, mode, perm)
    case Create(path, _, slot, perm) =>
      if path == [] then -17
      else if ParentOf(t, path).None? then WalkErrno(t, 0, path)
      else if Find(t, ParentOf(t, path).value, Last(path)).Some? then -17
      else if perm < 0 then perm
      else if slot.None? || slot.value in t || !(0 < slot.value < MAX_FILES) then -28
      else 0
    case Remove(path, want, perm) =>
      if path == [] then -16
      else if ParentOf(t, path).None? then -2
      else
        var i := Find(t, ParentOf(t, path).value, Last(path));
        if i.None? then -2
        else if want == File && t[i.value].isDir then -21
        else if want == Directory && !t[i.value].isDir then -20
        else if perm < 0 then perm
        else if t[i.value].isDir && HasChildren(t, i.value) then -39
        else 0
    case OpenRef(i) => if Live(t, i) then 0 else -2
    case CloseRef(i) => if i in t && t[i].open > 0 then 0 else -9
  }

  ghost function Renamed(t: Table, s: nat, np: nat, name: string, d: Option<nat>, mode: Mode): Table
    requires s in t && (d.Some? ==> d.value in t && d.value != s)
  {
    if d.None? then Moved(t, s, np, name)
    else if mode == Exchange then Exchanged(t, s, d.value)
    else Moved(Removed(t, d.value), s, np, name)
  }

  ghost function Step(t: Table, op: Op): Table {
    if Code(t, op) < 0 then t
    else
      match op
      case Rename(src, dst, mode, _) =>
        var s, d := Find(t, ParentOf(t, src).value, Last(src)), Find(t, ParentOf(t, dst).value, Last(dst));
        if s.None? || d == s then t else Renamed(t, s.value, ParentOf(t, dst).value, Last(dst), d, mode)
      case Create(path, dir, slot, _) => t[slot.value := Entry(Last(path), ParentOf(t, path).value, dir, false, 0)]
      case Remove(path, _, _) => Removed(t, Find(t, ParentOf(t, path).value, Last(path)).value)
      case OpenRef(i) => t[i := t[i].(open := t[i].open + 1)]
      case CloseRef(i) => Closed(t, i)
  }

  function Closed(t: Table, i: nat): Table
    requires i in t && t[i].open > 0
  {
    if t[i].gone && t[i].open == 1 then t - {i} else t[i := t[i].(open := t[i].open - 1)]
  }

  ghost function Run(t: Table, ops: seq<Op>): Table {
    if ops == [] then t else Step(Run(t, ops[..|ops| - 1]), ops[|ops| - 1])
  }

  // ─── every call keeps the tree ───

  lemma RenameOk(t: Table, s: nat, op: nat, np: nat, name: string, d: Option<nat>, mode: Mode, perm: int)
    requires TreeOk(t) && Child(t, op, s) && IsDir(t, np) && d == Find(t, np, name) && d != Some(s)
    requires RenameRule(t, s, op, np, d, mode, perm) == 0
    ensures TreeOk(Renamed(t, s, np, name, d, mode))
  {
    var dep :| Depths(t, dep);
    Up(t, dep, s);
    AncestorExact(t, dep, s, np);
    if !t[s].isDir {
      UnderFile(t, dep, s, np);
    }
    if d.None? {
      MoveOk(t, dep, s, np, name);
    } else if mode == Exchange {
      AncestorExact(t, dep, d.value, op);
      if !t[d.value].isDir {
        UnderFile(t, dep, d.value, op);
      }
      ExchangeOk(t, dep, s, d.value);
    } else {
      NoChildren(t, d.value);
      ReplaceOk(t, dep, s, np, name, d.value);
    }
  }

  lemma ReplaceOk(t: Table, dep: map<nat, nat>, s: nat, np: nat, name: string, v: nat)
    requires Shape(t) && Depths(t, dep) && Live(t, s) && s != 0 && IsDir(t, np) && !Under(t, dep, s, np)
    requires Child(t, np, v) && t[v].name == name && v != s && (forall c :: !Child(t, v, c))
    ensures TreeOk(Moved(Removed(t, v), s, np, name))
  {
    RemoveOk(t, v);
    var t1 := Removed(t, v);
    RemoveDepths(t, dep, v);
    assert np != v by { Up(t, dep, v); }
    forall i | Child(t1, np, i) && i != s ensures t1[i].name != name {
      if t1[i].name == name {
        assert Twins(t, i, v);
      }
    }
    RemoveUnder(t, dep, v, s, np);
    MoveOk(t1, dep, s, np, name);
  }

  lemma RemoveDepths(t: Table, dep: map<nat, nat>, v: nat)
    requires Shape(t) && Depths(t, dep) && Live(t, v)
    ensures Depths(Removed(t, v), dep)
  {
    forall i ensures DepthOk(Removed(t, v), dep, i) {
      assert DepthOk(t, dep, i);
    }
  }

  lemma {:induction false} RemoveUnder(t: Table, dep: map<nat, nat>, v: nat, a: nat, x: nat)
    requires Shape(t) && Depths(t, dep) && Live(t, v) && v != 0 && Live(t, x) && x != v && (forall c :: !Child(t, v, c))
    requires Shape(Removed(t, v)) && Depths(Removed(t, v), dep)
    ensures Live(Removed(t, v), x) && (Under(Removed(t, v), dep, a, x) <==> Under(t, dep, a, x))
    decreases if x in dep then dep[x] else 0
  {
    Up(t, dep, x);
    assert !Child(t, v, x);
    if x != 0 && x != a {
      RemoveUnder(t, dep, v, a, t[x].parent);
    }
  }

  lemma StepOk(t: Table, op: Op)
    requires TreeOk(t)
    ensures TreeOk(Step(t, op))
  {
    if Code(t, op) >= 0 {
      match op
      case Rename(src, dst, mode, perm) =>
        WalkDir(t, 0, src[..|src| - 1]);
        WalkDir(t, 0, dst[..|dst| - 1]);
        var p, q := ParentOf(t, src).value, ParentOf(t, dst).value;
        var s, d := Find(t, p, Last(src)), Find(t, q, Last(dst));
        if s.Some? && d != s {
          RenameRuleSign(t, s.value, p, q, d, mode, perm);
          RenameOk(t, s.value, p, q, Last(dst), d, mode, perm);
        }
      case Create(path, dir, slot, _) =>
        WalkDir(t, 0, path[..|path| - 1]);
        CreateOk(t, slot.value, Entry(Last(path), ParentOf(t, path).value, dir, false, 0));
      case Remove(path, want, _) =>
        var i := Find(t, ParentOf(t, path).value, Last(path)).value;
        NoChildren(t, i);
        RemoveOk(t, i);
      case OpenRef(i) => SameNames(t, Step(t, op));
      case CloseRef(i) => SameNames(t, Step(t, op));
    }
  }

  lemma RenameRuleSign(t: Table, s: nat, op: nat, np: nat, d: Option<nat>, mode: Mode, perm: int)
    requires s in t && (d.Some? ==> d.value in t) && RenameRule(t, s, op, np, d, mode, perm) >= 0
    ensures RenameRule(t, s, op, np, d, mode, perm) == 0
  {
  }

  lemma NoChildren(t: Table, i: nat)
    requires Shape(t) && Live(t, i) && (t[i].isDir ==> !HasChildren(t, i))
    ensures forall c :: !Child(t, i, c)
  {
    forall c ensures !Child(t, i, c) {
      assert ParentOk(t, c);
    }
  }

  /** Reference counts of open files, and entries that have no name any more, are no part of the tree. */
  lemma SameNames(t: Table, t': Table)
    requires TreeOk(t) && t'.Keys <= t.Keys
    requires forall i :: Live(t', i) <==> Live(t, i)
    requires forall i :: Live(t', i) && Live(t, i) ==>
      t'[i].parent == t[i].parent && t'[i].name == t[i].name && t'[i].isDir == t[i].isDir
    ensures TreeOk(t')
  {
    var d :| Depths(t, d);
    forall i ensures ParentOk(t', i) && DepthOk(t', d, i) {
      assert ParentOk(t, i) && DepthOk(t, d, i);
    }
    forall i, j | Twins(t', i, j) ensures i == j {
      assert Twins(t, i, j);
    }
    assert Depths(t', d);
  }

  /** In every run of calls the name space stays a rooted tree. */
  lemma {:induction false} RunOk(t: Table, ops: seq<Op>)
    requires TreeOk(t)
    ensures TreeOk(Run(t, ops))
  {
    if ops != [] {
      RunOk(t, ops[..|ops| - 1]);
      StepOk(Run(t, ops[..|ops| - 1]), ops[|ops| - 1]);
    }
  }
}
