/** The tmpfs name space: a table of entries that name their parent, and the changes made to it. */
module TmpfsTree {
  const MAX_FILES: nat := 512

  /** `gone`: unlinked but still open; it has no name any more. Entry 0 is the root. */
  datatype Entry = Entry(name: string, parent: nat, isDir: bool, gone: bool, open: nat)
  type Table = map<nat, Entry>

  predicate Live(t: Table, i: nat) { i in t && !t[i].gone }

  predicate IsDir(t: Table, i: nat) { Live(t, i) && t[i].isDir }

  predicate Child(t: Table, p: nat, i: nat) { i != 0 && Live(t, i) && t[i].parent == p }

  // ─── what a tree is ───

  predicate ParentOk(t: Table, i: nat) { i != 0 && Live(t, i) ==> IsDir(t, t[i].parent) }

  predicate Twins(t: Table, i: nat, j: nat) {
    i != 0 && j != 0 && Live(t, i) && Live(t, j) && t[i].parent == t[j].parent && t[i].name == t[j].name
  }

  ghost predicate Shape(t: Table) {
    && IsDir(t, 0)
    && (forall i :: i in t ==> i < MAX_FILES)
    && (forall i :: ParentOk(t, i))
    && (forall i, j :: Twins(t, i, j) ==> i == j)
  }

  ghost predicate DepthOk(t: Table, d: map<nat, nat>, i: nat) {
    i != 0 && Live(t, i) ==> i in d && t[i].parent in d && d[i] == d[t[i].parent] + 1
  }

  /** Distances from the root along parents: they exist exactly when there is no cycle. */
  ghost predicate Depths(t: Table, d: map<nat, nat>) { 0 in d && d[0] == 0 && forall i :: DepthOk(t, d, i) }

  ghost predicate Acyclic(t: Table) { exists d :: Depths(t, d) }

  /** A rooted tree: one live directory as parent of every name, no two equal names in a directory, no cycle. */
  ghost predicate TreeOk(t: Table) { Shape(t) && Acyclic(t) }

  lemma Up(t: Table, d: map<nat, nat>, x: nat)
    requires Shape(t) && Depths(t, d) && Live(t, x)
    ensures x in d
    ensures x != 0 ==> IsDir(t, t[x].parent) && t[x].parent in d && d[x] == d[t[x].parent] + 1
  {
    assert ParentOk(t, x) && DepthOk(t, d, x);
  }

  /** `x` is `a` or below it. */
  ghost predicate Under(t: Table, d: map<nat, nat>, a: nat, x: nat)
    requires Shape(t) && Depths(t, d) && Live(t, x)
    decreases if x in d then d[x] else 0
  {
    Up(t, d, x);
    x == a || (x != 0 && Under(t, d, a, t[x].parent))
  }

  lemma {:induction false} UnderDeeper(t: Table, d: map<nat, nat>, a: nat, x: nat)
    requires Shape(t) && Depths(t, d) && Live(t, x) && Live(t, a) && Under(t, d, a, x)
    ensures a in d && x in d && d[a] <= d[x] && (d[a] == d[x] ==> a == x)
    decreases if x in d then d[x] else 0
  {
    Up(t, d, x);
    Up(t, d, a);
    if x != a {
      UnderDeeper(t, d, a, t[x].parent);
    }
  }

  /** Only directories have something below them. */
  lemma {:induction false} UnderFile(t: Table, d: map<nat, nat>, a: nat, x: nat)
    requires Shape(t) && Depths(t, d) && Live(t, x) && Live(t, a) && !t[a].isDir
    ensures Under(t, d, a, x) <==> x == a
    decreases if x in d then d[x] else 0
  {
    Up(t, d, x);
    if x != a && x != 0 {
      UnderFile(t, d, a, t[x].parent);
    }
  }

  // ─── the depth is bounded, so the bounded walk is exact ───

  lemma {:induction false} DepthPopulated(t: Table, d: map<nat, nat>, i: nat, k: nat) returns (j: nat)
    requires Shape(t) && Depths(t, d) && Live(t, i) && i in d && k <= d[i]
    ensures Live(t, j) && j in d && d[j] == k
    decreases d[i]
  {
    Up(t, d, i);
    if d[i] == k {
      j := i;
    } else {
      j := DepthPopulated(t, d, t[i].parent, k);
    }
  }

  lemma {:induction false} DepthsDistinct(t: Table, d: map<nat, nat>, i: nat, k: nat) returns (s: set<nat>)
    requires Shape(t) && Depths(t, d) && Live(t, i) && i in d && k <= d[i]
    ensures |s| == k + 1 && forall x :: x in s ==> Live(t, x) && x in d && d[x] <= k
    decreases k
  {
    var j := DepthPopulated(t, d, i, k);
    if k == 0 {
      s := {j};
    } else {
      var rest := DepthsDistinct(t, d, i, k - 1);
      s := rest + {j};
      assert j !in rest;
    }
  }

  lemma {:induction false} SmallNumbers(s: set<nat>, n: nat)
    requires forall x :: x in s ==> x < n
    ensures |s| <= n
  {
    if n == 0 {
      assert s == {};
    } else {
      SmallNumbers(s - {n - 1}, n - 1);
    }
  }

  lemma DepthBound(t: Table, d: map<nat, nat>, i: nat)
    requires Shape(t) && Depths(t, d) && Live(t, i)
    ensures i in d && d[i] < MAX_FILES
  {
    Up(t, d, i);
    var s := DepthsDistinct(t, d, i, d[i]);
    SmallNumbers(s, MAX_FILES);
  }

  // ─── one name moves ───

  /** Entry `s` under a new parent and name. */
  function Moved(t: Table, s: nat, p: nat, name: string): Table
    requires s in t
  {
    t[s := t[s].(parent := p, name := name)]
  }

  ghost predicate NameFree(t: Table, p: nat, name: string) { forall i :: Child(t, p, i) ==> t[i].name != name }

  function Shifted(d: map<nat, nat>, x: nat, from: nat, to: nat): nat
    requires x in d
  {
    if d[x] >= from then d[x] - from + to else 0
  }

  ghost function DepthMoved(t: Table, d: map<nat, nat>, s: nat, p: nat, x: nat): nat
    requires Shape(t) && Depths(t, d) && x in d && s in d && p in d
  {
    if Live(t, x) && Under(t, d, s, x) then Shifted(d, x, d[s], d[p] + 1) else d[x]
  }

  lemma MoveStep(t: Table, d: map<nat, nat>, s: nat, p: nat, i: nat)
    requires Shape(t) && Depths(t, d) && Live(t, s) && s != 0 && IsDir(t, p) && !Under(t, d, s, p) && i != 0
    requires Live(t, i)
    requires s in d && p in d
    ensures var q := if i == s then p else t[i].parent;
      i in d && q in d && DepthMoved(t, d, s, p, i) == DepthMoved(t, d, s, p, q) + 1
  {
    Up(t, d, i);
    if i != s && Under(t, d, s, t[i].parent) {
      UnderDeeper(t, d, s, t[i].parent);
    }
  }

  lemma MoveDepths(t: Table, d: map<nat, nat>, s: nat, p: nat, name: string)
    requires Shape(t) && Depths(t, d) && Live(t, s) && s != 0 && IsDir(t, p) && !Under(t, d, s, p)
    ensures Acyclic(Moved(t, s, p, name))
  {
    Up(t, d, s);
    Up(t, d, p);
    var t' := Moved(t, s, p, name);
    var d' := map x | x in d :: DepthMoved(t, d, s, p, x);
    forall i ensures DepthOk(t', d', i) {
      if i != 0 && Live(t', i) {
        MoveStep(t, d, s, p, i);
      }
    }
    Up(t, d, 0);
    assert Depths(t', d');
  }

  lemma MoveOk(t: Table, d: map<nat, nat>, s: nat, p: nat, name: string)
    requires Shape(t) && Depths(t, d) && Live(t, s) && s != 0 && IsDir(t, p) && !Under(t, d, s, p)
    requires forall i :: Child(t, p, i) && i != s ==> t[i].name != name
    ensures TreeOk(Moved(t, s, p, name))
  {
    MoveDepths(t, d, s, p, name);
    var t' := Moved(t, s, p, name);
    forall i ensures ParentOk(t', i) {
      assert ParentOk(t, i);
    }
    forall i, j | Twins(t', i, j) ensures i == j {
      if i != s && j != s {
        assert Twins(t, i, j);
      } else if i != s {
        assert Child(t, p, i);
      } else if j != s {
        assert Child(t, p, j);
      }
    }
  }

  // ─── two names change places ───

  function Exchanged(t: Table, a: nat, b: nat): Table
    requires a in t && b in t
  {
    t[a := t[a].(parent := t[b].parent, name := t[b].name)][b := t[b].(parent := t[a].parent, name := t[a].name)]
  }

  /** Exchanging twice is exchanging not at all. */
  lemma ExchangeTwice(t: Table, a: nat, b: nat)
    requires a in t && b in t && a != b
    ensures Exchanged(Exchanged(t, a, b), a, b) == t
  {
    var t1 := Exchanged(t, a, b);
    assert t1[a] == t[a].(parent := t[b].parent, name := t[b].name) &&
      t1[b] == t[b].(parent := t[a].parent, name := t[a].name);
  }

  ghost function DepthExchanged(t: Table, d: map<nat, nat>, a: nat, b: nat, x: nat): nat
    requires Shape(t) && Depths(t, d) && x in d && a in d && b in d
  {
    if Live(t, x) && Under(t, d, a, x) then Shifted(d, x, d[a], d[b])
    else if Live(t, x) && Under(t, d, b, x) then Shifted(d, x, d[b], d[a])
    else d[x]
  }

  lemma ExchangeStep(t: Table, d: map<nat, nat>, a: nat, b: nat, i: nat)
    requires Shape(t) && Depths(t, d) && Live(t, a) && Live(t, b) && a != 0 && b != 0 && a != b && a in d && b in d
    requires Live(t, t[a].parent) && Live(t, t[b].parent)
    requires !Under(t, d, a, t[b].parent) && !Under(t, d, b, t[a].parent)
    requires i != 0 && Live(t, i)
    ensures var q := Exchanged(t, a, b)[i].parent;
      i in d && q in d && DepthExchanged(t, d, a, b, i) == DepthExchanged(t, d, a, b, q) + 1
  {
    Up(t, d, i);
    Up(t, d, a);
    Up(t, d, b);
    if Under(t, d, a, t[a].parent) { UnderDeeper(t, d, a, t[a].parent); }
    if Under(t, d, b, t[b].parent) { UnderDeeper(t, d, b, t[b].parent); }
    if i != a && i != b {
      if Under(t, d, a, t[i].parent) { UnderDeeper(t, d, a, t[i].parent); }
      if Under(t, d, b, t[i].parent) { UnderDeeper(t, d, b, t[i].parent); }
    }
  }

  lemma ExchangeDepths(t: Table, d: map<nat, nat>, a: nat, b: nat)
    requires Shape(t) && Depths(t, d) && Live(t, a) && Live(t, b) && a != 0 && b != 0 && a != b
    requires Live(t, t[a].parent) && Live(t, t[b].parent)
    requires !Under(t, d, a, t[b].parent) && !Under(t, d, b, t[a].parent)
    ensures Acyclic(Exchanged(t, a, b))
  {
    Up(t, d, a);
    Up(t, d, b);
    var t' := Exchanged(t, a, b);
    var d' := map x | x in d :: DepthExchanged(t, d, a, b, x);
    forall i ensures DepthOk(t', d', i) {
      if i != 0 && Live(t', i) {
        ExchangeStep(t, d, a, b, i);
      }
    }
    Up(t, d, 0);
    assert Depths(t', d');
  }

  function Swap(i: nat, a: nat, b: nat): nat { if i == a then b else if i == b then a else i }

  lemma ExchangeShape(t: Table, a: nat, b: nat)
    requires Shape(t) && Live(t, a) && Live(t, b) && a != 0 && b != 0 && a != b
    ensures Shape(Exchanged(t, a, b))
  {
    var t' := Exchanged(t, a, b);
    forall i ensures ParentOk(t', i) {
      assert ParentOk(t, Swap(i, a, b));
    }
    forall i, j | Twins(t', i, j) ensures i == j {
      assert Twins(t, Swap(i, a, b), Swap(j, a, b));
    }
  }

  lemma ExchangeOk(t: Table, d: map<nat, nat>, a: nat, b: nat)
    requires Shape(t) && Depths(t, d) && Live(t, a) && Live(t, b) && a != 0 && b != 0 && a != b
    requires Live(t, t[a].parent) && Live(t, t[b].parent)
    requires !Under(t, d, a, t[b].parent) && !Under(t, d, b, t[a].parent)
    ensures TreeOk(Exchanged(t, a, b))
  {
    ExchangeShape(t, a, b);
    ExchangeDepths(t, d, a, b);
  }

  // ─── names come and go ───

  lemma CreateOk(t: Table, i: nat, e: Entry)
    requires TreeOk(t) && i !in t && 0 < i < MAX_FILES && !e.gone && IsDir(t, e.parent) && NameFree(t, e.parent, e.name)
    ensures TreeOk(t[i := e])
  {
    var d :| Depths(t, d);
    Up(t, d, e.parent);
    var t', d' := t[i := e], d[i := d[e.parent] + 1];
    forall x ensures ParentOk(t', x) && DepthOk(t', d', x) {
      assert ParentOk(t, x) && DepthOk(t, d, x);
    }
    forall x, y | Twins(t', x, y) ensures x == y {
      if x != i && y != i {
        assert Twins(t, x, y);
      } else if x != i {
        assert Child(t, e.parent, x);
      } else if y != i {
        assert Child(t, e.parent, y);
      }
    }
    assert Depths(t', d');
  }

  /** Unlinked: out of the table at once, or kept without a name while it is open. */
  function Removed(t: Table, i: nat): Table
    requires i in t
  {
    if t[i].open == 0 then t - {i} else t[i := t[i].(gone := true)]
  }

  lemma RemoveOk(t: Table, i: nat)
    requires TreeOk(t) && Live(t, i) && i != 0 && (forall c :: !Child(t, i, c))
    ensures TreeOk(Removed(t, i))
  {
    var d :| Depths(t, d);
    var t' := Removed(t, i);
    forall x ensures ParentOk(t', x) && DepthOk(t', d, x) {
      assert ParentOk(t, x) && DepthOk(t, d, x) && !Child(t, i, x);
    }
    forall x, y | Twins(t', x, y) ensures x == y {
      assert Twins(t, x, y);
    }
    assert Depths(t', d);
  }
}
