/** Trees given by a parent map: `up` maps every node to its parent and the root to itself. */
module ParentTree {
  /** Distances to the root; having them is being a tree. */
  ghost predicate Depths(up: map<nat, nat>, root: nat, d: map<nat, nat>) {
    && root in up && up[root] == root && d.Keys == up.Keys && d[root] == 0
    && forall x :: x in up && x != root ==> Below(up, d, x)
  }

  ghost predicate Below(up: map<nat, nat>, d: map<nat, nat>, x: nat) {
    x in up && x in d && up[x] in up && up[x] in d && d[x] == d[up[x]] + 1
  }

  ghost predicate Tree(up: map<nat, nat>, root: nat) { exists d :: Depths(up, root, d) }

  /** `x` is `a` or below it. */
  ghost predicate Under(up: map<nat, nat>, root: nat, d: map<nat, nat>, a: nat, x: nat)
    requires Depths(up, root, d) && x in up
    decreases d[x]
  {
    x == a || (x != root && assert Below(up, d, x); Under(up, root, d, a, up[x]))
  }

  function Climb(up: map<nat, nat>, x: nat, n: nat): nat
    decreases n
  {
    if n == 0 || x !in up then x else Climb(up, up[x], n - 1)
  }

  /** Following parents from any node reaches the root, in as many steps as the node is deep. */
  lemma {:induction false} ClimbReaches(up: map<nat, nat>, root: nat, d: map<nat, nat>, x: nat)
    requires Depths(up, root, d) && x in up
    ensures Climb(up, x, d[x]) == root
    decreases d[x]
  {
    if x != root {
      assert Below(up, d, x);
      ClimbReaches(up, root, d, up[x]);
    }
  }

  lemma {:induction false} UnderDeeper(up: map<nat, nat>, root: nat, d: map<nat, nat>, a: nat, x: nat)
    requires Depths(up, root, d) && x in up && a in up && Under(up, root, d, a, x)
    ensures d[a] <= d[x] && (d[a] == d[x] ==> a == x)
    decreases d[x]
  {
    if x != a {
      assert Below(up, d, x);
      UnderDeeper(up, root, d, a, up[x]);
    }
  }

  /** A node is not above its own parent. */
  lemma ParentNotUnder(up: map<nat, nat>, root: nat, d: map<nat, nat>, a: nat)
    requires Depths(up, root, d) && a in up && a != root
    ensures up[a] in up && !Under(up, root, d, a, up[a])
  {
    assert Below(up, d, a);
    if Under(up, root, d, a, up[a]) {
      UnderDeeper(up, root, d, a, up[a]);
    }
  }

  // ─── moving ───

  ghost function MovedDepth(up: map<nat, nat>, root: nat, d: map<nat, nat>, s: nat, p: nat, x: nat): int
    requires Depths(up, root, d) && s in up && p in up && x in up
  {
    if Under(up, root, d, s, x) then (d[x] as int) + d[p] + 1 - d[s] else d[x]
  }

  lemma MoveStep(up: map<nat, nat>, root: nat, d: map<nat, nat>, s: nat, p: nat, x: nat)
    requires Depths(up, root, d) && s in up && s != root && p in up && !Under(up, root, d, s, p) && x in up && x != root
    ensures var q := up[s := p][x];
      q in up && MovedDepth(up, root, d, s, p, x) == MovedDepth(up, root, d, s, p, q) + 1 &&
        MovedDepth(up, root, d, s, p, x) >= 0
  {
    assert Below(up, d, x);
    if Under(up, root, d, s, x) {
      UnderDeeper(up, root, d, s, x);
    }
  }

  /** New distances after `s` moved under `p`. */
  ghost function MovedDepths(up: map<nat, nat>, root: nat, d: map<nat, nat>, s: nat, p: nat): (d': map<nat, nat>)
    requires Depths(up, root, d) && s in up && s != root && p in up && !Under(up, root, d, s, p)
  {
    map x | x in up :: var n := MovedDepth(up, root, d, s, p, x); if x == root || n < 0 then 0 else n
  }

  lemma MovedAt(up: map<nat, nat>, root: nat, d: map<nat, nat>, s: nat, p: nat, x: nat)
    requires Depths(up, root, d) && s in up && s != root && p in up && !Under(up, root, d, s, p) && x in up
    ensures MovedDepths(up, root, d, s, p)[x] == MovedDepth(up, root, d, s, p, x)
  {
    if x == root {
      assert !Under(up, root, d, s, root);
    } else {
      MoveStep(up, root, d, s, p, x);
    }
  }

  /** Moving a node to a place that is not below it keeps the tree. */
  lemma MoveOk(up: map<nat, nat>, root: nat, d: map<nat, nat>, s: nat, p: nat)
    requires Depths(up, root, d) && s in up && s != root && p in up && !Under(up, root, d, s, p)
    ensures Depths(up[s := p], root, MovedDepths(up, root, d, s, p))
  {
    var up', d' := up[s := p], MovedDepths(up, root, d, s, p);
    forall x | x in up' && x != root ensures Below(up', d', x) {
      MoveStep(up, root, d, s, p, x);
      MovedAt(up, root, d, s, p, x);
      MovedAt(up, root, d, s, p, up'[x]);
    }
  }

  /** What is not below the moved node is below the same nodes as before, at the same distance. */
  lemma {:induction false} MoveOutside(up: map<nat, nat>, root: nat, d: map<nat, nat>, s: nat, p: nat,
                                       d': map<nat, nat>, a: nat, x: nat)
    requires Depths(up, root, d) && s in up && s != root && p in up && Depths(up[s := p], root, d')
    requires x in up && !Under(up, root, d, s, x)
    ensures (Under(up[s := p], root, d', a, x) <==> Under(up, root, d, a, x)) && d'[x] == d[x]
    decreases d[x]
  {
    if x != root {
      assert Below(up, d, x) && Below(up[s := p], d', x);
      MoveOutside(up, root, d, s, p, d', a, up[x]);
    }
  }

  // ─── adding and removing ───

  lemma AddOk(up: map<nat, nat>, root: nat, d: map<nat, nat>, i: nat, p: nat)
    requires Depths(up, root, d) && i !in up && p in up
    ensures Depths(up[i := p], root, d[i := d[p] + 1])
  {
    var up', d' := up[i := p], d[i := d[p] + 1];
    forall x | x in up' && x != root ensures Below(up', d', x) {
      assert x != i ==> Below(up, d, x);
    }
  }

  lemma RemoveOk(up: map<nat, nat>, root: nat, d: map<nat, nat>, i: nat)
    requires Depths(up, root, d) && i in up && i != root && forall x :: x in up ==> up[x] != i
    ensures Depths(up - {i}, root, d - {i})
  {
    forall x | x in up - {i} && x != root ensures Below(up - {i}, d - {i}, x) {
      assert Below(up, d, x);
    }
  }

  /** Removing a leaf leaves the rest where it was. */
  lemma {:induction false} RemoveOutside(up: map<nat, nat>, root: nat, d: map<nat, nat>, i: nat, a: nat, x: nat)
    requires Depths(up, root, d) && i in up && i != root && (forall y :: y in up ==> up[y] != i)
    requires Depths(up - {i}, root, d - {i})
    requires x in up && x != i
    ensures Under(up - {i}, root, d - {i}, a, x) <==> Under(up, root, d, a, x)
    decreases d[x]
  {
    if x != root {
      assert Below(up, d, x);
      RemoveOutside(up, root, d, i, a, up[x]);
    }
  }

  // ─── the climb of the kernel ───

  /** The ancestors of `x`, nearest first, at most `fuel` of them. */
  function Chain(up: map<nat, nat>, root: nat, x: nat, fuel: nat): (c: seq<nat>)
    ensures |c| <= fuel
    decreases fuel
  {
    if fuel == 0 then []
    else if x == root || x !in up || up[x] == x then [x]
    else [x] + Chain(up, root, up[x], fuel - 1)
  }

  /** The bounded chain ends at the root exactly when it is long enough, and then it holds exactly the ancestors. */
  lemma {:induction false} ChainExact(up: map<nat, nat>, root: nat, d: map<nat, nat>, x: nat, fuel: nat, a: nat)
    requires Depths(up, root, d) && x in up && fuel > 0
    ensures var c := Chain(up, root, x, fuel);
      c != [] && (c[|c| - 1] == root <==> d[x] < fuel) && (d[x] >= fuel ==> |c| == fuel)
      && (d[x] < fuel ==> (a in c <==> Under(up, root, d, a, x)))
    decreases d[x]
  {
    if x == root {
    } else {
      assert Below(up, d, x);
      if fuel > 1 {
        ChainExact(up, root, d, up[x], fuel - 1, a);
      }
    }
  }

  /** The other form of the climb: `a` is met within `fuel` steps, or the climb is given up. */
  predicate OnChain(up: map<nat, nat>, root: nat, a: nat, x: nat, fuel: nat)
    decreases fuel
  {
    if fuel == 0 then true
    else if x == a then true
    else if x == root then false
    else if x !in up then true
    else if up[x] == x then false
    else OnChain(up, root, a, up[x], fuel - 1)
  }

  lemma {:induction false} OnChainExact(up: map<nat, nat>, root: nat, d: map<nat, nat>, a: nat, x: nat, fuel: nat)
    requires Depths(up, root, d) && x in up
    ensures OnChain(up, root, a, x, fuel) <==> Under(up, root, d, a, x) || d[x] >= fuel
    decreases d[x]
  {
    if x == root {
    } else if fuel > 0 {
      assert Below(up, d, x);
      OnChainExact(up, root, d, a, up[x], fuel - 1);
    }
  }
}
