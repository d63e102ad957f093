/** Sockets sent over sockets: when closing every descriptor also empties the pool of sets in flight. */
module RightsRings {
  import opened Basics
  import opened RightsQueue
  import opened RightsFlight
  import L = RightsLedger
  import D = Descriptors

  /** A socket is there exactly as long as a descriptor, in a table or in flight, refers to it. */
  ghost predicate Tied(w: World) { forall i: nat :: i in w.net.socks <==> D.Ref(w.files, D.Socket(i)) > 0 }

  /** Every table entry is closed, no call holds a set, and none waits to be released. */
  ghost predicate AllClosed(w: World) {
    (forall h :: h in w.files.held ==> h.Flight?) && w.hand == multiset{} && !AnyZombie(w.net.pool)
  }

  /** The set in slot `j` holds a copy of the socket on which the set in slot `k` is queued. */
  ghost predicate Carries(w: World, j: nat, k: nat) {
    && j < |w.net.pool| && k < |w.net.pool| && w.net.pool[j].used && w.net.pool[k].used
    && exists id :: id in w.net.pool[j].copies && Refers(w, id, w.net.pool[k].owner)
  }

  ghost predicate Refers(w: World, id: nat, i: nat) {
    D.Flight(id) in w.files.held && w.files.held[D.Flight(id)].obj == D.Socket(i)
  }

  /** Something refers to an object that is counted. */
  lemma HeldBySome(s: D.State, o: D.Object) returns (h: D.Holder)
    requires D.Inv(s) && D.Ref(s, o) > 0
    ensures h in s.held && s.held[h].obj == o
  {
    assert D.Ref(s, o) == |D.Units(s.held, o)|;
    var u :| u in D.Units(s.held, o);
    h :| h in s.held && s.held[h].obj == o && D.UnitOf(h, o) == u;
  }

  /** With every table entry closed, a socket with a set queued is itself in flight. */
  lemma CarriedBySome(w: World, k: nat) returns (j: nat)
    requires L.Inv(w) && Tied(w) && AllClosed(w) && k < |w.net.pool| && w.net.pool[k].used
    ensures Carries(w, j, k)
  {
    var i := w.net.pool[k].owner;
    assert Live(w.net.pool[k]) && SlotOk(w.net.socks, w.net.pool[k]);
    var h := HeldBySome(w.files, D.Socket(i));
    assert L.Flying(w, h.id) > 0;
    L.PooledHas(w.net.pool, h.id);
    j :| 0 <= j < |w.net.pool| && w.net.pool[j].used && h.id in w.net.pool[j].copies;
    assert Refers(w, h.id, i);
  }

  /** No chain of sets, each carrying the socket of the next, comes back to where it started. */
  ghost predicate NoRing(w: World, rank: map<nat, nat>) {
    forall j, k :: Carries(w, j, k) ==> j in rank && k in rank && rank[j] < rank[k]
  }

  lemma {:induction false} NoneUsed(w: World, rank: map<nat, nat>, k: nat)
    requires L.Inv(w) && Tied(w) && AllClosed(w) && NoRing(w, rank) && k < |w.net.pool|
    ensures !w.net.pool[k].used
    decreases if k in rank then rank[k] else 0
  {
    if w.net.pool[k].used {
      var j := CarriedBySome(w, k);
      NoneUsed(w, rank, j);
      assert false;
    }
  }

  /** Closing every descriptor empties the pool exactly when no set in flight leads back to its own socket; then nothing
      is left in flight. */
  lemma PoolEmptiesExactly(w: World)
    requires L.Inv(w) && Tied(w) && AllClosed(w)
    ensures (forall k :: 0 <= k < |w.net.pool| ==> !w.net.pool[k].used) <==> exists rank :: NoRing(w, rank)
    ensures (exists rank :: NoRing(w, rank)) ==> w.files.held == map[] && w.net.socks == map[]
  {
    if forall k :: 0 <= k < |w.net.pool| ==> !w.net.pool[k].used {
      var rank: map<nat, nat> := map[];
      assert NoRing(w, rank);
    }
    if rank :| NoRing(w, rank) {
      forall k: nat | k < |w.net.pool| ensures !w.net.pool[k].used {
        NoneUsed(w, rank, k);
      }
      NothingHeld(w);
    }
  }

  lemma NothingHeld(w: World)
    requires L.Inv(w) && Tied(w) && AllClosed(w) && forall k :: 0 <= k < |w.net.pool| ==> !w.net.pool[k].used
    ensures w.files.held == map[] && w.net.socks == map[]
  {
    forall h | h in w.files.held ensures false {
      assert L.Flying(w, h.id) > 0;
      L.PooledHas(w.net.pool, h.id);
    }
    forall i | i in w.net.socks ensures false {
      var h := HeldBySome(w.files, D.Socket(i));
    }
  }
}
