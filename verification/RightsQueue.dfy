/** Descriptor sets queued on a stream: each rides on the first byte of its message, and a read that asks for control
    data never runs past one it does not deliver. */
module RightsQueue {
  import opened Basics

  /** A slot of the pool of sets in flight; `pos` is the stream position of the set's first byte, `copies` names the
      copies of descriptors it holds. */
  datatype Queued = Queued(used: bool, zombie: bool, owner: nat, pos: nat, copies: seq<nat>)

  predicate Waits(q: Queued, owner: nat, rx: nat) { q.used && !q.zombie && q.owner == owner && q.pos >= rx }

  ghost function Positions(pool: seq<Queued>, owner: nat, rx: nat): set<nat> {
    set i | 0 <= i < |pool| && Waits(pool[i], owner, rx) :: pool[i].pos
  }

  ghost predicate Distinct(pool: seq<Queued>, owner: nat, rx: nat) {
    forall i, j :: 0 <= i < j < |pool| && Waits(pool[i], owner, rx) && Waits(pool[j], owner, rx) ==>
      pool[i].pos != pool[j].pos
  }

  ghost predicate Least(s: set<nat>, rx: nat, first: Option<nat>) {
    match first
    case None => s == {}
    case Some(d) => rx + d in s && forall p :: p in s ==> p >= rx + d
  }

  ghost predicate TwoLeast(s: set<nat>, rx: nat, first: Option<nat>, second: Option<nat>) {
    && Least(s, rx, first)
    && match first
       case None => second == None
       case Some(d) => Least(s - {rx + d}, rx, second)
  }

  /** Distances of the nearest two sets of a socket, and the slot of the nearest. */
  datatype Nearest = Nearest(first: Option<nat>, second: Option<nat>, slot: nat)

  function Scan(pool: seq<Queued>, owner: nat, rx: nat): Nearest {
    if pool == [] then Nearest(None, None, 0)
    else
      var n := Scan(pool[..|pool| - 1], owner, rx);
      var q := pool[|pool| - 1];
      if !Waits(q, owner, rx) then n
      else if n.first.None? || q.pos - rx < n.first.value then Nearest(Some(q.pos - rx), n.first, |pool| - 1)
      else if n.second.None? || q.pos - rx < n.second.value then n.(second := Some(q.pos - rx))
      else n
  }

  /** The pass finds the least two positions, and the slot it names holds the first. */
  lemma {:induction false} ScanIs(pool: seq<Queued>, owner: nat, rx: nat)
    requires Distinct(pool, owner, rx)
    ensures var n := Scan(pool, owner, rx);
      && TwoLeast(Positions(pool, owner, rx), rx, n.first, n.second)
      && (n.first.Some? ==>
            n.slot < |pool| && Waits(pool[n.slot], owner, rx) && pool[n.slot].pos == rx + n.first.value)
  {
    if pool == [] {
      assert Positions(pool, owner, rx) == {};
    } else {
      var most, q := pool[..|pool| - 1], pool[|pool| - 1];
      ScanIs(most, owner, rx);
      PositionsNext(pool, owner, rx, |pool| - 1);
      assert pool[..|pool|] == pool;
      NextNearest(Positions(most, owner, rx), Positions(pool, owner, rx), rx, Scan(most, owner, rx), q, owner);
    }
  }

  lemma NextNearest(s: set<nat>, t: set<nat>, rx: nat, n: Nearest, q: Queued, owner: nat)
    requires TwoLeast(s, rx, n.first, n.second)
    requires if Waits(q, owner, rx) then t == s + {q.pos} && q.pos !in s else t == s
    ensures !Waits(q, owner, rx) ==> TwoLeast(t, rx, n.first, n.second)
    ensures Waits(q, owner, rx) ==>
      var rel := q.pos - rx;
      if n.first.None? || rel < n.first.value then TwoLeast(t, rx, Some(rel), n.first)
      else if n.second.None? || rel < n.second.value then TwoLeast(t, rx, n.first, Some(rel))
      else TwoLeast(t, rx, n.first, n.second)
  {
    if Waits(q, owner, rx) {
      TwoLeastAdd(s, rx, n.first, n.second, q.pos - rx);
    }
  }

  /** One pass over the pool for the nearest two sets of a socket. */
  method NearestTwo(pool: array<Queued>, owner: nat, rx: nat)
    returns (first: Option<nat>, second: Option<nat>, slot: nat)
    requires Distinct(pool[..], owner, rx)
    ensures TwoLeast(Positions(pool[..], owner, rx), rx, first, second)
    ensures first.Some? ==> slot < pool.Length && Waits(pool[slot], owner, rx) && pool[slot].pos == rx + first.value
    ensures var n := Scan(pool[..], owner, rx);
      first == n.first && second == n.second && (first.Some? ==> slot == n.slot)
  {
    first, second, slot := None, None, pool.Length;
    var i := 0;
    assert Positions(pool[..][..0], owner, rx) == {};
    while i < pool.Length
      invariant i <= pool.Length
      invariant TwoLeast(Positions(pool[..][..i], owner, rx), rx, first, second)
      invariant first.Some? ==> slot < i && Waits(pool[slot], owner, rx) && pool[slot].pos == rx + first.value
      invariant var n := Scan(pool[..][..i], owner, rx);
        first == n.first && second == n.second && (first.Some? ==> slot == n.slot)
    {
      assert pool[..][..i + 1][..i] == pool[..][..i];
      var q := pool[i];
      PositionsNext(pool[..], owner, rx, i);
      if Waits(q, owner, rx) {
        var rel := q.pos - rx;
        TwoLeastAdd(Positions(pool[..][..i], owner, rx), rx, first, second, rel);
        if first.None? || rel < first.value {
          second := first;
          first := Some(rel);
          slot := i;
        } else if second.None? || rel < second.value {
          second := Some(rel);
        }
      }
      i := i + 1;
    }
    assert pool[..][..i] == pool[..];
  }

  lemma TwoLeastAdd(s: set<nat>, rx: nat, first: Option<nat>, second: Option<nat>, rel: nat)
    requires TwoLeast(s, rx, first, second) && rx + rel !in s
    ensures if first.None? || rel < first.value then TwoLeast(s + {rx + rel}, rx, Some(rel), first)
            else if second.None? || rel < second.value then TwoLeast(s + {rx + rel}, rx, first, Some(rel))
            else TwoLeast(s + {rx + rel}, rx, first, second)
  {
    var t := s + {rx + rel};
    assert t - {rx + rel} == s;
    if first.Some? && rel >= first.value {
      assert t - {rx + first.value} == (s - {rx + first.value}) + {rx + rel};
    }
  }

  lemma PositionsNext(pool: seq<Queued>, owner: nat, rx: nat, i: nat)
    requires i < |pool| && Distinct(pool, owner, rx)
    ensures var s, t := Positions(pool[..i], owner, rx), Positions(pool[..i + 1], owner, rx);
      if Waits(pool[i], owner, rx) then t == s + {pool[i].pos} && pool[i].pos !in s else t == s
  {
    var s, t := Positions(pool[..i], owner, rx), Positions(pool[..i + 1], owner, rx);
    forall p ensures p in t <==> p in s + (if Waits(pool[i], owner, rx) then {pool[i].pos} else {}) {
      if p in s {
        var k :| 0 <= k < i && Waits(pool[..i][k], owner, rx) && pool[..i][k].pos == p;
        assert pool[..i + 1][k] == pool[k];
      }
      if Waits(pool[i], owner, rx) && p == pool[i].pos {
        assert pool[..i + 1][i] == pool[i];
      }
      if p in t {
        var k :| 0 <= k < i + 1 && Waits(pool[..i + 1][k], owner, rx) && pool[..i + 1][k].pos == p;
        assert k < i ==> pool[..i][k] == pool[k];
      }
    }
  }

  datatype Plan = Plan(cap: nat, deliver: bool)

  function ReadPlan(len: nat, first: Option<nat>, second: Option<nat>, wants: bool): Plan {
    if !wants || first.None? then Plan(len, false)
    else if first.value > 0 then Plan(Min(len, first.value), false)
    else Plan(if second.Some? then Min(len, second.value) else len, true)
  }

  /** A read of `n` bytes under the plan passes no set but the one it delivers, and delivers one exactly when that set
      rides on the first byte of the read; plain bytes in front of a set are returned without it. */
  lemma PlanPassesNothing(s: set<nat>, rx: nat, len: nat, first: Option<nat>, second: Option<nat>, n: nat)
    requires TwoLeast(s, rx, first, second) && n <= ReadPlan(len, first, second, true).cap
    requires forall p :: p in s ==> p >= rx
    ensures ReadPlan(len, first, second, true).deliver <==> rx in s
    ensures forall p :: p in s && p < rx + n ==> p == rx
    ensures ReadPlan(len, first, second, true).cap <= len
  {
    if first == Some(0) {
      forall p | p in s && p != rx ensures p in s - {rx + 0} {
      }
    }
  }

  /** The plan stops early only at a set, so a read for control data takes everything up to the next set it may not
      pass. */
  lemma PlanIsGenerous(s: set<nat>, rx: nat, len: nat, first: Option<nat>, second: Option<nat>)
    requires TwoLeast(s, rx, first, second)
    ensures var cap := ReadPlan(len, first, second, true).cap;
      cap < len ==> rx + cap in s && (cap > 0 || second == Some(0))
  {
  }
}
