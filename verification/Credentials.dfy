/** User ids and capability sets under set*uid, capset and execve; fork copies them, so one line of descent is one run.
    */
module Credentials {
  import opened Basics

  type Caps = set<nat>

  const CAP_SETUID: nat := 5

  /** The id argument that means "leave it". */
  const KEEP: nat := 0xFFFF_FFFF

  datatype Ids = Ids(r: nat, e: nat, s: nat)
  datatype Cred = Cred(ids: Ids, effective: Caps, permitted: Caps)

  datatype Op =
    | SetUid(v: nat)
    | SetReUid(r: nat, e: nat)
    | SetResUid(r: nat, e: nat, s: nat)
    | CapSet(effective: Caps, permitted: Caps)
    | Fork
    | Exec

  predicate IsCurrent(c: Ids, v: nat) { v == c.r || v == c.e || v == c.s }

  predicate HasRoot(c: Ids) { IsCurrent(c, 0) }

  function SetRes(c: Ids, r: nat, e: nat, s: nat, privileged: bool): Option<Ids> {
    if !privileged && ((r != KEEP && !IsCurrent(c, r)) || (e != KEEP && !IsCurrent(c, e)) ||
      (s != KEEP && !IsCurrent(c, s))) then None
    else Some(Ids(if r != KEEP then r else c.r, if e != KEEP then e else c.e, if s != KEEP then s else c.s))
  }

  function SetRe(c: Ids, r: nat, e: nat, privileged: bool): Option<Ids> {
    if !privileged && ((r != KEEP && r != c.r && r != c.e) || (e != KEEP && !IsCurrent(c, e))) then None
    else
      var newE := if e != KEEP then e else c.e;
      Some(Ids(if r != KEEP then r else c.r, newE, if r != KEEP || (e != KEEP && e != c.r) then newE else c.s))
  }

  function SetOne(c: Ids, v: nat, privileged: bool): Option<Ids> {
    if v == KEEP then None
    else if privileged then Some(Ids(v, v, v))
    else if v != c.r && v != c.s then None
    else Some(c.(e := v))
  }

  /** Capabilities follow the user ids. */
  function AfterUids(c: Cred, ids: Ids): Cred {
    if HasRoot(c.ids) && !HasRoot(ids) then Cred(ids, {}, {})
    else if c.ids.e == 0 && ids.e != 0 then Cred(ids, {}, c.permitted)
    else if c.ids.e != 0 && ids.e == 0 then Cred(ids, c.permitted, c.permitted)
    else c.(ids := ids)
  }

  function AfterExec(c: Cred): Cred {
    var ids := c.ids.(s := c.ids.e);
    if c.ids.r == 0 || c.ids.e == 0 then Cred(ids, if c.ids.e == 0 then c.permitted else {}, c.permitted)
    else Cred(ids, {}, {})
  }

  function NewIds(c: Cred, op: Op): Option<Ids> {
    var privileged := CAP_SETUID in c.effective;
    match op
    case SetUid(v) => SetOne(c.ids, v, privileged)
    case SetReUid(r, e) => SetRe(c.ids, r, e, privileged)
    case SetResUid(r, e, s) => SetRes(c.ids, r, e, s, privileged)
    case _ => None
  }

  function Step(c: Cred, op: Op): Cred {
    match op
    case CapSet(effective, permitted) => if permitted <= c.permitted && effective <= permitted
      then Cred(c.ids, effective, permitted) else c
    case Fork => c
    case Exec => AfterExec(c)
    case _ => if NewIds(c, op).Some? then AfterUids(c, NewIds(c, op).value) else c
  }

  function Run(c: Cred, ops: seq<Op>): Cred { if ops == [] then c else Step(Run(c, ops[..|ops| - 1]), ops[|ops| - 1]) }

  // ─── capabilities only shrink ───

  ghost predicate Inv(c: Cred) { c.effective <= c.permitted }

  lemma StepShrinks(c: Cred, op: Op)
    requires Inv(c)
    ensures Inv(Step(c, op)) && Step(c, op).permitted <= c.permitted
    ensures HasRoot(c.ids) && !HasRoot(Step(c, op).ids) ==> Step(c, op).permitted == {}
  {
  }

  /** The effective set stays within the permitted one and the permitted set never grows, in any run. */
  lemma {:induction false} RunShrinks(c: Cred, ops: seq<Op>)
    requires Inv(c)
    ensures Inv(Run(c, ops)) && Run(c, ops).permitted <= c.permitted
  {
    if ops != [] {
      RunShrinks(c, ops[..|ops| - 1]);
      StepShrinks(Run(c, ops[..|ops| - 1]), ops[|ops| - 1]);
    }
  }

  // ─── no way back ───

  ghost predicate Within(ids: Ids, old_: Ids) {
    IsCurrent(old_, ids.r) && IsCurrent(old_, ids.e) && IsCurrent(old_, ids.s)
  }

  lemma StepWithin(c: Cred, op: Op)
    requires CAP_SETUID !in c.effective
    ensures Within(Step(c, op).ids, c.ids)
  {
  }

  /** Without CAP_SETUID in the permitted set no run reaches an id that was not there already. */
  lemma {:induction false} IdsStay(c: Cred, ops: seq<Op>)
    requires Inv(c) && CAP_SETUID !in c.permitted
    ensures Within(Run(c, ops).ids, c.ids)
  {
    if ops != [] {
      var most := ops[..|ops| - 1];
      IdsStay(c, most);
      RunShrinks(c, most);
      StepWithin(Run(c, most), ops[|ops| - 1]);
    }
  }

  lemma RunTwo(c: Cred, x: Op, y: Op)
    ensures Run(c, [x, y]) == Step(Step(c, x), y)
  {
    assert [x, y][..1] == [x] && [x][..0] == [];
    assert Run(c, [x]) == Step(Run(c, []), x);
  }

  /** A process none of whose user ids is 0 can ever be uid 0 again exactly when CAP_SETUID is among its permitted
      capabilities. */
  lemma RootReachableExactly(c: Cred)
    requires Inv(c) && !HasRoot(c.ids)
    ensures (exists ops :: HasRoot(Run(c, ops).ids)) <==> CAP_SETUID in c.permitted
  {
    if CAP_SETUID in c.permitted {
      var raise, become := CapSet(c.permitted, c.permitted), SetUid(0);
      RunTwo(c, raise, become);
      assert HasRoot(Run(c, [raise, become]).ids);
    } else {
      forall ops ensures !HasRoot(Run(c, ops).ids) {
        IdsStay(c, ops);
      }
    }
  }

  /** From a launch with uid 0 throughout: whenever no user id is 0 any more, every capability is gone, and from there
      on no run brings back uid 0 or any capability. */
  lemma {:induction false} DroppedFromRoot(c: Cred, ops: seq<Op>)
    requires Inv(c) && HasRoot(c.ids)
    ensures !HasRoot(Run(c, ops).ids) ==> Run(c, ops).permitted == Run(c, ops).effective == {}
  {
    if ops != [] {
      var most := ops[..|ops| - 1];
      DroppedFromRoot(c, most);
      RunShrinks(c, most);
      StepShrinks(Run(c, most), ops[|ops| - 1]);
    }
  }

  lemma DroppedForGood(c: Cred, ops: seq<Op>, later: seq<Op>)
    requires Inv(c) && HasRoot(c.ids) && !HasRoot(Run(c, ops).ids)
    ensures var d := Run(Run(c, ops), later); !HasRoot(d.ids) && d.permitted == d.effective == {}
  {
    DroppedFromRoot(c, ops);
    RunShrinks(c, ops);
    RunShrinks(Run(c, ops), later);
    IdsStay(Run(c, ops), later);
  }

  /** Dropping root for a while and coming back through the saved id restores ids and permitted set always, and the
      effective set exactly when it was the whole permitted set. */
  lemma TemporaryDropExactly(c: Cred, v: nat)
    requires Inv(c) && c.ids == Ids(0, 0, 0) && CAP_SETUID in c.effective && v != 0 && v != KEEP
    ensures var d := Step(c, SetResUid(KEEP, v, KEEP)); d.effective == {} && d.permitted == c.permitted
    ensures var d := Step(Step(c, SetResUid(KEEP, v, KEEP)), SetResUid(KEEP, 0, KEEP));
      d.ids == c.ids && d.permitted == c.permitted && (d == c <==> c.effective == c.permitted)
  {
  }
}
