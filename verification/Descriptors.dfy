/** Descriptors in tables and in flight, the references they hold, and the pool of shared offsets behind them. */
module Descriptors {
  import opened Basics

  const FIRST: nat := 1
  const POOL_SIZE: nat := 512
  const MAX_FDS: nat := 64
  const O_APPEND: nat := 0x400

  datatype Object =
    | PipeEnd(pipe: nat, write: bool)
    | TmpFile(id: nat)
    | DiskFile(id: nat)
    | Socket(id: nat)

  /** Where a descriptor lives: a table slot, or a set queued on a socket. */
  datatype Holder = Fd(pid: nat, fd: nat) | Flight(id: nat)

  /** `origin` tells separate opens apart; `slot` 0 means a private offset. */
  datatype Desc = Desc(obj: Object, origin: nat, slot: nat, offset: nat, flags: nat, cloexec: bool)
  datatype Slot = Slot(refs: nat, offset: nat, flags: nat)
  datatype State = State(held: map<Holder, Desc>, ref: map<Object, nat>, pool: map<nat, Slot>, opens: nat)

  /** Kinds that count one reference per descriptor; the others count one per table, plus one per copy in flight. */
  predicate PerFd(o: Object) { o.PipeEnd? || o.TmpFile? }

  predicate UsesOffset(o: Object) { o.TmpFile? || o.DiskFile? }

  function Ref(s: State, o: Object): nat { if o in s.ref then s.ref[o] else 0 }

  predicate TableHas(held: map<Holder, Desc>, pid: nat, o: Object) {
    exists h :: h in held && h.Fd? && h.pid == pid && held[h].obj == o
  }

  predicate OtherInTable(held: map<Holder, Desc>, h: Holder) {
    h in held && h.Fd? && exists k :: k in held && k.Fd? && k.pid == h.pid && k != h && held[k].obj == held[h].obj
  }

  // ─── primitive changes ───

  function AddRef(s: State, o: Object): State { s.(ref := s.ref[o := Ref(s, o) + 1]) }

  function DropRef(s: State, o: Object): State { if Ref(s, o) > 0 then s.(ref := s.ref[o := Ref(s, o) - 1]) else s }

  function RetainSlot(s: State, i: nat): State {
    if i in s.pool then s.(pool := s.pool[i := s.pool[i].(refs := s.pool[i].refs + 1)]) else s
  }

  function ReleaseSlot(s: State, i: nat): State {
    if i in s.pool && s.pool[i].refs > 0 then s.(pool := s.pool[i := s.pool[i].(refs := s.pool[i].refs - 1)]) else s
  }

  /** Put a descriptor in a new place; it counts unless its table already holds the object under one reference. */
  function Add(s: State, h: Holder, d: Desc): State {
    var counts := PerFd(d.obj) || h.Flight? || !TableHas(s.held, h.pid, d.obj);
    RetainSlot((if counts then AddRef(s, d.obj) else s).(held := s.held[h := d]), d.slot)
  }

  /** Take a descriptor away: the last one of its table gives the reference back. */
  function Remove(s: State, h: Holder): State
    requires h in s.held
  {
    var d := s.held[h];
    var counts := PerFd(d.obj) || h.Flight? || !OtherInTable(s.held, h);
    ReleaseSlot((if counts then DropRef(s, d.obj) else s).(held := s.held - {h}), d.slot)
  }

  function FirstFree(pool: map<nat, Slot>, i: nat): Option<nat>
    decreases POOL_SIZE + 1 - i
  {
    if i > POOL_SIZE then None
    else if i in pool && pool[i].refs == 0 then Some(i)
    else FirstFree(pool, i + 1)
  }

  /** Before a descriptor is copied its offset moves to the pool, if it has one and the pool has room. */
  function Share(s: State, h: Holder): State
    requires h in s.held
  {
    var d := s.held[h];
    if !UsesOffset(d.obj) || d.slot != 0 then s
    else
      match FirstFree(s.pool, FIRST)
      case None => s
      case Some(i) => s.(pool := s.pool[i := Slot(1, d.offset, d.flags)], held := s.held[h := d.(slot := i)])
  }

  /** A copy of the descriptor at `h` at the new place `k`. */
  function Copy(s: State, h: Holder, k: Holder, cloexec: bool): State
    requires h in s.held
  {
    var s1 := Share(s, h);
    Add(s1, k, s1.held[h].(cloexec := cloexec))
  }

  // ─── calls ───

  datatype Op =
    | Open(h: Holder, obj: Object, flags: nat)
    | Dup(h: Holder, k: Holder, cloexec: bool)
    | Pass(h: Holder, k: Holder)
    | Install(h: Holder, k: Holder, cloexec: bool)
    | Drop(h: Holder)
    | Close(h: Holder)
    | Fork(parent: nat, child: nat)
    | Exit(pid: nat)
    | Seek(h: Holder, offset: nat)
    | Read(h: Holder, size: nat, count: nat)
    | Write(h: Holder, size: nat, n: nat)
    | Pread(h: Holder, size: nat, count: nat, at: nat)
    | Pwrite(h: Holder, n: nat, at: nat)
    | SetFlags(h: Holder, flags: nat)
    | SetCloexec(h: Holder, cloexec: bool)

  predicate Accepts(s: State, op: Op) {
    match op
    case Open(h, obj, _) => h.Fd? && h.fd < MAX_FDS && h !in s.held && (!PerFd(obj) ==> Ref(s, obj) == 0)
    case Dup(h, k, _) => h.Fd? && k.Fd? && k.fd < MAX_FDS && k.pid == h.pid && h in s.held && k !in s.held
    case Pass(h, k) => h.Fd? && k.Flight? && h in s.held && k !in s.held
    case Install(h, k, _) => h.Flight? && k.Fd? && k.fd < MAX_FDS && h in s.held && k !in s.held
    case Drop(h) => h.Flight? && h in s.held
    case Close(h) => h.Fd? && h in s.held
    case Fork(parent, child) => parent != child && forall h :: h in s.held && h.Fd? ==> h.pid != child
    case Exit(_) => true
    case Seek(h, _) => h in s.held
    case Read(h, _, _) => h in s.held && UsesOffset(s.held[h].obj)
    case Write(h, _, _) => h in s.held && UsesOffset(s.held[h].obj)
    case Pread(h, _, _, _) => h in s.held && UsesOffset(s.held[h].obj)
    case Pwrite(h, _, _) => h in s.held && UsesOffset(s.held[h].obj)
    case SetFlags(h, _) => h in s.held
    case SetCloexec(h, _) => h in s.held
  }

  function Step(s: State, op: Op): State {
    if !Accepts(s, op) then s
    else
      match op
      case Open(h, obj, flags) => Add(s, h, Desc(obj, s.opens, 0, 0, flags, false)).(opens := s.opens + 1)
      case Dup(h, k, cloexec) => Copy(s, h, k, cloexec)
      case Pass(h, k) => Copy(s, h, k, false)
      case Install(h, k, cloexec) => Installed(s, h, k, cloexec)
      case Drop(h) => Remove(s, h)
      case Close(h) => Remove(s, h)
      case Fork(parent, child) => ForkUpTo(s, parent, child, MAX_FDS)
      case Exit(pid) => ExitUpTo(s, pid, MAX_FDS)
      case Seek(h, offset) => SetOffset(s, h, offset)
      case Read(h, size, count) => SetOffset(s, h, AfterRead(s, h, size, count))
      case Write(h, size, n) => SetOffset(s, h, AfterWrite(s, h, size, n))
      case Pread(_, _, _, _) => s
      case Pwrite(_, _, _) => s
      case SetFlags(h, flags) => SetStatus(s, h, flags)
      case SetCloexec(h, cloexec) => s.(held := s.held[h := s.held[h].(cloexec := cloexec)])
  }

  /** The copy in flight moves into a table with the reference it holds; if the table already holds the object under one
      reference, the extra one is given back. */
  function Installed(s: State, h: Holder, k: Holder, cloexec: bool): State
    requires h in s.held && k.Fd?
  {
    var d := s.held[h].(cloexec := cloexec);
    var moved := s.(held := (s.held - {h})[k := d]);
    if !PerFd(d.obj) && TableHas(s.held, k.pid, d.obj) then DropRef(moved, d.obj) else moved
  }

  function ForkOne(s: State, h: Holder, k: Holder): State {
    if h in s.held && k !in s.held then Copy(s, h, k, s.held[h].cloexec) else s
  }

  function ForkUpTo(s: State, parent: nat, child: nat, n: nat): State {
    if n == 0 then s else ForkOne(ForkUpTo(s, parent, child, n - 1), Fd(parent, n - 1), Fd(child, n - 1))
  }

  function ExitUpTo(s: State, pid: nat, n: nat): State {
    if n == 0 then s
    else
      var s1 := ExitUpTo(s, pid, n - 1);
      if Fd(pid, n - 1) in s1.held then Remove(s1, Fd(pid, n - 1)) else s1
  }

  function Offset(s: State, h: Holder): nat
    requires h in s.held
  {
    if s.held[h].slot in s.pool then s.pool[s.held[h].slot].offset else s.held[h].offset
  }

  function Status(s: State, h: Holder): nat
    requires h in s.held
  {
    if s.held[h].slot in s.pool then s.pool[s.held[h].slot].flags else s.held[h].flags
  }

  /** Bytes of a file of `size` that a read of `count` at `at` returns. */
  function Readable(at: nat, size: nat, count: nat): nat { if at < size then Min(count, size - at) else 0 }

  predicate Appends(flags: nat) { flags / O_APPEND % 2 == 1 }

  function AfterRead(s: State, h: Holder, size: nat, count: nat): nat
    requires h in s.held
  {
    Offset(s, h) + Readable(Offset(s, h), size, count)
  }

  /** A write starts at the offset, or at the end of the file when it appends. */
  function AfterWrite(s: State, h: Holder, size: nat, n: nat): nat
    requires h in s.held
  {
    (if Appends(Status(s, h)) then size else Offset(s, h)) + n
  }

  function SetOffset(s: State, h: Holder, offset: nat): State
    requires h in s.held
  {
    var i := s.held[h].slot;
    if i in s.pool then s.(pool := s.pool[i := s.pool[i].(offset := offset)])
    else s.(held := s.held[h := s.held[h].(offset := offset)])
  }

  function SetStatus(s: State, h: Holder, flags: nat): State
    requires h in s.held
  {
    var i := s.held[h].slot;
    if i in s.pool then s.(pool := s.pool[i := s.pool[i].(flags := flags)])
    else s.(held := s.held[h := s.held[h].(flags := flags)])
  }

  function Run(s: State, ops: seq<Op>): State {
    if ops == [] then s else Step(Run(s, ops[..|ops| - 1]), ops[|ops| - 1])
  }

  // ─── exact counts ───

  datatype Unit = One(h: Holder) | Table(pid: nat)

  function UnitOf(h: Holder, o: Object): Unit { if PerFd(o) || h.Flight? then One(h) else Table(h.pid) }

  /** What the references of `o` stand for. */
  ghost function Units(held: map<Holder, Desc>, o: Object): set<Unit> {
    set h | h in held && held[h].obj == o :: UnitOf(h, o)
  }

  ghost function Sharers(held: map<Holder, Desc>, i: nat): set<Holder> { set h | h in held && held[h].slot == i }

  ghost predicate CountsOk(s: State) { forall o: Object :: Ref(s, o) == |Units(s.held, o)| }

  ghost predicate PoolOk(s: State) {
    && (forall i :: i in s.pool <==> 1 <= i <= POOL_SIZE)
    && (forall i :: i in s.pool ==> s.pool[i].refs == |Sharers(s.held, i)|)
    && (forall h :: h in s.held && s.held[h].slot != 0 ==> s.held[h].slot in s.pool)
  }

  /** Descriptors that share an offset come from one open. */
  ghost predicate OriginOk(s: State) {
    && (forall h :: h in s.held ==> s.held[h].origin < s.opens && (h.Fd? ==> h.fd < MAX_FDS))
    && (forall h :: h in s.held && s.held[h].slot != 0 ==> UsesOffset(s.held[h].obj))
    && (forall h, k :: h in s.held && k in s.held && s.held[h].slot != 0 && s.held[h].slot == s.held[k].slot ==>
          s.held[h].origin == s.held[k].origin)
  }

  ghost predicate Inv(s: State) { CountsOk(s) && PoolOk(s) && OriginOk(s) }

  lemma UnitsAdd(held: map<Holder, Desc>, h: Holder, d: Desc, o: Object)
    requires h !in held
    ensures Units(held[h := d], o) == Units(held, o) + (if d.obj == o then {UnitOf(h, o)} else {})
  {
    var x, y := Units(held[h := d], o), Units(held, o) + (if d.obj == o then {UnitOf(h, o)} else {});
    forall u ensures u in x <==> u in y {
      if u in Units(held, o) {
        var k :| k in held && held[k].obj == o && UnitOf(k, o) == u;
        assert held[h := d][k] == held[k];
      }
      if d.obj == o && u == UnitOf(h, o) {
        assert held[h := d][h] == d;
      }
    }
  }

  lemma UnitPresent(held: map<Holder, Desc>, h: Holder, o: Object)
    requires h !in held
    ensures UnitOf(h, o) in Units(held, o) <==> !PerFd(o) && h.Fd? && TableHas(held, h.pid, o)
  {
    if !PerFd(o) && h.Fd? && TableHas(held, h.pid, o) {
      var k :| k in held && k.Fd? && k.pid == h.pid && held[k].obj == o;
      assert UnitOf(k, o) == UnitOf(h, o);
    }
  }

  lemma AddCounts(s: State, h: Holder, d: Desc)
    requires CountsOk(s) && h !in s.held
    ensures CountsOk(Add(s, h, d))
  {
    var s' := Add(s, h, d);
    forall o: Object ensures Ref(s', o) == |Units(s'.held, o)| {
      UnitsAdd(s.held, h, d, o);
      UnitPresent(s.held, h, o);
      assert Ref(s, o) == |Units(s.held, o)|;
    }
  }

  lemma UnitsRemove(held: map<Holder, Desc>, h: Holder, o: Object)
    requires h in held
    ensures var gone := held[h].obj == o && (PerFd(o) || h.Flight? || !OtherInTable(held, h));
      Units(held - {h}, o) == Units(held, o) - (if gone then {UnitOf(h, o)} else {}) &&
        (gone ==> UnitOf(h, o) in Units(held, o))
  {
    var gone := held[h].obj == o && (PerFd(o) || h.Flight? || !OtherInTable(held, h));
    var x, y := Units(held - {h}, o), Units(held, o) - (if gone then {UnitOf(h, o)} else {});
    forall u ensures u in x <==> u in y {
      if u in x {
        var k :| k in held - {h} && (held - {h})[k].obj == o && UnitOf(k, o) == u;
        assert k in held && held[k].obj == o;
      }
      if u in y {
        var k :| k in held && held[k].obj == o && UnitOf(k, o) == u;
        if k == h {
          var other :| other in held && other.Fd? && other.pid == h.pid && other != h && held[other].obj == held[h].obj;
          assert (held - {h})[other].obj == o && UnitOf(other, o) == u;
        } else {
          assert (held - {h})[k].obj == o;
        }
      }
    }
  }

  lemma RemoveCounts(s: State, h: Holder)
    requires CountsOk(s) && h in s.held
    ensures CountsOk(Remove(s, h))
  {
    var s' := Remove(s, h);
    forall o: Object ensures Ref(s', o) == |Units(s'.held, o)| {
      UnitsRemove(s.held, h, o);
      assert Ref(s, o) == |Units(s.held, o)|;
    }
  }

  /** Out of flight into a table: one unit fewer if the table already had the object under one reference. */
  lemma UnitsMoved(held: map<Holder, Desc>, h: Holder, k: Holder, d: Desc, o: Object)
    requires h in held && h.Flight? && k.Fd? && k !in held && d.obj == held[h].obj
    ensures |Units((held - {h})[k := d], o)|
         == |Units(held, o)| - (if d.obj == o && !PerFd(o) && TableHas(held, k.pid, o) then 1 else 0)
  {
    var rest := held - {h};
    UnitsRemove(held, h, o);
    UnitsAdd(rest, k, d, o);
    UnitPresent(rest, k, o);
    TableKept(held, h, k.pid, o);
  }

  lemma TableKept(held: map<Holder, Desc>, h: Holder, pid: nat, o: Object)
    requires h in held && h.Flight?
    ensures TableHas(held, pid, o) <==> TableHas(held - {h}, pid, o)
  {
    if TableHas(held, pid, o) {
      var x :| x in held && x.Fd? && x.pid == pid && held[x].obj == o;
      assert x in held - {h} && (held - {h})[x].obj == o;
    }
  }

  lemma InstallCounts(s: State, h: Holder, k: Holder, cloexec: bool)
    requires CountsOk(s) && h in s.held && h.Flight? && k.Fd? && k !in s.held
    ensures CountsOk(Installed(s, h, k, cloexec))
  {
    var s' := Installed(s, h, k, cloexec);
    forall o: Object ensures Ref(s', o) == |Units(s'.held, o)| {
      UnitsMoved(s.held, h, k, s.held[h].(cloexec := cloexec), o);
      assert Ref(s, o) == |Units(s.held, o)|;
    }
  }

  // ─── the pool ───

  lemma SharersAdd(held: map<Holder, Desc>, h: Holder, d: Desc, i: nat)
    requires h !in held
    ensures |Sharers(held[h := d], i)| == |Sharers(held, i)| + (if d.slot == i then 1 else 0)
  {
    assert Sharers(held[h := d], i) == Sharers(held, i) + (if d.slot == i then {h} else {});
    assert h !in Sharers(held, i);
  }

  lemma SharersRemove(held: map<Holder, Desc>, h: Holder, i: nat)
    requires h in held
    ensures |Sharers(held - {h}, i)| == |Sharers(held, i)| - (if held[h].slot == i then 1 else 0)
  {
    assert Sharers(held - {h}, i) == Sharers(held, i) - {h};
    assert h in Sharers(held, i) <==> held[h].slot == i;
  }

  lemma AddPool(s: State, h: Holder, d: Desc)
    requires PoolOk(s) && h !in s.held && (d.slot != 0 ==> d.slot in s.pool)
    ensures PoolOk(Add(s, h, d))
  {
    var s' := Add(s, h, d);
    assert s'.held == s.held[h := d];
    forall i | i in s'.pool ensures s'.pool[i].refs == |Sharers(s'.held, i)| {
      SharersAdd(s.held, h, d, i);
    }
  }

  lemma RemovePool(s: State, h: Holder)
    requires PoolOk(s) && h in s.held
    ensures PoolOk(Remove(s, h))
  {
    var s' := Remove(s, h);
    assert s'.held == s.held - {h};
    forall i | i in s'.pool ensures s'.pool[i].refs == |Sharers(s'.held, i)| {
      SharersRemove(s.held, h, i);
    }
  }

  lemma {:induction false} FirstFreeIs(pool: map<nat, Slot>, i: nat)
    requires i >= 1
    ensures FirstFree(pool, i).Some? ==>
      FirstFree(pool, i).value in pool && FirstFree(pool, i).value >= 1 && pool[FirstFree(pool, i).value].refs == 0
    ensures FirstFree(pool, i).None? ==> forall j :: i <= j <= POOL_SIZE && j in pool ==> pool[j].refs > 0
    decreases POOL_SIZE + 1 - i
  {
    if i <= POOL_SIZE && !(i in pool && pool[i].refs == 0) {
      FirstFreeIs(pool, i + 1);
    }
  }

  /** A slot without references has no sharer. */
  lemma FreeSlotUnused(s: State, i: nat, h: Holder)
    requires PoolOk(s) && i in s.pool && s.pool[i].refs == 0 && h in s.held
    ensures s.held[h].slot != i
  {
    assert Sharers(s.held, i) == {};
    assert s.held[h].slot == i ==> h in Sharers(s.held, i);
  }

  lemma SharePool(s: State, h: Holder)
    requires PoolOk(s) && h in s.held
    ensures PoolOk(Share(s, h))
  {
    FirstFreeIs(s.pool, FIRST);
    var s', d := Share(s, h), s.held[h];
    if s' != s {
      var i := FirstFree(s.pool, FIRST).value;
      forall j | j in s'.pool ensures s'.pool[j].refs == |Sharers(s'.held, j)| {
        if j == i {
          forall k | k in s.held ensures s.held[k].slot != i { FreeSlotUnused(s, i, k); }
          assert Sharers(s'.held, i) == {h};
        } else {
          assert Sharers(s'.held, j) == Sharers(s.held, j);
        }
      }
    }
  }

  lemma ShareInv(s: State, h: Holder)
    requires Inv(s) && h in s.held
    ensures Inv(Share(s, h)) && Share(s, h).held.Keys == s.held.Keys && Share(s, h).opens == s.opens
    ensures Share(s, h).held[h] == s.held[h].(slot := Share(s, h).held[h].slot)
  {
    SharePool(s, h);
    FirstFreeIs(s.pool, FIRST);
    var s' := Share(s, h);
    if s' != s {
      var i := FirstFree(s.pool, FIRST).value;
      forall k | k in s.held ensures s.held[k].slot != i { FreeSlotUnused(s, i, k); }
      ShareCounts(s, h, i);
    }
  }

  lemma ShareCounts(s: State, h: Holder, i: nat)
    requires CountsOk(s) && h in s.held
    ensures CountsOk(s.(held := s.held[h := s.held[h].(slot := i)]))
  {
    var held' := s.held[h := s.held[h].(slot := i)];
    forall o: Object ensures Units(held', o) == Units(s.held, o) {
      SameUnits(s.held, held', o);
    }
  }

  lemma SameUnits(held: map<Holder, Desc>, held': map<Holder, Desc>, o: Object)
    requires held'.Keys == held.Keys && forall h :: h in held ==> held'[h].obj == held[h].obj
    ensures Units(held', o) == Units(held, o)
  {
  }

  lemma CopyInv(s: State, h: Holder, k: Holder, cloexec: bool)
    requires Inv(s) && h in s.held && k !in s.held && (k.Fd? ==> k.fd < MAX_FDS)
    ensures Inv(Copy(s, h, k, cloexec)) && Copy(s, h, k, cloexec).opens == s.opens
    ensures Copy(s, h, k, cloexec).held.Keys == s.held.Keys + {k}
  {
    ShareInv(s, h);
    var s1 := Share(s, h);
    var d := s1.held[h].(cloexec := cloexec);
    AddCounts(s1, k, d);
    AddPool(s1, k, d);
    AddOrigin(s1, h, k, cloexec);
  }

  lemma AddOrigin(s: State, h: Holder, k: Holder, cloexec: bool)
    requires OriginOk(s) && h in s.held && k !in s.held && (k.Fd? ==> k.fd < MAX_FDS)
    ensures var s' := Add(s, k, s.held[h].(cloexec := cloexec));
      OriginOk(s') && s'.opens == s.opens && s'.held.Keys == s.held.Keys + {k}
  {
    var s' := Add(s, k, s.held[h].(cloexec := cloexec));
    assert s'.held == s.held[k := s.held[h].(cloexec := cloexec)];
    forall x, y | x in s'.held && y in s'.held && s'.held[x].slot != 0 && s'.held[x].slot == s'.held[y].slot
      ensures s'.held[x].origin == s'.held[y].origin
    {
      var x0, y0 := if x == k then h else x, if y == k then h else y;
      assert s.held[x0].slot == s.held[y0].slot;
    }
  }

  lemma RemoveInv(s: State, h: Holder)
    requires Inv(s) && h in s.held
    ensures Inv(Remove(s, h)) && Remove(s, h).held == s.held - {h}
  {
    RemoveCounts(s, h);
    RemovePool(s, h);
  }

  lemma OpenInv(s: State, h: Holder, obj: Object, flags: nat)
    requires Inv(s) && Accepts(s, Open(h, obj, flags))
    ensures Inv(Step(s, Open(h, obj, flags)))
  {
    var d := Desc(obj, s.opens, 0, 0, flags, false);
    AddCounts(s, h, d);
    AddPool(s, h, d);
  }

  lemma InstallInv(s: State, h: Holder, k: Holder, cloexec: bool)
    requires Inv(s) && Accepts(s, Install(h, k, cloexec))
    ensures Inv(Installed(s, h, k, cloexec))
  {
    InstallCounts(s, h, k, cloexec);
    InstallPool(s, h, k, cloexec);
    InstallOrigin(s, h, k, cloexec);
  }

  lemma InstallOrigin(s: State, h: Holder, k: Holder, cloexec: bool)
    requires OriginOk(s) && Accepts(s, Install(h, k, cloexec))
    ensures OriginOk(Installed(s, h, k, cloexec))
  {
    var s' := Installed(s, h, k, cloexec);
    assert s'.held == (s.held - {h})[k := s.held[h].(cloexec := cloexec)];
    forall x, y | x in s'.held && y in s'.held && s'.held[x].slot != 0 && s'.held[x].slot == s'.held[y].slot
      ensures s'.held[x].origin == s'.held[y].origin
    {
      var x0, y0 := if x == k then h else x, if y == k then h else y;
      assert s.held[x0].slot == s.held[y0].slot;
    }
  }

  lemma SharersMoved(held: map<Holder, Desc>, h: Holder, k: Holder, d: Desc, i: nat)
    requires h in held && k !in held && d.slot == held[h].slot
    ensures |Sharers((held - {h})[k := d], i)| == |Sharers(held, i)|
  {
    var x, y := Sharers((held - {h})[k := d], i), Sharers(held, i);
    if d.slot == i {
      assert x == (y - {h}) + {k};
      assert h in y && k !in y;
    } else {
      assert x == y;
    }
  }

  lemma InstallPool(s: State, h: Holder, k: Holder, cloexec: bool)
    requires PoolOk(s) && Accepts(s, Install(h, k, cloexec))
    ensures PoolOk(Installed(s, h, k, cloexec))
  {
    var s', d := Installed(s, h, k, cloexec), s.held[h].(cloexec := cloexec);
    assert s'.pool == s.pool && s'.held == (s.held - {h})[k := d];
    forall i | i in s'.pool ensures s'.pool[i].refs == |Sharers(s'.held, i)| {
      SharersMoved(s.held, h, k, d, i);
    }
  }

  lemma {:induction false} ForkInv(s: State, parent: nat, child: nat, n: nat)
    requires Inv(s) && n <= MAX_FDS
    ensures Inv(ForkUpTo(s, parent, child, n))
  {
    if n > 0 {
      ForkInv(s, parent, child, n - 1);
      ForkOneInv(ForkUpTo(s, parent, child, n - 1), Fd(parent, n - 1), Fd(child, n - 1));
    }
  }

  lemma ForkOneInv(s: State, h: Holder, k: Holder)
    requires Inv(s) && k.Fd? && k.fd < MAX_FDS
    ensures Inv(ForkOne(s, h, k))
  {
    if h in s.held && k !in s.held {
      CopyInv(s, h, k, s.held[h].cloexec);
    }
  }

  lemma {:induction false} ExitInv(s: State, pid: nat, n: nat)
    requires Inv(s)
    ensures Inv(ExitUpTo(s, pid, n))
  {
    if n > 0 {
      ExitInv(s, pid, n - 1);
      var s1 := ExitUpTo(s, pid, n - 1);
      if Fd(pid, n - 1) in s1.held {
        RemoveInv(s1, Fd(pid, n - 1));
      }
    }
  }

  /** A change of a descriptor's own fields, or of a slot's contents, holds nothing and gives nothing back. */
  lemma SetInv(s: State, s': State)
    requires Inv(s) && s'.ref == s.ref && s'.opens == s.opens
    requires s'.held.Keys == s.held.Keys && s'.pool.Keys == s.pool.Keys
    requires forall h :: h in s.held ==>
      s'.held[h].obj == s.held[h].obj && s'.held[h].slot == s.held[h].slot && s'.held[h].origin == s.held[h].origin
    requires forall i :: i in s.pool ==> s'.pool[i].refs == s.pool[i].refs
    ensures Inv(s')
  {
    forall o: Object ensures Ref(s', o) == |Units(s'.held, o)| {
      SameUnits(s.held, s'.held, o);
      assert Ref(s, o) == |Units(s.held, o)|;
    }
    forall i | i in s'.pool ensures s'.pool[i].refs == |Sharers(s'.held, i)| {
      assert Sharers(s'.held, i) == Sharers(s.held, i);
    }
  }

  lemma FieldInv(s: State, op: Op)
    requires Inv(s) && Accepts(s, op)
    requires op.Seek? || op.Read? || op.Write? || op.SetFlags? || op.SetCloexec?
    ensures Inv(Step(s, op))
  {
    match op
    case SetFlags(h, flags) => StatusInv(s, h, flags);
    case SetCloexec(h, cloexec) => SetInv(s, Step(s, op));
    case Seek(h, offset) => OffsetInv(s, h, offset);
    case Read(h, size, count) => OffsetInv(s, h, AfterRead(s, h, size, count));
    case Write(h, size, n) => OffsetInv(s, h, AfterWrite(s, h, size, n));
  }

  lemma OffsetInv(s: State, h: Holder, offset: nat)
    requires Inv(s) && h in s.held
    ensures Inv(SetOffset(s, h, offset))
  {
    SetInv(s, SetOffset(s, h, offset));
  }

  lemma StatusInv(s: State, h: Holder, flags: nat)
    requires Inv(s) && h in s.held
    ensures Inv(SetStatus(s, h, flags))
  {
    SetInv(s, SetStatus(s, h, flags));
  }

  lemma StepInv(s: State, op: Op)
    requires Inv(s)
    ensures Inv(Step(s, op))
  {
    if Accepts(s, op) {
      match op
      case Open(h, obj, flags) => OpenInv(s, h, obj, flags);
      case Dup(h, k, cloexec) => CopyInv(s, h, k, cloexec);
      case Pass(h, k) => CopyInv(s, h, k, false);
      case Install(h, k, cloexec) => InstallInv(s, h, k, cloexec);
      case Drop(h) => RemoveInv(s, h);
      case Close(h) => RemoveInv(s, h);
      case Fork(parent, child) => ForkInv(s, parent, child, MAX_FDS);
      case Exit(pid) => ExitInv(s, pid, MAX_FDS);
      case Seek(_, _) => FieldInv(s, op);
      case Read(_, _, _) => FieldInv(s, op);
      case Write(_, _, _) => FieldInv(s, op);
      case Pread(_, _, _, _) =>
      case Pwrite(_, _, _) =>
      case SetFlags(_, _) => FieldInv(s, op);
      case SetCloexec(_, _) => FieldInv(s, op);
    }
  }

  /** In every state of every run: an object's references are its descriptors (for pipe ends and tmpfs files) or the
      tables that hold it (for sockets and disk files), plus its copies in flight; a pool slot's references are its
      sharers. */
  lemma {:induction false} RunInv(s: State, ops: seq<Op>)
    requires Inv(s)
    ensures Inv(Run(s, ops))
  {
    if ops != [] {
      RunInv(s, ops[..|ops| - 1]);
      StepInv(Run(s, ops[..|ops| - 1]), ops[|ops| - 1]);
    }
  }

  ghost predicate Boot(s: State) {
    && s.held == map[] && s.ref == map[] && s.opens == 0
    && (forall i :: i in s.pool <==> 1 <= i <= POOL_SIZE) && forall i :: i in s.pool ==> s.pool[i].refs == 0
  }

  lemma BootInv(s: State)
    requires Boot(s)
    ensures Inv(s)
  {
    forall x: Object ensures Ref(s, x) == |Units(s.held, x)| {
      assert Units(s.held, x) == {};
    }
    forall j | j in s.pool ensures s.pool[j].refs == |Sharers(s.held, j)| {
      assert Sharers(s.held, j) == {};
    }
  }

  /** From boot, without the invariant. */
  lemma FromBoot(s: State, ops: seq<Op>, o: Object, i: nat)
    requires Boot(s)
    ensures var q := Run(s, ops);
      && Ref(q, o) == |Units(q.held, o)|
      && (1 <= i <= POOL_SIZE ==> i in q.pool && q.pool[i].refs == |Sharers(q.held, i)|)
  {
    BootInv(s);
    RunInv(s, ops);
  }
}
