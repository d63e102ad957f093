/** memfd seals against everything that can change a file: write, ftruncate, and stores through mappings made by mmap,
    brought in by faults, changed by mprotect and mremap, and copied by fork. */
module MemfdSeals {
  import opened Basics
  import opened TmpfsFile

  datatype Seal = SEAL | SHRINK | GROW | WRITE | FUTURE_WRITE

  /** A page of a mapping: not brought in yet, or an entry of the page table. `ofFile`: its frame is the file's own.
      `cow`: a write fault makes a copy. */
  datatype At = Missing | Page(ofFile: bool, writable: bool, cow: bool)

  /** `mayWrite`: the descriptor the mapping was made from could write. `base` is the first page of the record in the
      region table, `tracked` whether the page still lies in one. */
  datatype Mapping = Mapping(file: nat, filePage: nat, shared: bool, write: bool, mayWrite: bool, base: nat,
                             tracked: bool, at: At)
  datatype File = File(bytes: seq<int>, seals: set<Seal>)
  datatype Place = Place(pid: nat, page: nat)
  datatype World = World(files: map<nat, File>, maps: map<Place, Mapping>)

  datatype Op =
    | Create(f: nat, allowSealing: bool)
    | Write(f: nat, off: nat, data: seq<int>, n: nat)
    | Truncate(f: nat, fdWrites: bool, size: nat)
    | Map(pid: nat, lo: nat, n: nat, f: nat, filePage: nat, shared: bool, write: bool, fdWrites: bool)
    | Protect(pid: nat, lo: nat, hi: nat, write: bool)
    | Unmap(pid: nat, lo: nat, hi: nat)
    | Remap(pid: nat, lo: nat, n: nat, newN: nat)
    | Load(a: Place, hole: bool)
    | Store(a: Place, off: nat, v: int, hole: bool)
    | Fork(parent: nat, child: nat)
    | Exit(pid: nat)
    | AddSeals(f: nat, fdWrites: bool, add: set<Seal>, unknown: bool, counted: nat)

  // ─── the policy ───

  predicate WriteSealed(seals: set<Seal>) { WRITE in seals || FUTURE_WRITE in seals }

  predicate WriteAllowed(seals: set<Seal>, off: nat, count: nat, size: nat) {
    !(WriteSealed(seals) && count > 0) && !(GROW in seals && off + count > size)
  }

  predicate TruncateAllowed(seals: set<Seal>, newSize: nat, size: nat) {
    !(newSize < size && SHRINK in seals) && !(newSize > size && GROW in seals)
  }

  predicate MmapAllowed(seals: set<Seal>, shared: bool, write: bool) { shared && write ==> !WriteSealed(seals) }

  /** mprotect asks the records: a shared one becomes writable only if its descriptor was and its file has no write
      seal. */
  predicate MayBecomeWritable(w: World, p: Mapping) {
    p.tracked && p.shared ==> p.mayWrite && (p.file in w.files ==> !WriteSealed(w.files[p.file].seals))
  }

  predicate InRange(a: Place, pid: nat, lo: nat, hi: nat) { a.pid == pid && lo <= a.page < hi }

  function Places(pid: nat, lo: nat, n: nat): set<Place> { set k: nat | lo <= k < lo + n :: Place(pid, k) }

  /** Page `k` lies in the record of process `pid` that starts at `lo`. */
  predicate InRecord(w: World, pid: nat, lo: nat, k: nat) {
    var a := Place(pid, k);
    a in w.maps && w.maps[a].tracked && w.maps[a].base == lo
  }

  /** mremap grows the front of a file record in place: nothing may be in the way, but pages of the record itself that
      are missing do not count. */
  predicate CanGrow(w: World, pid: nat, lo: nat, n: nat, newN: nat) {
    && 0 < n < newN && (forall k :: lo <= k < lo + n ==> InRecord(w, pid, lo, k))
    && forall k :: lo + n <= k < lo + newN && Place(pid, k) in w.maps ==>
         InRecord(w, pid, lo, k) && w.maps[Place(pid, k)].at == Missing
  }

  /** What the call returns; a negative result means nothing changed. A store returns -14 where it gets a signal. */
  function Code(w: World, op: Op): int {
    match op
    case Create(f, _) => if f in w.files then -28 else 0
    case Write(f, off, data, n) =>
      if f !in w.files || !WriteAllowed(w.files[f].seals, off, |data|, |w.files[f].bytes|) || off >= MAX_FILE_SIZE
        then -1
      else Min(n, Min(|data|, MAX_FILE_SIZE - off))
    case Truncate(f, fdWrites, size) =>
      if f !in w.files || !fdWrites || size > MAX_FILE_SIZE ||
        !TruncateAllowed(w.files[f].seals, size, |w.files[f].bytes|)
      then -22 else 0
    case Map(pid, lo, n, f, _, shared, write, fdWrites) =>
      if f !in w.files then -9
      else if shared && write && !fdWrites then -13
      else if !MmapAllowed(w.files[f].seals, shared, write) then -1
      else if exists a :: a in w.maps && InRange(a, pid, lo, lo + n) then -12
      else 0
    case Protect(pid, lo, hi, write) =>
      if write && exists a :: a in w.maps && InRange(a, pid, lo, hi) && !MayBecomeWritable(w, w.maps[a]) then -13 else 0
    case Unmap(_, _, _) => 0
    case Remap(pid, lo, n, newN) => if CanGrow(w, pid, lo, n, newN) then 0 else -12
    case Load(a, _) => if a in w.maps then 0 else -14
    case Store(a, off, _, hole) => if a in w.maps && off < PAGE_SIZE && TakesStore(w.maps[a], hole) then 0 else -14
    case Fork(parent, child) => if parent == child || exists a :: a in w.maps && a.pid == child then -11 else 0
    case Exit(_) => 0
    case AddSeals(f, fdWrites, add, unknown, counted) =>
      if f !in w.files then -22
      else if !fdWrites then -1
      else if unknown then -22
      else if SEAL in w.files[f].seals then -1
      else if WRITE in add && counted != 0 then -16
      else 0
  }

  // ─── pages ───

  /** The fault that brings a page in. A shared page is the file's frame, and gets one if it must be writable; otherwise
      a hole reads as a page of zeros of the process's own. A private page is the file's frame too, marked for copying
      if the mapping is writable, and not marked if it is not. */
  function Touched(p: Mapping, hole: bool): Mapping {
    if p.at.Page? then p
    else if p.shared then
      p.(at := if p.write then Page(true, true, false) else Page(!hole, false, false))
    else p.(at := if hole then Page(false, p.write, false) else Page(true, false, p.write))
  }

  predicate TakesStore(p: Mapping, hole: bool) {
    var t := Touched(p, hole).at;
    t.writable || t.cow
  }

  /** After a store: a page marked for copying has been copied. */
  function Stored(p: Mapping, hole: bool): Mapping {
    var t := Touched(p, hole);
    if !t.at.writable && t.at.cow then t.(at := Page(false, true, false)) else t
  }

  /** mprotect on an entry: granting write access copies a page marked for copying, and makes any other writable as it
      is. */
  function Reprotected(p: Mapping, write: bool): Mapping {
    var p1 := p.(write := write);
    match p.at
    case Missing => p1
    case Page(ofFile, _, cow) =>
      if !write then p1.(at := Page(ofFile, false, cow)) else p1.(at := Page(ofFile && !cow, true, false))
  }

  /** What both sides of a fork hold: shared records keep their entries, everything else that is writable is marked. */
  function Forked(p: Mapping): Mapping {
    if p.at.Page? && !(p.tracked && p.shared) && p.at.writable then p.(at := Page(p.at.ofFile, false, true)) else p
  }

  /** The record of a page after its record was cut at `lo` and `hi`. */
  function Cut(p: Mapping, k: nat, lo: nat, hi: nat): Mapping {
    var from := if k < lo then 0 else if k < hi then lo else hi;
    if lo < hi && p.base < from then p.(base := from) else p
  }

  function CutIn(p: Mapping, a: Place, pid: nat, lo: nat, hi: nat): Mapping {
    if a.pid == pid then Cut(p, a.page, lo, hi) else p
  }

  // ─── steps ───

  function Step(w: World, op: Op): World {
    if Code(w, op) < 0 && !op.Store? then w
    else
      match op
      case Create(f, allowSealing) => w.(files := w.files[f := File([], if allowSealing then {} else {SEAL})])
      case Write(f, off, data, _) =>
        SetBytes(w, f, FlatWrite(w.files[f].bytes, off, data[..Code(w, op)]))
      case Truncate(f, _, size) => Detached(SetBytes(w, f, FlatTruncate(w.files[f].bytes, size)), f, size)
      case Map(pid, lo, n, f, filePage, shared, write, fdWrites) =>
        w.(maps := w.maps + map a | a in Places(pid, lo, n) ::
             Mapping(f, if a.page >= lo then filePage + a.page - lo else 0, shared, write, fdWrites, lo, true, Missing))
      case Protect(pid, lo, hi, write) =>
        w.(maps := map a | a in w.maps ::
             var p := CutIn(w.maps[a], a, pid, lo, hi);
             if InRange(a, pid, lo, hi) then Reprotected(p, write) else p)
      case Unmap(pid, lo, hi) =>
        w.(maps := map a | a in w.maps && !InRange(a, pid, lo, hi) :: CutIn(w.maps[a], a, pid, lo, hi))
      case Remap(pid, lo, n, newN) => Grown(w, pid, lo, n, newN)
      case Load(a, hole) => w.(maps := w.maps[a := Touched(w.maps[a], hole)])
      case Store(a, off, v, hole) => if a in w.maps && off < PAGE_SIZE then StoreAt(w, a, off, v, hole) else w
      case Fork(parent, child) =>
        w.(maps := map a | a in w.maps.Keys + Children(w, parent, child) ::
             if a in w.maps && a.pid != parent then w.maps[a] else Forked(w.maps[Place(parent, a.page)]))
      case Exit(pid) => w.(maps := map a | a in w.maps && a.pid != pid :: w.maps[a])
      case AddSeals(f, _, add, _, _) => w.(files := w.files[f := w.files[f].(seals := w.files[f].seals + add)])
  }

  function Children(w: World, parent: nat, child: nat): set<Place> {
    set b | b in w.maps && b.pid == parent :: Place(child, b.page)
  }

  function SetBytes(w: World, f: nat, bytes: seq<int>): World
    requires f in w.files
  {
    w.(files := w.files[f := w.files[f].(bytes := bytes)])
  }

  /** The frames of pages that a truncation drops are the file's no longer; mappings keep them. */
  function Detached(w: World, f: nat, size: nat): World {
    w.(maps := map a | a in w.maps ::
         var p := w.maps[a];
         if p.file == f && p.filePage * PAGE_SIZE >= size && p.at.Page? then p.(at := p.at.(ofFile := false)) else p)
  }

  /** The store brings the page in, copies it if it is marked, and reaches the file's byte if the frame is the
      file's. */
  function StoreAt(w: World, a: Place, off: nat, v: int, hole: bool): World
    requires a in w.maps
  {
    var p := Stored(w.maps[a], hole);
    var i := p.filePage * PAGE_SIZE + off;
    var w1 := w.(maps := w.maps[a := p]);
    if p.at.ofFile && p.at.writable && p.file in w.files && i < |w.files[p.file].bytes|
    then SetBytes(w1, p.file, w.files[p.file].bytes[i := v]) else w1
  }

  /** The record is set to `newN` pages, also when it was longer. Pages behind the new end lie in no record any more;
      those that are missing are gone. */
  function Grown(w: World, pid: nat, lo: nat, n: nat, newN: nat): World
    requires CanGrow(w, pid, lo, n, newN)
  {
    assert InRecord(w, pid, lo, lo);
    var first := w.maps[Place(pid, lo)];
    w.(maps :=
         (map a | a in Places(pid, lo, newN) ::
            first.(filePage := first.filePage + if a.page >= lo then a.page - lo else 0, at := Missing)) +
         map a | a in w.maps && !(Behind(w, a, pid, lo, newN) && w.maps[a].at == Missing) ::
           if Behind(w, a, pid, lo, newN) then w.maps[a].(tracked := false) else w.maps[a])
  }

  predicate Behind(w: World, a: Place, pid: nat, lo: nat, newN: nat) {
    a.pid == pid && InRecord(w, pid, lo, a.page) && a.page >= lo + newN
  }

  function Run(w: World, ops: seq<Op>): World {
    if ops == [] then w else Step(Run(w, ops[..|ops| - 1]), ops[|ops| - 1])
  }

  // ─── the invariant ───

  /** A store through this page reaches the file: its entry is writable and its frame the file's, or the fault will make
      it so. */
  predicate Reaches(p: Mapping) {
    if p.at.Missing? then p.shared && p.write else p.at.ofFile && p.at.writable
  }

  /** The page lies in a shared writable record, which F_ADD_SEALS counts. */
  predicate Countable(p: Mapping) { p.tracked && p.shared && p.write }

  /** Some page lets stores through to the file, or may after the next fault. */
  ghost predicate Writer(w: World, f: nat) {
    exists a :: a in w.maps && w.maps[a].file == f && (Reaches(w.maps[a]) || Countable(w.maps[a]))
  }

  predicate Sealed(w: World, f: nat) { f in w.files && WRITE in w.files[f].seals }

  /** What the entries of shared records allow, the records say; and nothing gets through to a write-sealed file. */
  ghost predicate Fine(w: World, p: Mapping) {
    && p.file in w.files && (p.at.Missing? ==> p.tracked) && (p.tracked && p.shared && Reaches(p) ==> p.write)
    && (Sealed(w, p.file) ==> !Reaches(p) && !Countable(p))
  }

  /** Files that are mapped exist, and no store through any page reaches a write-sealed file. */
  ghost predicate Inv(w: World) { forall a :: a in w.maps ==> Fine(w, w.maps[a]) }

  /** A page that mprotect would make a writable page of a write-sealed file: the file's frame without the marker, in no
      shared record, so that nothing is asked. */
  predicate Bare(w: World, p: Mapping) {
    Sealed(w, p.file) && !(p.tracked && p.shared) && p.at.Page? && p.at.ofFile && !p.at.cow
  }

  /** What keeps the invariant: a write seal is added only when nothing reaches the file, and write access is not
      granted on a bare page of a sealed file. */
  ghost predicate Safe(w: World, op: Op) {
    match op
    case AddSeals(f, _, add, _, _) => Code(w, op) == 0 && WRITE in add ==> !Writer(w, f)
    case Protect(pid, lo, hi, write) =>
      Code(w, op) == 0 && write ==> forall a :: a in w.maps && InRange(a, pid, lo, hi) ==> !Bare(w, w.maps[a])
    case _ => true
  }

  // ─── every step ───

  lemma SameFilesFine(w: World, w': World, p: Mapping)
    requires Fine(w, p) && w.files.Keys <= w'.files.Keys
    requires forall f :: Sealed(w', f) ==> Sealed(w, f)
    ensures Fine(w', p)
  {
  }

  lemma SameMaps(w: World, w': World)
    requires Inv(w) && w'.maps == w.maps && w.files.Keys <= w'.files.Keys && forall f :: Sealed(w', f) ==> Sealed(w, f)
    ensures Inv(w')
  {
    forall a | a in w'.maps ensures Fine(w', w'.maps[a]) {
      SameFilesFine(w, w', w.maps[a]);
    }
  }

  /** Pages change one by one, none for the worse. */
  lemma PageByPage(w: World, w': World)
    requires w'.files.Keys == w.files.Keys && forall f :: Sealed(w', f) <==> Sealed(w, f)
    requires forall a :: a in w'.maps ==> Fine(w, w'.maps[a])
    ensures Inv(w')
  {
    forall a | a in w'.maps ensures Fine(w', w'.maps[a]) {
      SameFilesFine(w, w', w'.maps[a]);
    }
  }

  lemma TouchFine(w: World, p: Mapping, hole: bool)
    requires Fine(w, p)
    ensures Fine(w, Touched(p, hole)) && Fine(w, Stored(p, hole))
  {
  }

  lemma ForkedFine(w: World, p: Mapping)
    requires Fine(w, p)
    ensures Fine(w, Forked(p))
  {
  }

  lemma CutFine(w: World, p: Mapping, a: Place, pid: nat, lo: nat, hi: nat)
    requires Fine(w, p)
    ensures Fine(w, CutIn(p, a, pid, lo, hi))
  {
  }

  /** mprotect on one page. */
  lemma ReprotectFine(w: World, p: Mapping, a: Place, pid: nat, lo: nat, hi: nat, write: bool)
    requires Fine(w, p) && (write ==> MayBecomeWritable(w, p))
    ensures Fine(w, Reprotected(CutIn(p, a, pid, lo, hi), write)) <==> !(write && Bare(w, p))
  {
  }

  lemma FilesInv(w: World, op: Op)
    requires Inv(w) && (op.Create? || op.Write? || op.Truncate?)
    ensures Inv(Step(w, op))
  {
    var w' := Step(w, op);
    if op.Truncate? && Code(w, op) == 0 {
      var w1 := SetBytes(w, op.f, FlatTruncate(w.files[op.f].bytes, op.size));
      SameMaps(w, w1);
      PageByPage(w1, w');
    } else {
      SameMaps(w, w');
    }
  }

  lemma MapInv(w: World, op: Op)
    requires Inv(w) && op.Map?
    ensures Inv(Step(w, op))
  {
    var w' := Step(w, op);
    forall a | a in w'.maps ensures Fine(w, w'.maps[a]) {
      if a in Places(op.pid, op.lo, op.n) && Code(w, op) == 0 {
        assert !(Sealed(w, op.f) && op.shared && op.write);
      }
    }
    PageByPage(w, w');
  }

  lemma ProtectInv(w: World, op: Op)
    requires Inv(w) && op.Protect?
    ensures Inv(Step(w, op)) <==> Safe(w, op)
  {
    var w' := Step(w, op);
    if Code(w, op) == 0 {
      forall a | a in w.maps
        ensures a in w'.maps
        ensures Fine(w', w'.maps[a]) <==> !(InRange(a, op.pid, op.lo, op.hi) && op.write && Bare(w, w.maps[a]))
      {
        CutFine(w, w.maps[a], a, op.pid, op.lo, op.hi);
        if InRange(a, op.pid, op.lo, op.hi) {
          assert op.write ==> MayBecomeWritable(w, w.maps[a]);
          ReprotectFine(w, w.maps[a], a, op.pid, op.lo, op.hi, op.write);
        }
      }
    }
  }

  lemma UnmapInv(w: World, op: Op)
    requires Inv(w) && (op.Unmap? || op.Exit?)
    ensures Inv(Step(w, op))
  {
    var w' := Step(w, op);
    forall a | a in w'.maps ensures Fine(w, w'.maps[a]) {
      if op.Unmap? {
        CutFine(w, w.maps[a], a, op.pid, op.lo, op.hi);
      }
    }
    PageByPage(w, w');
  }

  lemma RemapInv(w: World, op: Op)
    requires Inv(w) && op.Remap?
    ensures Inv(Step(w, op))
  {
    if CanGrow(w, op.pid, op.lo, op.n, op.newN) {
      var w' := Step(w, op);
      assert InRecord(w, op.pid, op.lo, op.lo);
      var first := w.maps[Place(op.pid, op.lo)];
      forall a | a in w'.maps ensures Fine(w, w'.maps[a]) {
        if a !in w.maps {
          NewPageFine(w, first, w'.maps[a]);
        }
      }
      PageByPage(w, w');
    }
  }

  /** A page added to a record is missing, and may be written through only if the record's first page may. */
  lemma NewPageFine(w: World, first: Mapping, p: Mapping)
    requires Fine(w, first) && first.tracked && p == first.(filePage := p.filePage, at := Missing)
    ensures Fine(w, p)
  {
  }

  lemma AccessInv(w: World, op: Op)
    requires Inv(w) && (op.Load? || op.Store?)
    ensures Inv(Step(w, op))
  {
    var w' := Step(w, op);
    forall a | a in w'.maps ensures Fine(w, w'.maps[a]) {
      if a == op.a {
        TouchFine(w, w.maps[a], op.hole);
      }
    }
    PageByPage(w, w');
  }

  lemma ForkInv(w: World, op: Op)
    requires Inv(w) && op.Fork?
    ensures Inv(Step(w, op))
  {
    var w' := Step(w, op);
    forall a | a in w'.maps ensures Fine(w, w'.maps[a]) {
      if Code(w, op) == 0 {
        var b := if a in w.maps then a else Place(op.parent, a.page);
        assert b in w.maps;
        ForkedFine(w, w.maps[b]);
      }
    }
    PageByPage(w, w');
  }

  lemma SealsInv(w: World, op: Op)
    requires Inv(w) && op.AddSeals?
    ensures Inv(Step(w, op)) <==> Safe(w, op)
  {
    var w' := Step(w, op);
    if Code(w, op) == 0 {
      forall a | a in w.maps
        ensures Fine(w', w'.maps[a]) <==>
          !(WRITE in op.add && w.maps[a].file == op.f && (Reaches(w.maps[a]) || Countable(w.maps[a])))
      {
        assert Sealed(w', w.maps[a].file) <==> Sealed(w, w.maps[a].file) || (WRITE in op.add && w.maps[a].file == op.f);
      }
    }
  }

  /** Every step keeps the invariant, exactly if it is safe. */
  lemma StepInvExactly(w: World, op: Op)
    requires Inv(w)
    ensures Inv(Step(w, op)) <==> Safe(w, op)
  {
    if op.Protect? {
      ProtectInv(w, op);
    } else if op.AddSeals? {
      SealsInv(w, op);
    } else if op.Map? {
      MapInv(w, op);
    } else if op.Unmap? || op.Exit? {
      UnmapInv(w, op);
    } else if op.Remap? {
      RemapInv(w, op);
    } else if op.Load? || op.Store? {
      AccessInv(w, op);
    } else if op.Fork? {
      ForkInv(w, op);
    } else {
      FilesInv(w, op);
    }
  }

  ghost predicate SafeRun(w: World, ops: seq<Op>) {
    ops == [] || (SafeRun(w, ops[..|ops| - 1]) && Safe(Run(w, ops[..|ops| - 1]), ops[|ops| - 1]))
  }

  lemma {:induction false} RunInv(w: World, ops: seq<Op>)
    requires Inv(w) && SafeRun(w, ops)
    ensures Inv(Run(w, ops))
  {
    if ops != [] {
      RunInv(w, ops[..|ops| - 1]);
      StepInvExactly(Run(w, ops[..|ops| - 1]), ops[|ops| - 1]);
    }
  }

  function Empty(): World { World(map[], map[]) }

  /** From a world without files, without the invariant. */
  lemma FromEmpty(ops: seq<Op>, f: nat)
    requires SafeRun(Empty(), ops)
    ensures Sealed(Run(Empty(), ops), f) ==> !Writer(Run(Empty(), ops), f)
  {
    RunInv(Empty(), ops);
  }

  // ─── what the count does not see ───

  /** The count was taken in the state in which the seals are added. */
  ghost predicate Counted(w: World, op: Op) {
    op.AddSeals? && (op.counted == 0 <==> forall a :: a in w.maps && w.maps[a].file == op.f ==> !Countable(w.maps[a]))
  }

  /** A page that lets stores through and lies in no shared record. */
  ghost predicate Unseen(w: World, f: nat) {
    exists a :: a in w.maps && w.maps[a].file == f && Reaches(w.maps[a]) && !(w.maps[a].tracked && w.maps[a].shared)
  }

  /** With a fresh count, adding a write seal is safe exactly when no page that lets stores through lies in no shared
      record: the others are counted, and the call is refused. */
  lemma FreshCountSafe(w: World, op: Op)
    requires Inv(w) && Counted(w, op) && Code(w, op) == 0 && WRITE in op.add
    ensures Safe(w, op) <==> !Unseen(w, op.f)
  {
    if Writer(w, op.f) {
      var a :| a in w.maps && w.maps[a].file == op.f && (Reaches(w.maps[a]) || Countable(w.maps[a]));
      assert Fine(w, w.maps[a]);
    }
  }

  // ─── what each seal promises ───

  /** How one step can change a file, seal by seal: seals only grow and not at all under SEAL; the size moves only in
      the directions left open; bytes below both sizes change only when WRITE is open. */
  ghost predicate Kept(f: File, f': File) {
    && f.seals <= f'.seals
    && (SEAL in f.seals ==> f'.seals == f.seals)
    && (SHRINK in f.seals ==> |f'.bytes| >= |f.bytes|)
    && (GROW in f.seals ==> |f'.bytes| <= |f.bytes|)
    && (WRITE in f.seals ==> forall i :: 0 <= i < |f.bytes| && i < |f'.bytes| ==> f'.bytes[i] == f.bytes[i])
  }

  lemma StepKeeps(w: World, op: Op, f: nat)
    requires Inv(w) && f in w.files
    ensures f in Step(w, op).files && Kept(w.files[f], Step(w, op).files[f])
  {
    match op
    case Store(a, _, _, hole) =>
      if a in w.maps {
        assert Fine(w, w.maps[a]);
        TouchFine(w, w.maps[a], hole);
      }
    case Write(g, off, data, n) =>
      if Code(w, op) >= 0 && g == f && WRITE in w.files[f].seals {
        assert |data| == 0;
      }
    case _ =>
  }

  /** WRITE, GROW and SHRINK together: the file's bytes and size are those of the moment of sealing in every later state
      of every safe run. */
  lemma {:induction false} SealedForever(w: World, ops: seq<Op>, f: nat)
    requires Inv(w) && SafeRun(w, ops) && f in w.files && {WRITE, GROW, SHRINK} <= w.files[f].seals
    ensures f in Run(w, ops).files && Run(w, ops).files[f].bytes == w.files[f].bytes
    ensures w.files[f].seals <= Run(w, ops).files[f].seals
    ensures SEAL in w.files[f].seals ==> Run(w, ops).files[f].seals == w.files[f].seals
  {
    if ops != [] {
      var most := ops[..|ops| - 1];
      SealedForever(w, most, f);
      RunInv(w, most);
      StepKeeps(Run(w, most), ops[|ops| - 1], f);
    }
  }

  /** The sizes alone need no care: neither mappings nor the count matter to them, in any run. */
  lemma SizeStep(w: World, op: Op, f: nat)
    requires f in w.files
    ensures var w' := Step(w, op);
      && f in w'.files && w.files[f].seals <= w'.files[f].seals
      && (SHRINK in w.files[f].seals ==> |w'.files[f].bytes| >= |w.files[f].bytes|)
      && (GROW in w.files[f].seals ==> |w'.files[f].bytes| <= |w.files[f].bytes|)
  {
  }

  lemma {:induction false} SizeSealed(w: World, ops: seq<Op>, f: nat)
    requires f in w.files
    ensures f in Run(w, ops).files && w.files[f].seals <= Run(w, ops).files[f].seals
    ensures SHRINK in w.files[f].seals ==> |Run(w, ops).files[f].bytes| >= |w.files[f].bytes|
    ensures GROW in w.files[f].seals ==> |Run(w, ops).files[f].bytes| <= |w.files[f].bytes|
  {
    if ops != [] {
      var most := ops[..|ops| - 1];
      SizeSealed(w, most, f);
      SizeStep(Run(w, most), ops[|ops| - 1], f);
    }
  }

  // ─── runs ───

  const ALL_SEALS: set<Seal> := {WRITE, GROW, SHRINK}

  lemma RunSnoc(w: World, ops: seq<Op>, op: Op)
    ensures Run(w, ops + [op]) == Step(Run(w, ops), op)
  {
    assert (ops + [op])[..|ops|] == ops;
  }

  /** A file of `size` zeros. */
  function Made(size: nat): seq<Op> { [Create(1, true)] + [Truncate(1, true, size)] }

  lemma MadeIs(size: nat)
    requires size <= MAX_FILE_SIZE
    ensures Run(Empty(), Made(size)) == World(map[1 := File(FlatTruncate([], size), {})], map[])
  {
    var ops := [Create(1, true)];
    assert ops == [] + ops;
    RunSnoc(Empty(), [], Create(1, true));
    RunSnoc(Empty(), ops, Truncate(1, true, size));
    FreshFile(size);
  }

  lemma FreshFile(size: nat)
    requires size <= MAX_FILE_SIZE
    ensures Step(Empty(), Create(1, true)) == World(map[1 := File([], {})], map[])
    ensures Step(World(map[1 := File([], {})], map[]), Truncate(1, true, size)) ==
      World(map[1 := File(FlatTruncate([], size), {})], map[])
  {
    var w := World(map[1 := File(FlatTruncate([], size), {})], map[]);
    assert Detached(w, 1, size).maps == map[];
  }

  lemma OnePlace(pid: nat, lo: nat)
    ensures Places(pid, lo, 1) == {Place(pid, lo)}
  {
  }

  /** The seal comes first, and nothing is mapped. The file is then mapped private and read-only, read, made writable,
      and written: the store changes the sealed file. */
  lemma PrivatePageChangesSealed()
    ensures var before := Made(1) + [AddSeals(1, true, ALL_SEALS, false, 0)];
      var after := before + [Map(1, 100, 1, 1, 0, false, false, false)] + [Load(Place(1, 100), false)] +
        [Protect(1, 100, 101, true)] + [Store(Place(1, 100), 0, 7, false)];
      && Run(Empty(), before).files == map[1 := File([0], ALL_SEALS)] && Run(Empty(), before).maps == map[]
      && Run(Empty(), after).files == map[1 := File([7], ALL_SEALS)]
  {
    var seal, m, l := AddSeals(1, true, ALL_SEALS, false, 0), Map(1, 100, 1, 1, 0, false, false, false),
      Load(Place(1, 100), false);
    var before := Made(1) + [seal];
    MadeIs(1);
    RunSnoc(Empty(), Made(1), seal);
    assert FlatTruncate([], 1) == [0] && {} + ALL_SEALS == ALL_SEALS;
    var w := World(map[1 := File([0], ALL_SEALS)], map[]);
    assert Run(Empty(), before) == w;
    RunSnoc(Empty(), before, m);
    RunSnoc(Empty(), before + [m], l);
    RunSnoc(Empty(), before + [m] + [l], Protect(1, 100, 101, true));
    RunSnoc(Empty(), before + [m] + [l] + [Protect(1, 100, 101, true)], Store(Place(1, 100), 0, 7, false));
    PrivatePageSteps(w);
  }

  lemma PrivatePageSteps(w: World)
    requires w == World(map[1 := File([0], ALL_SEALS)], map[])
    ensures var w1 := Step(w, Map(1, 100, 1, 1, 0, false, false, false));
      var w2 := Step(w1, Load(Place(1, 100), false));
      var w3 := Step(w2, Protect(1, 100, 101, true));
      Step(w3, Store(Place(1, 100), 0, 7, false)).files == map[1 := File([7], ALL_SEALS)]
  {
    var a := Place(1, 100);
    OnePlace(1, 100);
    var p := Mapping(1, 0, false, false, false, 100, true, Missing);
    assert Step(w, Map(1, 100, 1, 1, 0, false, false, false)).maps == map[a := p];
    var w2 := w.(maps := map[a := p.(at := Page(true, false, false))]);
    assert Step(w.(maps := map[a := p]), Load(a, false)) == w2;
    var w3 := w.(maps := map[a := p.(write := true, at := Page(true, true, false))]);
    assert Step(w2, Protect(1, 100, 101, true)) == w3;
    assert [0][0 := 7] == [7];
  }

  /** Taking the count and adding the seal are two steps in the kernel. A shared writable mapping made between them
      survives the seal, and a store through it changes the sealed file. */
  lemma StaleCountLeavesWriter()
    ensures var m, seal, store := Map(1, 100, 1, 1, 0, true, true, true), AddSeals(1, true, ALL_SEALS, false, 0),
        Store(Place(1, 100), 0, 7, false);
      && Counted(Run(Empty(), Made(1)), seal)
      && Run(Empty(), Made(1) + [m] + [seal]).files == map[1 := File([0], ALL_SEALS)]
      && Run(Empty(), Made(1) + [m] + [seal] + [store]).files == map[1 := File([7], ALL_SEALS)]
  {
    var m, seal, store := Map(1, 100, 1, 1, 0, true, true, true), AddSeals(1, true, ALL_SEALS, false, 0),
      Store(Place(1, 100), 0, 7, false);
    MadeIs(1);
    RunSnoc(Empty(), Made(1), m);
    RunSnoc(Empty(), Made(1) + [m], seal);
    RunSnoc(Empty(), Made(1) + [m] + [seal], store);
    assert FlatTruncate([], 1) == [0];
    StaleSteps(World(map[1 := File([0], {})], map[]));
  }

  lemma StaleSteps(w: World)
    requires w == World(map[1 := File([0], {})], map[])
    ensures var seal := AddSeals(1, true, ALL_SEALS, false, 0);
      var w2 := Step(Step(w, Map(1, 100, 1, 1, 0, true, true, true)), seal);
      && Counted(w, seal) && w2.files == map[1 := File([0], ALL_SEALS)]
      && Step(w2, Store(Place(1, 100), 0, 7, false)).files == map[1 := File([7], ALL_SEALS)]
  {
    OnePlace(1, 100);
    var p := Mapping(1, 0, true, true, true, 100, true, Missing);
    assert Step(w, Map(1, 100, 1, 1, 0, true, true, true)) == w.(maps := map[Place(1, 100) := p]);
    assert {} + ALL_SEALS == ALL_SEALS && [0][0 := 7] == [7];
  }

  const LEFT: Place := Place(1, 103)

  /** Four pages shared and writable; only the last is in use. */
  function FourPages(): map<Place, Mapping> {
    map[Place(1, 100) := Mapping(1, 0, true, true, true, 100, true, Missing),
        Place(1, 101) := Mapping(1, 1, true, true, true, 100, true, Missing),
        Place(1, 102) := Mapping(1, 2, true, true, true, 100, true, Missing),
        LEFT := Mapping(1, 3, true, true, true, 100, true, Page(true, true, false))]
  }

  lemma MapFour(w: World)
    requires w.maps == map[] && 1 in w.files && w.files[1].seals == {}
    ensures Step(Step(w, Map(1, 100, 4, 1, 0, true, true, true)), Load(LEFT, false)) == w.(maps := FourPages())
  {
    var w1 := Step(w, Map(1, 100, 4, 1, 0, true, true, true));
    assert Places(1, 100, 4) == {Place(1, 100), Place(1, 101), Place(1, 102), LEFT};
    assert w1.maps == FourPages()[LEFT := FourPages()[LEFT].(at := Missing)];
    assert Step(w1, Load(LEFT, false)).maps == FourPages();
  }

  function Shrunk(): map<Place, Mapping> {
    map[Place(1, 100) := FourPages()[Place(1, 100)], Place(1, 101) := FourPages()[Place(1, 101)],
        LEFT := FourPages()[LEFT].(tracked := false)]
  }

  lemma FourGrow(w: World)
    requires w.maps == FourPages()
    ensures CanGrow(w, 1, 100, 1, 2)
  {
    assert InRecord(w, 1, 100, 100) && InRecord(w, 1, 100, 101);
  }

  lemma GrowFour(w: World)
    requires w.maps == FourPages() && CanGrow(w, 1, 100, 1, 2)
    ensures Grown(w, 1, 100, 1, 2).maps == Shrunk()
  {
    assert Places(1, 100, 2) == {Place(1, 100), Place(1, 101)};
    forall a | a in w.maps ensures Behind(w, a, 1, 100, 2) <==> a.page >= 102 {
    }
    var m := Grown(w, 1, 100, 1, 2).maps;
    assert m.Keys == {Place(1, 100), Place(1, 101), LEFT};
  }

  /** The first page is grown to two: the record ends there, and the page in use lies in no record. The two are
      unmapped. */
  lemma GrowAndUnmap(w: World)
    requires w.maps == FourPages()
    ensures Step(Step(w, Remap(1, 100, 1, 2)), Unmap(1, 100, 102)) ==
      w.(maps := map[LEFT := FourPages()[LEFT].(tracked := false, base := 102)])
  {
    FourGrow(w);
    GrowFour(w);
    UnmapShrunk(w.(maps := Shrunk()));
  }

  lemma UnmapShrunk(w: World)
    requires w.maps == Shrunk()
    ensures Step(w, Unmap(1, 100, 102)) == w.(maps := map[LEFT := FourPages()[LEFT].(tracked := false, base := 102)])
  {
    var m := Step(w, Unmap(1, 100, 102)).maps;
    assert m.Keys == {LEFT};
  }

  lemma SealAndStore(w: World, bytes: seq<int>)
    requires w.files == map[1 := File(bytes, {})] && |bytes| == 3 * PAGE_SIZE + 1
    requires w.maps == map[LEFT := FourPages()[LEFT].(tracked := false, base := 102)]
    ensures var seal := AddSeals(1, true, ALL_SEALS, false, 0);
      && Counted(w, seal) && Step(w, seal).files == map[1 := File(bytes, ALL_SEALS)]
      && Step(Step(w, seal), Store(LEFT, 0, 7, false)).files == map[1 := File(bytes[3 * PAGE_SIZE := 7], ALL_SEALS)]
  {
    assert {} + ALL_SEALS == ALL_SEALS;
  }

  const BEFORE: seq<Op> := Made(3 * PAGE_SIZE + 1) + [Map(1, 100, 4, 1, 0, true, true, true)] + [Load(LEFT, false)]
  const THEN: seq<Op> := BEFORE + [Remap(1, 100, 1, 2)] + [Unmap(1, 100, 102)]

  /** A page of a shared writable mapping is left behind by mremap. The fresh count misses it, the write seal is
      granted, and a store through it changes the sealed file. */
  lemma LeftPageChangesSealed()
    ensures var zeros, seal := FlatTruncate([], 3 * PAGE_SIZE + 1), AddSeals(1, true, ALL_SEALS, false, 0);
      && Counted(Run(Empty(), THEN), seal)
      && Run(Empty(), THEN + [seal]).files == map[1 := File(zeros, ALL_SEALS)]
      && Run(Empty(), THEN + [seal] + [Store(LEFT, 0, 7, false)]).files ==
           map[1 := File(zeros[3 * PAGE_SIZE := 7], ALL_SEALS)]
  {
    var size := 3 * PAGE_SIZE + 1;
    var zeros, seal := FlatTruncate([], size), AddSeals(1, true, ALL_SEALS, false, 0);
    var made := Made(size);
    MadeIs(size);
    var w := World(map[1 := File(zeros, {})], map[]);
    RunSnoc(Empty(), made, Map(1, 100, 4, 1, 0, true, true, true));
    RunSnoc(Empty(), made + [Map(1, 100, 4, 1, 0, true, true, true)], Load(LEFT, false));
    MapFour(w);
    RunSnoc(Empty(), BEFORE, Remap(1, 100, 1, 2));
    RunSnoc(Empty(), BEFORE + [Remap(1, 100, 1, 2)], Unmap(1, 100, 102));
    GrowAndUnmap(w.(maps := FourPages()));
    RunSnoc(Empty(), THEN, seal);
    RunSnoc(Empty(), THEN + [seal], Store(LEFT, 0, 7, false));
    SealAndStore(w.(maps := map[LEFT := FourPages()[LEFT].(tracked := false, base := 102)]), zeros);
  }
}
