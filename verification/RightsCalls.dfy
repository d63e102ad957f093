/** sendmsg, recvmsg and the release of sets as calls of threads: whose hands a copy is in, and whether a call can
    return with a copy still in its hands. */
module RightsCalls {
  import opened Basics
  import opened RightsQueue
  import opened RightsFlight
  import L = RightsLedger
  import D = Descriptors

  /** What a thread is doing, and the copies only it knows of. */
  datatype Call =
    | Idle
    | Sending(i: nat, fds: seq<D.Holder>, copies: seq<nat>)
    | Dropping(copies: seq<nat>)
    | Receiving(i: nat, copies: seq<nat>, extra: seq<nat>)
    | Handing(copies: seq<nat>, room: nat)
    | Reaping(copies: seq<nat>)

  /** `lost`: copies that calls returned with. */
  datatype Kernel = Kernel(w: World, calls: seq<Call>, lost: seq<nat>)

  /** `t` is the thread. The rest are steps that hand no copy over. */
  datatype Act =
    | Sendmsg(t: nat, i: nat, fds: seq<D.Holder>)
    | GatherNext(t: nat)
    | SendOff(t: nat, len: nat)
    | DropNext(t: nat)
    | Recvmsg(t: nat, i: nat, len: nat)
    | WaitAll(t: nat, len: nat)
    | DropExtra(t: nat)
    | Options(t: nat, wantsControl: bool, room: nat)
    | HandNext(t: nat, k: D.Holder, cloexec: bool)
    | Reap(t: nat)
    | ReapNext(t: nat)
    | Plain(op: Op)

  function Copies(c: Call): seq<nat> {
    match c
    case Idle => []
    case Sending(_, _, copies) => copies
    case Dropping(copies) => copies
    case Receiving(_, copies, extra) => copies + extra
    case Handing(copies, _) => copies
    case Reaping(copies) => copies
  }

  /** The set a receive on `i` hands over. */
  function Given(net: Net, i: nat, len: nat): seq<nat> {
    if i in net.socks && net.socks[i].count > 0 then
      var r := ReadingOf(net, i, len, true);
      if r.deliver && r.slot < |net.pool| then net.pool[r.slot].copies else []
    else []
  }

  predicate PlainOp(op: Op) { op.Socket? || op.Close? || (op.Recv? && !op.wants) || op.Files? }

  function Next(k: Kernel, t: nat, w: World, c: Call): Kernel
    requires t < |k.calls|
  {
    k.(w := w, calls := k.calls[t := c])
  }

  function Step(k: Kernel, a: Act): Kernel {
    if a.Plain? then (if PlainOp(a.op) then k.(w := RightsFlight.Step(k.w, a.op)) else k)
    else if a.t >= |k.calls| then k
    else CallStep(k, a.t, k.calls[a.t], a)
  }

  /** One step of the call `c` of thread `t`. */
  function CallStep(k: Kernel, t: nat, c: Call, a: Act): Kernel
    requires t < |k.calls|
  {
    match c
    case Idle => Started(k, t, a)
    case Sending(i, fds, copies) =>
      if a.GatherNext? && fds != [] then Gathered(k, t, i, fds, copies)
      else if a.SendOff? && fds == [] then Sent(k, t, i, copies, a.len)
      else k
    case Dropping(copies) => if a.DropNext? then Dropped(k, t, copies) else k
    case Receiving(i, copies, extra) =>
      if a.WaitAll? && extra == [] && i in k.w.net.socks then More(k, t, i, copies, a.len)
      else if a.DropExtra? && extra != [] then Released(k, t, extra[0], Receiving(i, copies, extra[1..]))
      else if a.Options? && extra == [] then Looked(k, t, i, copies, a.wantsControl, a.room)
      else k
    case Handing(copies, room) => if a.HandNext? then Handed(k, t, copies, room, a.k, a.cloexec) else k
    case Reaping(copies) => if a.ReapNext? then Reaped(k, t, copies) else k
  }

  function Started(k: Kernel, t: nat, a: Act): Kernel
    requires t < |k.calls|
  {
    if a.Sendmsg? then Next(k, t, k.w, Sending(a.i, a.fds, []))
    else if a.Recvmsg? && a.i in k.w.net.socks && k.w.net.socks[a.i].count > 0 then
      Taken(k, t, a.i, a.len, Receiving(a.i, Given(k.w.net, a.i, a.len), []))
    else if a.Reap? && k.w.net.flag then Next(k, t, RightsFlight.Step(k.w, ReapEnter), Reaping([]))
    else k
  }

  /** The next descriptor is copied, or is none that can be, and the copies made are given back. */
  function Gathered(k: Kernel, t: nat, i: nat, fds: seq<D.Holder>, copies: seq<nat>): Kernel
    requires t < |k.calls| && fds != []
  {
    if fds[0].Fd? && fds[0] in k.w.files.held then
      Next(k, t, RightsFlight.Step(k.w, Gather(fds[0])), Sending(i, fds[1..], copies + [k.w.sent]))
    else Next(k, t, k.w, Dropping(copies))
  }

  /** The set is queued with its bytes, or stays with the call, which gives it back. */
  function Sent(k: Kernel, t: nat, i: nat, copies: seq<nat>, len: nat): Kernel
    requires t < |k.calls|
  {
    if !(copies != [] && len == 0) && Queues(k.w.net, i, len, copies) then
      Next(k, t, RightsFlight.Step(k.w, Send(i, len, copies)), Dropping([]))
    else Next(k, t, k.w, Dropping(copies))
  }

  function Released(k: Kernel, t: nat, id: nat, c: Call): Kernel
    requires t < |k.calls|
  {
    Next(k, t, RightsFlight.Step(k.w, Release(id)), c)
  }

  function Dropped(k: Kernel, t: nat, copies: seq<nat>): Kernel
    requires t < |k.calls|
  {
    if copies == [] then Next(k, t, k.w, Idle) else Released(k, t, copies[0], Dropping(copies[1..]))
  }

  /** A receive that asks for the set on its first byte. */
  function Taken(k: Kernel, t: nat, i: nat, len: nat, c: Call): Kernel
    requires t < |k.calls|
  {
    Next(k, t, RightsFlight.Step(k.w, Recv(i, len, true)), c)
  }

  /** A further receive of the same call: a second set cannot be handed over and will be given back. */
  function More(k: Kernel, t: nat, i: nat, copies: seq<nat>, len: nat): Kernel
    requires t < |k.calls|
  {
    var given := Given(k.w.net, i, len);
    Taken(k, t, i, len, if copies == [] then Receiving(i, given, []) else Receiving(i, copies, given))
  }

  /** The options of the socket are read; if it is gone the call returns at once. */
  function Looked(k: Kernel, t: nat, i: nat, copies: seq<nat>, wantsControl: bool, room: nat): Kernel
    requires t < |k.calls|
  {
    if i !in k.w.net.socks then Next(k, t, k.w, Idle).(lost := k.lost + copies)
    else Next(k, t, k.w, if wantsControl then Handing(copies, room) else Dropping(copies))
  }

  function Handed(k: Kernel, t: nat, copies: seq<nat>, room: nat, h: D.Holder, cloexec: bool): Kernel
    requires t < |k.calls|
  {
    if copies == [] then Next(k, t, k.w, Idle)
    else if room > 0 && D.Accepts(k.w.files, D.Install(D.Flight(copies[0]), h, cloexec)) then
      Next(k, t, RightsFlight.Step(k.w, Install(copies[0], h, cloexec)), Handing(copies[1..], room - 1))
    else Released(k, t, copies[0], Handing(copies[1..], room))
  }

  function Reaped(k: Kernel, t: nat, copies: seq<nat>): Kernel
    requires t < |k.calls|
  {
    if copies != [] then Released(k, t, copies[0], Reaping(copies[1..]))
    else
      match ZombieSlot(k.w.net.pool)
      case None => Next(k, t, RightsFlight.Step(k.w, ReapTake), Idle)
      case Some(j) =>
        if j < |k.w.net.pool| then Next(k, t, RightsFlight.Step(k.w, ReapTake), Reaping(k.w.net.pool[j].copies)) else k
  }

  function Run(k: Kernel, acts: seq<Act>): Kernel {
    if acts == [] then k else Step(Run(k, acts[..|acts| - 1]), acts[|acts| - 1])
  }

  // ─── whose hands ───

  function Hold(c: Call, id: nat): nat { multiset(Copies(c))[id] }

  /** How often copy `id` is in the hands of a call in progress. */
  function Hands(calls: seq<Call>, id: nat): nat {
    if calls == [] then 0 else Hands(calls[..|calls| - 1], id) + Hold(calls[|calls| - 1], id)
  }

  lemma {:induction false} HandsPut(calls: seq<Call>, t: nat, c: Call, id: nat)
    requires t < |calls|
    ensures Hands(calls[t := c], id) + Hold(calls[t], id) == Hands(calls, id) + Hold(c, id)
    decreases |calls|
  {
    var n: nat := |calls| - 1;
    var calls', most := calls[t := c], calls[..n];
    assert Hands(calls, id) == Hands(most, id) + Hold(calls[n], id);
    assert Hands(calls', id) == Hands(calls'[..n], id) + Hold(calls'[n], id);
    if t < n {
      HandsPut(most, t, c, id);
      assert calls'[..n] == most[t := c];
    } else {
      assert calls'[..n] == most;
    }
  }

  function Seeking(c: Call): nat { if c.Reaping? then 1 else 0 }

  function Seekers(calls: seq<Call>): nat {
    if calls == [] then 0 else Seekers(calls[..|calls| - 1]) + Seeking(calls[|calls| - 1])
  }

  lemma {:induction false} SeekersPut(calls: seq<Call>, t: nat, c: Call)
    requires t < |calls|
    ensures Seekers(calls[t := c]) + Seeking(calls[t]) == Seekers(calls) + Seeking(c)
  {
    var calls' := calls[t := c];
    var most, most' := calls[..|calls| - 1], calls'[..|calls| - 1];
    if t < |calls| - 1 {
      SeekersPut(most, t, c);
      assert most' == most[t := c];
    } else {
      assert most' == most;
    }
  }

  /** What the machine has in hands is what calls in progress hold and what calls returned with. */
  ghost predicate HandsOk(k: Kernel) {
    forall id: nat :: k.w.hand[id] == Hands(k.calls, id) + multiset(k.lost)[id]
  }

  ghost predicate Inv(k: Kernel) { L.Inv(k.w) && HandsOk(k) && k.w.net.reapers == Seekers(k.calls) }

  /** The next state is right when the hands of the machine changed by what the call gained and lost. */
  lemma NextInv(k: Kernel, t: nat, w: World, c: Call)
    requires Inv(k) && t < |k.calls| && L.Inv(w)
    requires forall id: nat :: w.hand[id] + Hold(k.calls[t], id) == k.w.hand[id] + Hold(c, id)
    requires w.net.reapers + Seeking(k.calls[t]) == k.w.net.reapers + Seeking(c)
    ensures Inv(Next(k, t, w, c))
  {
    SeekersPut(k.calls, t, c);
    forall id: nat ensures w.hand[id] == Hands(k.calls[t := c], id) + multiset(k.lost)[id] {
      HandsPut(k.calls, t, c, id);
    }
  }

  lemma InHand(k: Kernel, t: nat)
    requires Inv(k) && t < |k.calls|
    ensures multiset(Copies(k.calls[t])) <= k.w.hand
  {
    forall id: nat ensures multiset(Copies(k.calls[t]))[id] <= k.w.hand[id] {
      HandsPut(k.calls, t, Idle, id);
    }
  }

  lemma Head(s: seq<nat>)
    requires s != []
    ensures multiset(s) == multiset{s[0]} + multiset(s[1..])
  {
    assert s == [s[0]] + s[1..];
  }

  // ─── the steps ───

  /** `w` is `k`'s machine after a step that keeps its books and moves `lost` out of and `got` into the hands. */
  ghost predicate Moves(k: Kernel, w: World, out: multiset<nat>, got: multiset<nat>) {
    L.Inv(w) && w.net.reapers == k.w.net.reapers && w.hand + out == k.w.hand + got
  }

  lemma MovedInv(k: Kernel, t: nat, w: World, c: Call, out: multiset<nat>, got: multiset<nat>)
    requires Inv(k) && t < |k.calls| && Moves(k, w, out, got) && Seeking(c) == Seeking(k.calls[t])
    requires multiset(Copies(k.calls[t])) + got == multiset(Copies(c)) + out
    ensures Inv(Next(k, t, w, c))
  {
    forall id: nat ensures w.hand[id] + Hold(k.calls[t], id) == k.w.hand[id] + Hold(c, id) {
      assert (w.hand + out)[id] == (k.w.hand + got)[id];
      assert (multiset(Copies(k.calls[t])) + got)[id] == (multiset(Copies(c)) + out)[id];
    }
    NextInv(k, t, w, c);
  }

  lemma GatherMoves(k: Kernel, h: D.Holder)
    requires Inv(k) && h.Fd? && h in k.w.files.held
    ensures Moves(k, RightsFlight.Step(k.w, Gather(h)), multiset{}, multiset{k.w.sent})
  {
    L.StepInv(k.w, Gather(h));
  }

  lemma SendMoves(k: Kernel, i: nat, len: nat, copies: seq<nat>)
    requires Inv(k) && multiset(copies) <= k.w.hand && Queues(k.w.net, i, len, copies)
    ensures Moves(k, RightsFlight.Step(k.w, Send(i, len, copies)), multiset(copies), multiset{})
  {
    L.StepInv(k.w, Send(i, len, copies));
  }

  lemma ReleaseMoves(k: Kernel, id: nat)
    requires Inv(k) && id in k.w.hand
    ensures Moves(k, RightsFlight.Step(k.w, Release(id)), multiset{id}, multiset{})
  {
    L.StepInv(k.w, Release(id));
  }

  lemma InstallMoves(k: Kernel, id: nat, h: D.Holder, cloexec: bool)
    requires Inv(k) && id in k.w.hand && D.Accepts(k.w.files, D.Install(D.Flight(id), h, cloexec))
    ensures Moves(k, RightsFlight.Step(k.w, Install(id, h, cloexec)), multiset{id}, multiset{})
  {
    L.StepInv(k.w, Install(id, h, cloexec));
  }

  lemma RecvMoves(k: Kernel, i: nat, len: nat)
    requires Inv(k)
    ensures Moves(k, RightsFlight.Step(k.w, Recv(i, len, true)), multiset{}, multiset(Given(k.w.net, i, len)))
  {
    L.StepInv(k.w, Recv(i, len, true));
  }

  lemma ReapMoves(k: Kernel)
    requires Inv(k) && k.w.net.reapers > 0
    ensures var w := RightsFlight.Step(k.w, ReapTake);
      match ZombieSlot(k.w.net.pool)
      case None => L.Inv(w) && w.hand == k.w.hand && w.net.reapers == k.w.net.reapers - 1
      case Some(j) => j < |k.w.net.pool| && Moves(k, w, multiset{}, multiset(k.w.net.pool[j].copies))
  {
    L.StepInv(k.w, ReapTake);
    ZombieSlotIs(k.w.net.pool);
  }

  lemma EnterMoves(k: Kernel)
    requires Inv(k) && k.w.net.flag
    ensures var w := RightsFlight.Step(k.w, ReapEnter);
      L.Inv(w) && w.hand == k.w.hand && w.net.reapers == k.w.net.reapers + 1
  {
    L.StepInv(k.w, ReapEnter);
  }

  lemma GatheredInv(k: Kernel, t: nat, i: nat, fds: seq<D.Holder>, copies: seq<nat>)
    requires Inv(k) && t < |k.calls| && k.calls[t] == Sending(i, fds, copies) && fds != []
    ensures Inv(Gathered(k, t, i, fds, copies))
  {
    if fds[0].Fd? && fds[0] in k.w.files.held {
      GatherMoves(k, fds[0]);
      MovedInv(k, t, RightsFlight.Step(k.w, Gather(fds[0])), Sending(i, fds[1..], copies + [k.w.sent]),
               multiset{}, multiset{k.w.sent});
    } else {
      NextInv(k, t, k.w, Dropping(copies));
    }
  }

  lemma SentInv(k: Kernel, t: nat, i: nat, copies: seq<nat>, len: nat)
    requires Inv(k) && t < |k.calls| && k.calls[t] == Sending(i, [], copies)
    ensures Inv(Sent(k, t, i, copies, len))
  {
    if !(copies != [] && len == 0) && Queues(k.w.net, i, len, copies) {
      InHand(k, t);
      SendMoves(k, i, len, copies);
      MovedInv(k, t, RightsFlight.Step(k.w, Send(i, len, copies)), Dropping([]), multiset(copies), multiset{});
    } else {
      NextInv(k, t, k.w, Dropping(copies));
    }
  }

  /** Releasing one copy the call holds. */
  lemma ReleasedInv(k: Kernel, t: nat, id: nat, c: Call)
    requires Inv(k) && t < |k.calls| && multiset(Copies(k.calls[t])) == multiset(Copies(c)) + multiset{id}
    requires Seeking(c) == Seeking(k.calls[t])
    ensures Inv(Released(k, t, id, c))
  {
    InHand(k, t);
    assert id in k.w.hand;
    ReleaseMoves(k, id);
    MovedInv(k, t, RightsFlight.Step(k.w, Release(id)), c, multiset{id}, multiset{});
  }

  lemma DroppedInv(k: Kernel, t: nat, copies: seq<nat>)
    requires Inv(k) && t < |k.calls| && k.calls[t] == Dropping(copies)
    ensures Inv(Dropped(k, t, copies))
  {
    if copies == [] {
      NextInv(k, t, k.w, Idle);
    } else {
      Head(copies);
      ReleasedInv(k, t, copies[0], Dropping(copies[1..]));
    }
  }

  lemma ReceivedInv(k: Kernel, t: nat, i: nat, len: nat, c: Call)
    requires Inv(k) && t < |k.calls| && Seeking(c) == Seeking(k.calls[t])
    requires multiset(Copies(c)) == multiset(Copies(k.calls[t])) + multiset(Given(k.w.net, i, len))
    ensures Inv(Taken(k, t, i, len, c))
  {
    RecvMoves(k, i, len);
    MovedInv(k, t, RightsFlight.Step(k.w, Recv(i, len, true)), c, multiset{}, multiset(Given(k.w.net, i, len)));
  }

  lemma LostInv(k: Kernel, t: nat, copies: seq<nat>)
    requires Inv(k) && t < |k.calls| && Copies(k.calls[t]) == copies && Seeking(k.calls[t]) == 0
    ensures Inv(Next(k, t, k.w, Idle).(lost := k.lost + copies))
  {
    SeekersPut(k.calls, t, Idle);
    assert multiset(k.lost + copies) == multiset(k.lost) + multiset(copies);
    forall id: nat ensures k.w.hand[id] == Hands(k.calls[t := Idle], id) + multiset(k.lost + copies)[id] {
      HandsPut(k.calls, t, Idle, id);
    }
  }

  lemma LookedInv(k: Kernel, t: nat, i: nat, copies: seq<nat>, wantsControl: bool, room: nat)
    requires Inv(k) && t < |k.calls| && k.calls[t] == Receiving(i, copies, [])
    ensures Inv(Looked(k, t, i, copies, wantsControl, room))
  {
    assert copies + [] == copies;
    if i in k.w.net.socks {
      NextInv(k, t, k.w, if wantsControl then Handing(copies, room) else Dropping(copies));
    } else {
      LostInv(k, t, copies);
    }
  }

  lemma InstalledInv(k: Kernel, t: nat, id: nat, h: D.Holder, cloexec: bool, c: Call)
    requires Inv(k) && t < |k.calls| && multiset(Copies(k.calls[t])) == multiset(Copies(c)) + multiset{id}
    requires Seeking(c) == Seeking(k.calls[t]) && D.Accepts(k.w.files, D.Install(D.Flight(id), h, cloexec))
    ensures Inv(Next(k, t, RightsFlight.Step(k.w, Install(id, h, cloexec)), c))
  {
    InHand(k, t);
    assert id in k.w.hand;
    InstallMoves(k, id, h, cloexec);
    MovedInv(k, t, RightsFlight.Step(k.w, Install(id, h, cloexec)), c, multiset{id}, multiset{});
  }

  lemma HandedInv(k: Kernel, t: nat, copies: seq<nat>, room: nat, h: D.Holder, cloexec: bool)
    requires Inv(k) && t < |k.calls| && k.calls[t] == Handing(copies, room)
    ensures Inv(Handed(k, t, copies, room, h, cloexec))
  {
    if copies == [] {
      NextInv(k, t, k.w, Idle);
    } else {
      Head(copies);
      if room > 0 && D.Accepts(k.w.files, D.Install(D.Flight(copies[0]), h, cloexec)) {
        InstalledInv(k, t, copies[0], h, cloexec, Handing(copies[1..], room - 1));
      } else {
        ReleasedInv(k, t, copies[0], Handing(copies[1..], room));
      }
    }
  }

  lemma ReapedInv(k: Kernel, t: nat, copies: seq<nat>)
    requires Inv(k) && t < |k.calls| && k.calls[t] == Reaping(copies)
    ensures Inv(Reaped(k, t, copies))
  {
    if copies != [] {
      Head(copies);
      ReleasedInv(k, t, copies[0], Reaping(copies[1..]));
    } else {
      SeekersPut(k.calls, t, Idle);
      ReapMoves(k);
      var w := RightsFlight.Step(k.w, ReapTake);
      match ZombieSlot(k.w.net.pool)
      case None => NextInv(k, t, w, Idle);
      case Some(j) =>
        MovedInv(k, t, w, Reaping(k.w.net.pool[j].copies), multiset{}, multiset(k.w.net.pool[j].copies));
    }
  }

  lemma StartedInv(k: Kernel, t: nat, a: Act)
    requires Inv(k) && t < |k.calls| && k.calls[t] == Idle
    ensures Inv(Started(k, t, a))
  {
    if a.Sendmsg? {
      NextInv(k, t, k.w, Sending(a.i, a.fds, []));
    } else if a.Recvmsg? && a.i in k.w.net.socks && k.w.net.socks[a.i].count > 0 {
      var given := Given(k.w.net, a.i, a.len);
      assert given + [] == given;
      ReceivedInv(k, t, a.i, a.len, Receiving(a.i, given, []));
    } else if a.Reap? && k.w.net.flag {
      EnterMoves(k);
      NextInv(k, t, RightsFlight.Step(k.w, ReapEnter), Reaping([]));
    }
  }

  lemma PlainStep(k: Kernel, op: Op)
    requires Inv(k) && PlainOp(op)
    ensures Inv(Step(k, Plain(op)))
  {
    L.StepInv(k.w, op);
    if op.Recv? && op.i in k.w.net.socks && k.w.net.socks[op.i].count > 0 {
      ReadingFits(k.w.net, op.i, op.len, false);
    }
  }

  lemma MoreInv(k: Kernel, t: nat, i: nat, copies: seq<nat>, len: nat)
    requires Inv(k) && t < |k.calls| && k.calls[t] == Receiving(i, copies, [])
    ensures Inv(More(k, t, i, copies, len))
  {
    var given := Given(k.w.net, i, len);
    assert copies + [] == copies && [] + given == given && given + [] == given;
    ReceivedInv(k, t, i, len, if copies == [] then Receiving(i, given, []) else Receiving(i, copies, given));
  }

  lemma ExtraInv(k: Kernel, t: nat, i: nat, copies: seq<nat>, extra: seq<nat>)
    requires Inv(k) && t < |k.calls| && k.calls[t] == Receiving(i, copies, extra) && extra != []
    ensures Inv(Released(k, t, extra[0], Receiving(i, copies, extra[1..])))
  {
    Head(extra);
    ReleasedInv(k, t, extra[0], Receiving(i, copies, extra[1..]));
  }

  lemma CallStepInv(k: Kernel, t: nat, a: Act)
    requires Inv(k) && t < |k.calls|
    ensures Inv(CallStep(k, t, k.calls[t], a))
  {
    match k.calls[t]
    case Idle => StartedInv(k, t, a);
    case Sending(i, fds, copies) =>
      if a.GatherNext? && fds != [] {
        GatheredInv(k, t, i, fds, copies);
      } else if a.SendOff? && fds == [] {
        SentInv(k, t, i, copies, a.len);
      }
    case Dropping(copies) => DroppedInv(k, t, copies);
    case Receiving(i, copies, extra) =>
      if a.WaitAll? && extra == [] && i in k.w.net.socks {
        MoreInv(k, t, i, copies, a.len);
      } else if a.DropExtra? && extra != [] {
        ExtraInv(k, t, i, copies, extra);
      } else if a.Options? && extra == [] {
        LookedInv(k, t, i, copies, a.wantsControl, a.room);
      }
    case Handing(copies, room) => if a.HandNext? { HandedInv(k, t, copies, room, a.k, a.cloexec); }
    case Reaping(copies) => ReapedInv(k, t, copies);
  }

  lemma StepInv(k: Kernel, a: Act)
    requires Inv(k)
    ensures Inv(Step(k, a))
  {
    if a.Plain? {
      if PlainOp(a.op) {
        PlainStep(k, a.op);
      }
    } else if a.t < |k.calls| {
      CallStepInv(k, a.t, a);
    }
  }

  /** In every run the copies in hands are those of calls in progress and those that calls returned with, and the
      threads counted as looking for sets are the ones that do. */
  lemma {:induction false} RunInv(k: Kernel, acts: seq<Act>)
    requires Inv(k)
    ensures Inv(Run(k, acts))
  {
    if acts != [] {
      RunInv(k, acts[..|acts| - 1]);
      StepInv(Run(k, acts[..|acts| - 1]), acts[|acts| - 1]);
    }
  }

  // ─── returning with a copy ───

  /** recvmsg has taken a set and asks for the options of a socket that is closed by then. */
  predicate ClosedUnder(k: Kernel, a: Act) {
    && a.Options? && a.t < |k.calls| && k.calls[a.t].Receiving? && k.calls[a.t].extra == []
    && k.calls[a.t].copies != [] && k.calls[a.t].i !in k.w.net.socks
  }

  /** A call returns with copies in its hands exactly when its socket was closed under it. */
  lemma ReturnsEmptyExactly(k: Kernel, a: Act, t: nat)
    requires t < |k.calls| && k.calls[t] != Idle && t < |Step(k, a).calls| && Step(k, a).calls[t] == Idle
    ensures Copies(k.calls[t]) != [] <==> ClosedUnder(k, a) && a.t == t
  {
    var c := k.calls[t];
    assert c.Receiving? && c.extra == [] ==> Copies(c) == c.copies;
  }

  lemma LostExactly(k: Kernel, a: Act)
    ensures Step(k, a).lost == k.lost + if ClosedUnder(k, a) then k.calls[a.t].copies else []
  {
    assert k.lost + [] == k.lost;
  }

  ghost predicate NeverClosedUnder(k: Kernel, acts: seq<Act>) {
    acts == [] ||
    (NeverClosedUnder(k, acts[..|acts| - 1]) && !ClosedUnder(Run(k, acts[..|acts| - 1]), acts[|acts| - 1]))
  }

  lemma {:induction false} LostInRun(k: Kernel, acts: seq<Act>)
    requires k.lost == []
    ensures Run(k, acts).lost == [] <==> NeverClosedUnder(k, acts)
  {
    if acts != [] {
      LostInRun(k, acts[..|acts| - 1]);
      LostExactly(Run(k, acts[..|acts| - 1]), acts[|acts| - 1]);
    }
  }

  ghost predicate Boot(k: Kernel) {
    L.Boot(k.w) && k.w.net.reapers == 0 && k.lost == [] && forall t :: 0 <= t < |k.calls| ==> k.calls[t] == Idle
  }

  lemma {:induction false} AllIdle(calls: seq<Call>, id: nat)
    requires forall t :: 0 <= t < |calls| ==> calls[t] == Idle
    ensures Hands(calls, id) == 0 && Seekers(calls) == 0
  {
    if calls != [] {
      AllIdle(calls[..|calls| - 1], id);
    }
  }

  lemma BootInv(k: Kernel)
    requires Boot(k)
    ensures Inv(k)
  {
    L.BootInv(k.w);
    AllIdle(k.calls, 0);
    forall id: nat ensures k.w.hand[id] == Hands(k.calls, id) + multiset(k.lost)[id] {
      AllIdle(k.calls, id);
    }
  }

  /** From boot, in every run: every copy made has been installed once, released once, is in the pool once or in the
      hands of one call in progress; or, exactly in the runs in which a socket is closed under a recvmsg that has taken
      a set, it may be lost. */
  lemma EndsOnce(k: Kernel, acts: seq<Act>, id: nat)
    requires Boot(k)
    ensures var v := Run(k, acts);
      && multiset(v.w.installed)[id] + multiset(v.w.released)[id] + L.Pooled(v.w.net.pool, id) + Hands(v.calls, id)
         + multiset(v.lost)[id] == (if id < v.w.sent then 1 else 0)
      && (v.lost == [] <==> NeverClosedUnder(k, acts))
  {
    BootInv(k);
    RunInv(k, acts);
    LostInRun(k, acts);
    var v := Run(k, acts);
    assert L.Places(v.w, id) == if id < v.w.sent then 1 else 0;
    assert v.w.hand[id] == Hands(v.calls, id) + multiset(v.lost)[id];
  }

  /** With every call returned and no set announced, the copies still in flight are those that ride on bytes of open
      sockets, and those lost. */
  lemma AtRest(k: Kernel, acts: seq<Act>, id: nat)
    requires Boot(k)
    ensures var v := Run(k, acts);
      (forall t :: 0 <= t < |v.calls| ==> v.calls[t] == Idle) && !v.w.net.flag ==>
        && (D.Flight(id) in v.w.files.held <==>
              || id in v.lost
              || exists j :: 0 <= j < |v.w.net.pool| && Live(v.w.net.pool[j]) && id in v.w.net.pool[j].copies)
        && (forall j :: 0 <= j < |v.w.net.pool| && v.w.net.pool[j].used ==> SlotOk(v.w.net.socks, v.w.net.pool[j]))
        && (v.w.net.socks == map[] ==> (D.Flight(id) in v.w.files.held <==> id in v.lost))
  {
    BootInv(k);
    RunInv(k, acts);
    var v := Run(k, acts);
    if (forall t :: 0 <= t < |v.calls| ==> v.calls[t] == Idle) && !v.w.net.flag {
      AllIdle(v.calls, id);
      assert v.w.hand[id] == multiset(v.lost)[id];
      L.PooledHas(v.w.net.pool, id);
      assert !AnyZombie(v.w.net.pool);
      assert D.Flight(id) in v.w.files.held <==> L.Flying(v.w, id) > 0;
    }
  }

  // ─── a set lost under a close ───

  const SENT: D.Holder := D.Fd(1, 3)

  lemma RunSnoc(k: Kernel, acts: seq<Act>, a: Act)
    ensures Run(k, acts + [a]) == Step(Run(k, acts), a)
  {
    assert (acts + [a])[..|acts|] == acts;
  }

  ghost predicate Resting(k: Kernel) {
    && |k.calls| == 2 && k.calls == [Idle, Idle] && k.lost == []
    && k.w.hand == multiset{} && k.w.installed == [] && k.w.released == []
  }

  /** A pipe end is open and a stream socket is there. */
  ghost predicate Ready(k: Kernel) {
    && Inv(k) && Resting(k) && k.w.sent == 0 && SENT in k.w.files.held
    && k.w.net.socks == map[0 := Sock(true, 0, 0, [])] && forall j :: 0 <= j < |k.w.net.pool| ==> !k.w.net.pool[j].used
  }

  lemma GetReady(k: Kernel)
    requires Boot(k) && k.calls == [Idle, Idle]
    ensures Ready(Step(Step(k, Plain(Files(D.Open(SENT, D.PipeEnd(1, true), 0)))), Plain(Socket(0, true))))
  {
    BootInv(k);
    var k1 := Step(k, Plain(Files(D.Open(SENT, D.PipeEnd(1, true), 0))));
    StepInv(k, Plain(Files(D.Open(SENT, D.PipeEnd(1, true), 0))));
    StepInv(k1, Plain(Socket(0, true)));
    assert k1.w.net == k.w.net && SENT in k1.w.files.held;
    assert k1.w.net.socks[0 := Sock(true, 0, 0, [])] == map[0 := Sock(true, 0, 0, [])];
  }

  /** The set is queued and its sender has returned. */
  ghost predicate Queued1(k: Kernel, j: nat) {
    && Inv(k) && Resting(k) && k.w.sent == 1 && k.w.net.socks == map[0 := Sock(true, 0, 1, [])]
    && j < |k.w.net.pool| && k.w.net.pool[j] == Queued(true, false, 0, 0, [0])
    && forall i :: 0 <= i < |k.w.net.pool| && i != j ==> !k.w.net.pool[i].used
  }

  lemma GatherOne(k: Kernel)
    requires Ready(k)
    ensures var k2 := Step(Step(k, Sendmsg(0, 0, [SENT])), GatherNext(0));
      && Inv(k2) && k2.calls == [Sending(0, [], [0]), Idle] && k2.lost == [] && k2.w.net == k.w.net
      && k2.w.sent == 1 && k2.w.hand == multiset{0} && k2.w.installed == [] && k2.w.released == []
  {
    var k1 := Step(k, Sendmsg(0, 0, [SENT]));
    StepInv(k, Sendmsg(0, 0, [SENT]));
    StepInv(k1, GatherNext(0));
    assert k1 == Next(k, 0, k.w, Sending(0, [SENT], []));
    assert Step(k1, GatherNext(0)) == Gathered(k1, 0, 0, [SENT], []);
    assert [SENT][1..] == [] && [] + [k1.w.sent] == [0];
    assert multiset{} + multiset{0} == multiset{0};
  }

  lemma SendOne(k: Kernel) returns (j: nat)
    requires Inv(k) && k.calls == [Sending(0, [], [0]), Idle] && k.lost == []
    requires k.w.net.socks == map[0 := Sock(true, 0, 0, [])] && k.w.sent == 1 && k.w.hand == multiset{0}
    requires k.w.installed == [] && k.w.released == []
    requires forall j :: 0 <= j < |k.w.net.pool| ==> !k.w.net.pool[j].used
    ensures Queued1(Step(Step(k, SendOff(0, 1)), DropNext(0)), j)
  {
    var k1 := Step(k, SendOff(0, 1));
    StepInv(k, SendOff(0, 1));
    StepInv(k1, DropNext(0));
    j := QueueOne(k.w);
    assert k1 == Sent(k, 0, 0, [0], 1);
    assert k1.calls == [Dropping([]), Idle];
    assert Step(k1, DropNext(0)) == Dropped(k1, 0, []);
    assert [Dropping([]), Idle][0 := Idle] == [Idle, Idle];
  }

  lemma QueueOne(w: World) returns (j: nat)
    requires w.net.socks == map[0 := Sock(true, 0, 0, [])] && w.hand == multiset{0}
    requires |w.net.pool| == MAX_SETS && forall j :: 0 <= j < |w.net.pool| ==> !w.net.pool[j].used
    ensures Queues(w.net, 0, 1, [0])
    ensures var w' := RightsFlight.Step(w, Send(0, 1, [0]));
      && w' == w.(net := w'.net, hand := multiset{}) && w'.net.socks == map[0 := Sock(true, 0, 1, [])]
      && j < MAX_SETS && w'.net.pool == w.net.pool[j := Queued(true, false, 0, 0, [0])]
  {
    FreeSlotIs(w.net.pool);
    j := FreeSlot(w.net.pool).value;
    assert w.hand == multiset([0]) && w.hand - multiset([0]) == multiset{};
    assert Queue(w.net, 0, 1, [0]).socks == map[0 := Sock(true, 0, 1, [])];
  }

  lemma TakeOne(k: Kernel, j: nat)
    requires Queued1(k, j)
    ensures var k1 := Step(k, Recvmsg(1, 0, 1));
      && Inv(k1) && k1.calls == [Idle, Receiving(0, [0], [])] && k1.lost == []
      && k1.w.sent == 1 && k1.w.installed == [] && k1.w.released == []
  {
    StepInv(k, Recvmsg(1, 0, 1));
    ReadingFits(k.w.net, 0, 1, true);
    assert Live(k.w.net.pool[j]) && k.w.net.pool[j].owner == 0 && k.w.net.pool[j].pos == 0;
    assert ReadingOf(k.w.net, 0, 1, true).slot == j;
    assert Given(k.w.net, 0, 1) == [0];
  }

  lemma CloseOne(k: Kernel)
    requires Inv(k)
    ensures var k1 := Step(k, Plain(Close(0)));
      Inv(k1) && 0 !in k1.w.net.socks && k1.calls == k.calls && k1.lost == k.lost &&
      k1.w == k.w.(net := k1.w.net)
  {
    StepInv(k, Plain(Close(0)));
  }

  lemma LoseOne(k: Kernel)
    requires Inv(k) && k.calls == [Idle, Receiving(0, [0], [])] && k.lost == [] && 0 !in k.w.net.socks
    ensures var k1 := Step(k, Options(1, true, 1));
      Inv(k1) && k1.w == k.w && k1.calls == [Idle, Idle] && k1.lost == [0]
  {
    StepInv(k, Options(1, true, 1));
    assert Step(k, Options(1, true, 1)) == Looked(k, 1, 0, [0], true, 1);
    assert [] + [0] == [0] && k.calls[1 := Idle] == [Idle, Idle];
  }

  function LosingRun(): seq<Act> {
    [] + [Plain(Files(D.Open(SENT, D.PipeEnd(1, true), 0)))] + [Plain(Socket(0, true))] + [Sendmsg(0, 0, [SENT])]
    + [GatherNext(0)] + [SendOff(0, 1)] + [DropNext(0)] + [Recvmsg(1, 0, 1)] + [Plain(Close(0))] + [Options(1, true, 1)]
  }

  /** From boot: a descriptor is sent; one thread receives it while another closes the socket. Every call has returned,
      and the copy is neither installed nor released: it is counted for ever. */
  lemma LostUnderClose(k: Kernel)
    requires Boot(k) && k.calls == [Idle, Idle]
    ensures var v := Run(k, LosingRun());
      v.calls == [Idle, Idle] && v.lost == [0] && v.w.installed == [] && v.w.released == [] &&
      D.Flight(0) in v.w.files.held
  {
    var a1, a2 := Plain(Files(D.Open(SENT, D.PipeEnd(1, true), 0))), Plain(Socket(0, true));
    var r2: seq<Act> := [] + [a1] + [a2];
    var r4 := r2 + [Sendmsg(0, 0, [SENT])] + [GatherNext(0)];
    var r6 := r4 + [SendOff(0, 1)] + [DropNext(0)];
    var r7 := r6 + [Recvmsg(1, 0, 1)];
    RunSnoc(k, [], a1);
    RunSnoc(k, [] + [a1], a2);
    RunSnoc(k, r2, Sendmsg(0, 0, [SENT]));
    RunSnoc(k, r2 + [Sendmsg(0, 0, [SENT])], GatherNext(0));
    RunSnoc(k, r4, SendOff(0, 1));
    RunSnoc(k, r4 + [SendOff(0, 1)], DropNext(0));
    RunSnoc(k, r6, Recvmsg(1, 0, 1));
    RunSnoc(k, r7, Plain(Close(0)));
    RunSnoc(k, r7 + [Plain(Close(0))], Options(1, true, 1));
    GetReady(k);
    GatherOne(Run(k, r2));
    var j := SendOne(Run(k, r4));
    TakeOne(Run(k, r6), j);
    CloseOne(Run(k, r7));
    LoseOne(Run(k, r7 + [Plain(Close(0))]));
    StillCounted(Run(k, LosingRun()));
  }

  lemma StillCounted(k: Kernel)
    requires Inv(k) && k.lost == [0]
    ensures D.Flight(0) in k.w.files.held
  {
    assert k.w.hand[0] == Hands(k.calls, 0) + multiset(k.lost)[0];
    assert L.Flying(k.w, 0) > 0;
  }
}
