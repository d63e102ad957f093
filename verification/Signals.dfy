/** One task's signals: mask, pending set, dispositions, the stack of handler frames, and temporary masks. */
module Signals {
  import opened Basics

  const SIGKILL: nat := 9
  const SIGSTOP: nat := 19
  const MAX_SIGNAL: nat := 64

  type Mask = set<nat>

  const UNBLOCKABLE: Mask := {SIGKILL, SIGSTOP}

  datatype Handler = Default | Ignore | Handle(id: nat)
  datatype Action = Action(handler: Handler, mask: Mask, nodefer: bool, resethand: bool)
  datatype Disposition = Terminate | Discard | Stop | Continue

  /** What a handler frame restores. */
  datatype Frame = Frame(sig: nat, mask: Mask)

  /** `deferred`: a temporary mask is still installed and `saved` is to come back. */
  datatype Task = Task(
    mask: Mask, pending: Mask, actions: map<nat, Action>, frames: seq<Frame>,
    saved: Mask, deferred: bool, alive: bool, stopped: bool)

  function DefaultOf(sig: nat): Disposition {
    if sig in {17, 23, 28} then Discard
    else if sig == 18 then Continue
    else if sig in {19, 20, 21, 22} then Stop
    else Terminate
  }

  function ActionOf(t: Task, sig: nat): Action {
    if sig in t.actions then t.actions[sig] else Action(Default, {}, false, false)
  }

  /** SIGSTOP is never caught, whatever is installed. */
  function HandlerOf(t: Task, sig: nat): Handler { if sig == SIGSTOP then Default else ActionOf(t, sig).handler }

  function Sanitize(m: Mask): Mask { m - UNBLOCKABLE }

  function HandlerMask(mask: Mask, sig: nat, a: Action): Mask {
    Sanitize(mask + a.mask + (if a.nodefer then {} else {sig}))
  }

  // ─── the lowest signal ───

  /** The least signal at or above `i` in the set. */
  function LowestFrom(s: Mask, i: nat): (r: Option<nat>)
    requires i <= MAX_SIGNAL + 1
    ensures r.Some? ==> r.value in s && i <= r.value <= MAX_SIGNAL && forall j :: i <= j < r.value ==> j !in s
    ensures r.None? ==> forall j :: i <= j <= MAX_SIGNAL ==> j !in s
    decreases MAX_SIGNAL + 1 - i
  {
    if i > MAX_SIGNAL then None else if i in s then Some(i) else LowestFrom(s, i + 1)
  }

  function Lowest(s: Mask): Option<nat> { LowestFrom(s, 1) }

  predicate Acts(t: Task, sig: nat) {
    var h := ActionOf(t, sig).handler;
    h != Ignore && (h.Handle? || DefaultOf(sig) == Terminate)
  }

  /** Whether a pending signal would be acted on, so that a wait must end. */
  method PendingActionable(t: Task) returns (r: bool)
    ensures r <==> exists sig :: 1 <= sig <= MAX_SIGNAL && sig in t.pending - t.mask && Acts(t, sig)
  {
    var sig := 1;
    while sig <= MAX_SIGNAL
      invariant 1 <= sig <= MAX_SIGNAL + 1
      invariant forall k :: 1 <= k < sig ==> !(k in t.pending - t.mask && Acts(t, k))
    {
      if sig in t.pending && sig !in t.mask && Acts(t, sig) {
        return true;
      }
      sig := sig + 1;
    }
    r := false;
  }

  predicate Fatal(t: Task, sig: nat) { ActionOf(t, sig).handler == Default && DefaultOf(sig) == Terminate }

  /** Whether a pending signal that the mask `m` lets through ends the task. */
  predicate FatalUnder(t: Task, m: Mask) {
    exists sig :: 1 <= sig <= MAX_SIGNAL && sig in t.pending - m && Fatal(t, sig)
  }

  /** The lowest pending signal that ends the task, if any: every wait asks before it returns. */
  method PendingFatal(t: Task) returns (r: Option<nat>)
    ensures r.None? <==> !FatalUnder(t, t.mask)
    ensures r.Some? ==> 1 <= r.value <= MAX_SIGNAL && r.value in t.pending - t.mask && Fatal(t, r.value)
    ensures r.Some? ==> forall k :: 1 <= k < r.value && k in t.pending - t.mask ==> !Fatal(t, k)
  {
    var sig := 1;
    while sig <= MAX_SIGNAL
      invariant 1 <= sig <= MAX_SIGNAL + 1
      invariant forall k :: 1 <= k < sig ==> !(k in t.pending - t.mask && Fatal(t, k))
    {
      if sig in t.pending && sig !in t.mask && Fatal(t, sig) {
        assert sig in t.pending - t.mask;
        return Some(sig);
      }
      sig := sig + 1;
    }
    r := None;
  }

  // ─── steps ───

  datatype Op =
    | Send(sig: nat)
    | Procmask(how: nat, set_: Mask)
    | Sigaction(sig: nat, act: Action)
    | Deliver
    | SyscallReturn
    | Sigreturn
    | TempMask(m: Mask, interrupted: bool)
    | TimedWait(set_: Mask)

  /** Put a handler on the stack: it runs under its own mask; the frame remembers the mask to come back to. */
  function Push(t: Task, sig: nat): Task {
    var a := ActionOf(t, sig);
    t.(frames := t.frames + [Frame(sig, if t.deferred then t.saved else t.mask)],
       mask := HandlerMask(t.mask, sig, a),
       deferred := false,
       actions := if a.resethand then t.actions[sig := a.(handler := Default)] else t.actions)
  }

  /** Take the lowest pending unblocked signal and act on it. */
  function Delivered(t: Task): Task {
    match Lowest(t.pending - t.mask)
    case None => t
    case Some(sig) =>
      var t1 := t.(pending := t.pending - {sig});
      match HandlerOf(t1, sig)
      case Handle(_) => Push(t1, sig)
      case Ignore => t1
      case Default =>
        match DefaultOf(sig)
        case Terminate => t1.(alive := false)
        case Discard => t1
        case Stop => t1.(stopped := true)
        case Continue => t1.(stopped := false)
  }

  function Undeferred(t: Task): Task { if t.deferred then t.(deferred := false, mask := t.saved) else t }

  function Step(t: Task, op: Op): Task {
    if !t.alive then t
    else
      match op
      case Send(sig) =>
        if !(1 <= sig <= MAX_SIGNAL) then t
        else
          var lifted := sig == 18 || DefaultOf(sig) == Terminate;
          t.(pending := t.pending + {sig}, stopped := t.stopped && !lifted)
      case Procmask(how, s) =>
        if how == 0 then t.(mask := Sanitize(t.mask + s))
        else if how == 1 then t.(mask := t.mask - s)
        else if how == 2 then t.(mask := Sanitize(s))
        else t
      case Sigaction(sig, act) =>
        if !(1 <= sig <= MAX_SIGNAL) || sig in UNBLOCKABLE then t
          else t.(actions := t.actions[sig := act.(mask := Sanitize(act.mask))])
      case Deliver => Delivered(t)
      case SyscallReturn => var t1 := Delivered(t); if t1.alive then Undeferred(t1) else t1
      case Sigreturn =>
        if t.frames == [] then t
        else t.(mask := Sanitize(t.frames[|t.frames| - 1].mask), frames := t.frames[..|t.frames| - 1])
      case TempMask(m, interrupted) =>
        if !interrupted then t
        else if FatalUnder(t, Sanitize(m)) then t.(mask := Sanitize(m), alive := false)
        else t.(saved := t.mask, deferred := true, mask := Sanitize(m))
      case TimedWait(s) =>
        match Lowest(t.pending * s)
        case None => t
        case Some(sig) => t.(pending := t.pending - {sig})
  }

  function Run(t: Task, ops: seq<Op>): Task { if ops == [] then t else Step(Run(t, ops[..|ops| - 1]), ops[|ops| - 1]) }

  // ─── KILL and STOP ───

  /** No mask in force, saved or remembered blocks KILL or STOP, and nothing is installed for them. */
  ghost predicate Inv(t: Task) {
    && t.mask !! UNBLOCKABLE && (t.deferred ==> t.saved !! UNBLOCKABLE)
    && (forall i :: 0 <= i < |t.frames| ==> t.frames[i].mask !! UNBLOCKABLE)
    && (forall sig :: sig in t.actions ==> t.actions[sig].mask !! UNBLOCKABLE)
    && (forall sig :: sig in t.actions && sig in UNBLOCKABLE ==> t.actions[sig].handler == Default)
  }

  lemma PushInv(t: Task, sig: nat)
    requires Inv(t)
    ensures Inv(Push(t, sig))
  {
    var t' := Push(t, sig);
    forall i | 0 <= i < |t'.frames| ensures t'.frames[i].mask !! UNBLOCKABLE {
      assert i < |t.frames| ==> t'.frames[i] == t.frames[i];
    }
  }

  lemma DeliveredInv(t: Task)
    requires Inv(t)
    ensures Inv(Delivered(t))
  {
    var low := Lowest(t.pending - t.mask);
    if low.Some? {
      PushInv(t.(pending := t.pending - {low.value}), low.value);
    }
  }

  lemma StepInv(t: Task, op: Op)
    requires Inv(t)
    ensures Inv(Step(t, op))
  {
    DeliveredInv(t);
  }

  lemma {:induction false} RunInv(t: Task, ops: seq<Op>)
    requires Inv(t)
    ensures Inv(Run(t, ops))
  {
    if ops != [] {
      RunInv(t, ops[..|ops| - 1]);
      StepInv(Run(t, ops[..|ops| - 1]), ops[|ops| - 1]);
    }
  }

  /** From the start of a task, without the invariant: no mask in force or to be restored ever holds KILL or STOP. */
  lemma FromStart(ops: seq<Op>, i: nat)
    ensures var t := Run(Task({}, {}, map[], [], {}, false, true, false), ops);
      t.mask !! UNBLOCKABLE && (i < |t.frames| ==> t.frames[i].mask !! UNBLOCKABLE)
  {
    RunInv(Task({}, {}, map[], [], {}, false, true, false), ops);
  }

  /** In every state of every run a pending KILL ends the task at the next delivery of nothing lower, and STOP stops it:
      neither can be blocked, caught or ignored. */
  lemma KillAndStopPrevail(t: Task, ops: seq<Op>, sig: nat)
    requires Inv(t) && sig in UNBLOCKABLE
    ensures var s := Run(t, ops);
      && sig !in s.mask && HandlerOf(s, sig) == Default
      && (s.alive && sig in s.pending && Lowest(s.pending - s.mask) == Some(sig) ==>
            var s' := Step(s, Deliver); if sig == SIGKILL then !s'.alive else s'.stopped)
  {
    RunInv(t, ops);
  }

  // ─── delivery ───

  /** What acting on `sig` means: a handler gets a frame and its mask, anything else leaves both alone. */
  ghost predicate ActedOn(t: Task, t': Task, sig: nat) {
    var a := ActionOf(t, sig);
    if HandlerOf(t, sig).Handle? then
      && t'.frames == t.frames + [Frame(sig, if t.deferred then t.saved else t.mask)]
      && t.mask <= t'.mask && a.mask <= t'.mask && (!a.nodefer && sig !in UNBLOCKABLE ==> sig in t'.mask)
      && t'.mask <= t.mask + a.mask + {sig}
      && ActionOf(t', sig).handler == (if a.resethand then Default else a.handler)
    else t'.frames == t.frames && t'.mask == t.mask
  }

  lemma DeliverAt(t: Task, sig: nat)
    requires Inv(t) && Lowest(t.pending - t.mask) == Some(sig)
    ensures Delivered(t).pending == t.pending - {sig} && ActedOn(t, Delivered(t), sig)
  {
    var t1 := t.(pending := t.pending - {sig});
    assert ActionOf(t1, sig) == ActionOf(t, sig) && HandlerOf(t1, sig) == HandlerOf(t, sig);
    if HandlerOf(t, sig).Handle? {
      PushShape(t1, sig);
    }
  }

  /** Delivery takes exactly the lowest pending signal that is not blocked; a blocked signal stays pending. */
  lemma DeliverLowest(t: Task)
    requires t.alive && Inv(t) && forall s :: s in t.pending ==> 1 <= s <= MAX_SIGNAL
    ensures var t' := Step(t, Deliver);
      if t.pending <= t.mask then t' == t
      else exists sig ::
        && sig in t.pending - t.mask && (forall s :: s in t.pending - t.mask ==> sig <= s)
        && t'.pending == t.pending - {sig} && ActedOn(t, t', sig)
  {
    var ready := t.pending - t.mask;
    if !(t.pending <= t.mask) {
      var w :| w in t.pending && w !in t.mask;
      assert w in ready && 1 <= w <= MAX_SIGNAL;
      var sig := Lowest(ready).value;
      assert sig in ready && forall s :: s in ready ==> sig <= s;
      DeliverAt(t, sig);
    }
  }

  /** A handler runs with the interrupted mask, its own mask and its own signal blocked, and nothing else. */
  lemma PushShape(t: Task, sig: nat)
    requires Inv(t)
    ensures var t', a := Push(t, sig), ActionOf(t, sig);
      && t'.pending == t.pending && t'.frames == t.frames + [Frame(sig, if t.deferred then t.saved else t.mask)]
      && t.mask <= t'.mask && a.mask <= t'.mask && (!a.nodefer && sig !in UNBLOCKABLE ==> sig in t'.mask)
      && t'.mask <= t.mask + a.mask + {sig}
      && ActionOf(t', sig).handler == (if a.resethand then Default else a.handler)
  {
    var a := ActionOf(t, sig);
    assert a.mask !! UNBLOCKABLE;
  }

  // ─── nesting ───

  /** While the stack stays above depth `n`, its first `n` frames do not change. */
  ghost predicate StaysAbove(t: Task, ops: seq<Op>, n: nat) {
    |Run(t, ops).frames| >= n && (ops != [] ==> StaysAbove(t, ops[..|ops| - 1], n))
  }

  lemma DeliveredFrames(t: Task)
    ensures var f := Delivered(t).frames; f == t.frames || (f != [] && f[..|f| - 1] == t.frames)
  {
  }

  lemma StepFrames(t: Task, op: Op, n: nat)
    requires |t.frames| >= n && |Step(t, op).frames| >= n
    ensures Step(t, op).frames[..n] == t.frames[..n]
  {
    DeliveredFrames(t);
  }

  lemma {:induction false} FramesKept(t: Task, ops: seq<Op>, n: nat)
    requires |t.frames| >= n && StaysAbove(t, ops, n)
    ensures |Run(t, ops).frames| >= n && Run(t, ops).frames[..n] == t.frames[..n]
  {
    if ops != [] {
      FramesKept(t, ops[..|ops| - 1], n);
      StepFrames(Run(t, ops[..|ops| - 1]), ops[|ops| - 1], n);
    }
  }

  /** The mask a task will be back at when the handler it is about to enter returns. */
  function ResumeMask(t: Task): Mask { if t.deferred then t.saved else t.mask }

  /** Whatever happens while a handler runs, including other handlers on top of it, changes of the mask and temporary
      masks, its return restores the mask in force when it was delivered. */
  lemma ReturnRestoresMask(t: Task, during: seq<Op>)
    requires Inv(t) && t.alive && |Step(t, Deliver).frames| == |t.frames| + 1
    requires StaysAbove(Step(t, Deliver), during, |t.frames| + 1)
    requires var u := Run(Step(t, Deliver), during); u.alive && |u.frames| == |t.frames| + 1
    ensures var u := Run(Step(t, Deliver), during);
      Step(u, Sigreturn).mask == ResumeMask(t) && Step(u, Sigreturn).frames == t.frames
  {
    var t1 := Step(t, Deliver);
    var n := |t.frames|;
    DeliverPushes(t);
    FramesKept(t1, during, n + 1);
    var u := Run(t1, during);
    assert u.frames == u.frames[..n + 1] && t1.frames == t1.frames[..n + 1];
    assert ResumeMask(t) - UNBLOCKABLE == ResumeMask(t);
  }

  lemma DeliverPushes(t: Task)
    requires t.alive && |Step(t, Deliver).frames| == |t.frames| + 1
    ensures var t1 := Step(t, Deliver);
      t1.frames[..|t.frames|] == t.frames && t1.frames[|t.frames|].mask == ResumeMask(t)
  {
  }

  // ─── temporary masks ───

  /** With no handler started, the return from the call undoes a temporary mask. */
  lemma UndoneAtReturn(t: Task)
    requires t.alive && t.deferred
    ensures var t' := Step(t, SyscallReturn);
      t'.alive ==>
        && !t'.deferred && (t'.frames == t.frames ==> t'.mask == t.saved)
        && (t'.frames != t.frames ==> t' == Step(t, Deliver) && |t'.frames| == |t.frames| + 1)
  {
    DeliveredFrames(t);
  }

  /** A mask installed for a wait is to be undone, or the task has ended. */
  lemma MaskInstalled(t: Task, m: Mask)
    requires Inv(t) && t.alive && !t.deferred
    ensures var t1 := Step(t, TempMask(m, true));
      if t1.alive then Inv(t1) && t1.deferred && t1.saved == t.mask && t1.frames == t.frames
      else !Step(t1, SyscallReturn).alive
  {
    StepInv(t, TempMask(m, true));
  }

  /** The second half: a handler that starts on the way out brings the remembered mask back. */
  lemma UndoneByHandler(t: Task, during: seq<Op>)
    requires Inv(t) && t.alive && t.deferred
    ensures var t2 := Step(t, SyscallReturn);
      t2.alive && t2.frames != t.frames && StaysAbove(t2, during, |t.frames| + 1) ==>
        var u := Run(t2, during);
        u.alive && |u.frames| == |t.frames| + 1 ==>
          Step(u, Sigreturn).mask == t.saved && Step(u, Sigreturn).frames == t.frames
  {
    UndoneAtReturn(t);
    var t2 := Step(t, SyscallReturn);
    if t2.alive && t2.frames != t.frames && StaysAbove(t2, during, |t.frames| + 1) {
      var u := Run(t2, during);
      if u.alive && |u.frames| == |t.frames| + 1 {
        ReturnRestoresMask(t, during);
      }
    }
  }

  /** A temporary mask that was interrupted is undone: at once on return from the call when no handler starts, else when
      that handler returns, whatever it did. */
  lemma TempMaskUndone(t: Task, m: Mask, during: seq<Op>)
    requires Inv(t) && t.alive && !t.deferred
    ensures var t1 := Step(t, TempMask(m, true));
      var t2 := Step(t1, SyscallReturn);
      && (t2.alive && t2.frames == t.frames ==> t2.mask == t.mask && !t2.deferred)
      && (t2.alive && t2.frames != t.frames && StaysAbove(t2, during, |t.frames| + 1) ==>
            var u := Run(t2, during);
            u.alive && |u.frames| == |t.frames| + 1 ==>
              Step(u, Sigreturn).mask == t.mask && Step(u, Sigreturn).frames == t.frames)
  {
    MaskInstalled(t, m);
    var t1 := Step(t, TempMask(m, true));
    if t1.alive {
      UndoneAtReturn(t1);
      UndoneByHandler(t1, during);
    }
  }

  /** A wait under a temporary mask that lets a caught signal through: the task ends if and only if the mask lets a
      fatal signal through too, lower or higher; otherwise the handler runs before the call returns if and only if the
      lowest signal let through is one that has a handler. A lower signal that is ignored is taken instead, and the wait
      has ended with the caught signal blocked again and still pending. */
  lemma WaitRunsHandlerExactly(t: Task, m: Mask, sig: nat)
    requires Inv(t) && t.alive && !t.deferred && sig in t.pending && sig in t.mask && 1 <= sig <= MAX_SIGNAL
    requires sig !in m && ActionOf(t, sig).handler.Handle? && sig !in UNBLOCKABLE
    ensures var t2 := Step(Step(t, TempMask(m, true)), SyscallReturn);
      var low := Lowest(t.pending - Sanitize(m));
      var fatal := FatalUnder(t, Sanitize(m));
      && low.Some?
      && (t2.alive <==> !fatal)
      && (|t2.frames| == |t.frames| + 1 <==> !fatal && HandlerOf(t, low.value).Handle?)
      && (!fatal && !HandlerOf(t, low.value).Handle? ==> sig in t2.pending && sig in t2.mask)
  {
    var t1 := Step(t, TempMask(m, true));
    var low := Lowest(t.pending - Sanitize(m));
    assert sig in t.pending - Sanitize(m);
    assert low.value in t.pending - Sanitize(m) && 1 <= low.value <= MAX_SIGNAL;
    assert forall k :: HandlerOf(t1, k) == HandlerOf(t, k);
    if !FatalUnder(t, Sanitize(m)) {
      assert !Fatal(t, low.value);
    }
  }

  function NewTask(): Task { Task({}, {}, map[], [], {}, false, true, false) }

  const IGNORED := Action(Ignore, {}, false, false)
  const CAUGHT := Action(Handle(1), {}, false, false)

  /** Signals 10 and 12 blocked and pending, 10 ignored, 12 caught. */
  function TwoPending(): Task {
    NewTask().(mask := {10, 12}, pending := {10, 12}, actions := map[10 := IGNORED, 12 := CAUGHT])
  }

  function ReadyOps(): seq<Op> {
    [Sigaction(10, IGNORED), Sigaction(12, CAUGHT), Procmask(0, {10, 12}), Send(10), Send(12)]
  }

  lemma RunSnoc(t: Task, ops: seq<Op>, op: Op)
    ensures Run(t, ops + [op]) == Step(Run(t, ops), op)
  {
    assert (ops + [op])[..|ops|] == ops;
  }

  lemma Ready()
    ensures Run(NewTask(), ReadyOps()) == TwoPending()
  {
    var t1 := Step(NewTask(), Sigaction(10, IGNORED));
    var t2 := Step(t1, Sigaction(12, CAUGHT));
    var t3 := Step(t2, Procmask(0, {10, 12}));
    var t4 := Step(t3, Send(10));
    var t5 := Step(t4, Send(12));
    assert Sanitize({}) == {} && Sanitize({10, 12}) == {10, 12};
    assert t2.actions == map[10 := IGNORED, 12 := CAUGHT] && t3.mask == {10, 12} && t5.pending == {10, 12};
    var ops := ReadyOps();
    assert ops[..4][..3] == ops[..3] && ops[..3][..2] == ops[..2] && ops[..2][..1] == ops[..1] && ops[..1][..0] == [];
    assert Run(NewTask(), ops[..1]) == t1 && Run(NewTask(), ops[..2]) == t2 && Run(NewTask(), ops[..3]) == t3;
    assert Run(NewTask(), ops[..4]) == t4;
  }

  /** From a new task: with both signals waiting, sigsuspend under an empty mask ends for 12 and returns without its
      handler. The ignored 10 was taken instead, and 12 is blocked and pending as before. */
  lemma HandlerLeftWaiting()
    ensures var t := Run(NewTask(), ReadyOps() + [TempMask({}, true)] + [SyscallReturn]);
      t.alive && t.frames == [] && t.pending == {12} && t.mask == {10, 12} && ActionOf(t, 12).handler == Handle(1)
  {
    Ready();
    RunSnoc(NewTask(), ReadyOps(), TempMask({}, true));
    RunSnoc(NewTask(), ReadyOps() + [TempMask({}, true)], SyscallReturn);
    var t1 := Step(TwoPending(), TempMask({}, true));
    assert t1.mask == {} && t1.pending - t1.mask == {10, 12};
    assert 10 in t1.pending - t1.mask;
    assert Lowest(t1.pending - t1.mask) == Some(10);
  }

  const MIXED_OPS: seq<Op> := [Sigaction(10, CAUGHT), Procmask(0, {10, 15}), Send(10), Send(15)]

  /** From a new task: 10 caught, 15 left alone, both blocked and pending. The signal that would run a handler is the
      lower one, and sigsuspend under an empty mask still ends the task for 15 without running it. */
  lemma FatalEndsWait()
    ensures var t := Run(NewTask(), MIXED_OPS);
      t.alive && t.pending == {10, 15} == t.mask && Lowest(t.pending - {}) == Some(10) && HandlerOf(t, 10).Handle?
    ensures var t := Run(NewTask(), MIXED_OPS + [TempMask({}, true)]);
      !t.alive && t.frames == [] && 10 in t.pending
  {
    var ops := MIXED_OPS;
    var t1 := Step(NewTask(), ops[0]);
    var t2 := Step(t1, ops[1]);
    var t3 := Step(t2, ops[2]);
    var t4 := Step(t3, ops[3]);
    assert Sanitize({}) == {} && Sanitize({} + {10, 15}) == {10, 15};
    assert t4.actions == map[10 := CAUGHT] && t4.mask == {10, 15} && t4.pending == {10, 15};
    assert ops[..3][..2] == ops[..2] && ops[..2][..1] == ops[..1] && ops[..1][..0] == [];
    assert Run(NewTask(), ops[..1]) == t1 && Run(NewTask(), ops[..2]) == t2 && Run(NewTask(), ops[..3]) == t3;
    RunSnoc(NewTask(), ops, TempMask({}, true));
    assert 10 in t4.pending - {} && Lowest(t4.pending - {}) == Some(10);
    assert 15 in t4.pending - {} && Fatal(t4, 15);
  }

  /** sigtimedwait takes the lowest pending signal of its set, blocked or not, and runs nothing. */
  lemma TimedWaitTakesLowest(t: Task, s: Mask)
    requires t.alive && forall k :: k in t.pending ==> 1 <= k <= MAX_SIGNAL
    ensures var t' := Step(t, TimedWait(s));
      && t' == t.(pending := t'.pending)
      && (if t.pending !! s then t'.pending == t.pending
          else exists sig ::
                 && sig in t.pending * s && (forall k :: k in t.pending * s ==> sig <= k)
                 && t'.pending == t.pending - {sig})
  {
    if !(t.pending !! s) {
      var w :| w in t.pending && w in s;
      assert w in t.pending * s;
      var sig := Lowest(t.pending * s).value;
      assert sig in t.pending * s && forall k :: k in t.pending * s ==> sig <= k;
    }
  }
}
