/** Which notifications reach the `progress` callbacks of a Deferred.  Notifications sent before the
    deciding call are numbered from zero, by their arguments. */
module Notifications {
  import opened Options
  import opened Callbacks
  import CallbackRuns
  import opened Deferred
  import opened DeferredRuns

  const PLAIN := FlagsOf(Progress)

  /** The user's callbacks among the first `n` of the list have had the current notification. */
  ghost predicate Told(s: State, log: seq<Call>, n: int) {
    s.list.Some? && s.memory.Some? ==>
      forall j | 0 <= j < n && j < |s.list.value| && s.list.value[j].User? ::
        Call(s.list.value[j], s.memory.value) in log
  }

  /** Between operations: calls have come in the order of the notifications, those not yet begun are
      queued, and the ones begun have reached all users' callbacks so far. */
  ghost predicate Kept(s: State, sent: nat, log: seq<Call>) {
    && s.Valid() && (s.firing ==> s.list.Some?) && (s.memory.None? ==> log == [])
    && CallbackRuns.InOrder(s, sent, log) && Told(s, log, if s.firing then s.index + 1 else s.Length())
  }

  /** The list has stopped at a call that is not in the log yet. */
  ghost predicate AtCall(s: State, call: Call, sent: nat, log: seq<Call>) {
    && s.Valid() && s.firing && s.list.Some? && 0 <= s.index && s.memory.Some?
    && call == Call(s.list.value[s.index], s.memory.value)
    && CallbackRuns.InOrder(s, sent, log) && Told(s, log, s.index)
  }

  ghost predicate KeptAfter(o: Outcome, sent: nat, log: seq<Call>) {
    if o.call.Some? then AtCall(o.state, o.call.value, sent, log) else Kept(o.state, sent, log)
  }

  // ------------------------------------------------------------------ the list

  lemma {:induction false} ContinueKept(s: State, sent: nat, log: seq<Call>)
    requires s.Looping() && s.list.Some? && s.memory.Some? && s.index < |s.list.value|
    requires CallbackRuns.InOrder(s, sent, log) && Told(s, log, s.index + 1)
    ensures KeptAfter(Continue(PLAIN, s), sent, log)
    decreases |s.queue|
  {
    if s.index + 1 >= |s.list.value| && s.queue != [] {
      ContinueKept(s.(index := -1, memory := Some(s.queue[0]), queue := s.queue[1..]), sent, log);
    }
  }

  lemma FireKept(s: State, sent: nat, log: seq<Call>, args: Args)
    requires Kept(s, sent, log) && (!s.locked ==> args == sent)
    ensures var o := AfterFire(PLAIN, s, args);
            KeptAfter(o, if s.locked then sent else sent + 1, log)
  {
    if !s.locked && !s.firing {
      assert [args][1..] == [];
      ContinueKept(s.(fired := true, firing := true, memory := Some(args), queue := []), sent + 1, log);
    }
  }

  lemma AddKept(s: State, sent: nat, log: seq<Call>, fn: Callback)
    requires Kept(s, sent, log)
    ensures var o := AfterAdd(PLAIN, s, [fn]); KeptAfter(o, sent, log)
  {
    if s.list.Some? {
      PushedPlain(s.list.value, [fn]);
      if s.memory.Some? && !s.firing {
        assert [s.memory.value][1..] == [];
        ContinueKept(s.(list := Some(s.list.value + [fn]), index := |s.list.value| - 1, fired := true, firing := true),
                     sent, log);
      }
    }
  }

  lemma UserCalled(s: State, call: Call, sent: nat, log: seq<Call>)
    requires AtCall(s, call, sent, log)
    ensures Kept(s, sent, log + [call])
  {
    CallbackRuns.LogOne(log, call);
  }

  lemma WiredReturns(s: State, call: Call, sent: nat, log: seq<Call>)
    requires AtCall(s, call, sent, log) && call.fn.Wired?
    ensures KeptAfter(AfterReturn(PLAIN, s, false), sent, log)
  {
    ContinueKept(s, sent, log);
  }

  lemma LockKept(s: State, sent: nat, log: seq<Call>)
    requires Kept(s, sent, log)
    ensures Kept(AfterLock(s), sent, log)
  {
  }

  // ------------------------------------------------------------------ the wiring

  lemma {:induction false} DrainKept(w: Wiring, call: Option<Call>, sent: nat)
    requires w.Valid() && (call.Some? ==> w.main.progress.firing && w.main.progress.list.Some?)
    requires KeptAfter(Outcome(w.main.progress, call), sent, CallsOf(w.log, Progress))
    ensures var v := Drain(w, Progress, call); Kept(v.main.progress, sent, CallsOf(v.log, Progress))
    decreases call.Some?, |w.main.progress.queue|, w.main.progress.Length() - w.main.progress.index
  {
    if call.Some? {
      var s, log := w.main.progress, CallsOf(w.log, Progress);
      match call.value.fn
      case User(_) =>
        CallsOfOne(w.log, Event(Progress, call.value), Progress);
        UserCalled(s, call.value, sent, log);
      case Wired(i) =>
        var v := Effect(w, Progress, i, call.value.args);
        var next := AfterReturn(PLAIN, s, false);
        ContinueMoves(PLAIN, s);
        WiredReturns(s, call.value, sent, log);
        DrainKept(v.(main := v.main.Set(Progress, next.state)), next.call, sent);
    }
  }

  ghost predicate LockedAtMost(v: Wiring, w: Wiring)
    requires w.Valid()
  {
    v.main.progress == w.main.progress || v.main.progress == AfterLock(w.main.progress)
  }

  lemma EffectOther(w: Wiring, k: Kind, i: nat, args: Args)
    requires k != Progress && w.Valid()
    ensures LockedAtMost(Effect(w, k, i, args), w)
  {
  }

  /** Resolving or rejecting can only lock the progress list. */
  lemma {:induction false} DrainOther(w: Wiring, k: Kind, call: Option<Call>)
    requires k != Progress && w.Valid() && (call.Some? ==> w.main.Get(k).firing && w.main.Get(k).list.Some?)
    ensures var v := Drain(w, k, call);
            LockedAtMost(v, w) && CallsOf(v.log, Progress) == CallsOf(w.log, Progress)
    decreases call.Some?, |w.main.Get(k).queue|, w.main.Get(k).Length() - w.main.Get(k).index
  {
    if call.Some? {
      match call.value.fn
      case User(_) => CallsOfOne(w.log, Event(k, call.value), Progress);
      case Wired(i) =>
        var v := Effect(w, k, i, call.value.args);
        var next := AfterReturn(FlagsOf(k), v.main.Get(k), false);
        ContinueMoves(FlagsOf(k), v.main.Get(k));
        EffectOther(w, k, i, call.value.args);
        DrainOther(v.(main := v.main.Set(k, next.state)), k, next.call);
    }
  }

  lemma StepOther(w: Wiring, op: Op)
    requires w.Valid() && op.kind != Progress
    ensures var v := Step(w, op);
            LockedAtMost(v, w) && CallsOf(v.log, Progress) == CallsOf(w.log, Progress)
  {
    var k, f := op.kind, FlagsOf(op.kind);
    match op
    case Settle(_, args) =>
      var o := AfterFire(f, w.main.Get(k), args);
      DrainOther(w.(main := w.main.Set(k, o.state)), k, o.call);
    case Register(_, id) =>
      var o := AfterAdd(f, w.main.Get(k), [User(id)]);
      DrainOther(w.(main := w.main.Set(k, o.state)), k, o.call);
    case Then(_, id) => AddStops(f, w.handled.Get(k), [User(id)]);
    case Return(_) =>
      if w.main.Get(k).firing {
        var o := AfterReturn(f, w.main.Get(k), false);
        DrainOther(w.(main := w.main.Set(k, o.state)), k, o.call);
      }
  }

  /** The wired callbacks of the deciding call do lock it. */
  lemma {:induction false} StagesLock(w: Wiring, k: Kind, i: nat, args: Args, fns: seq<Callback>,
                                      handlers: seq<Callback>)
    requires k != Progress && i <= 3 && Stage(w, k, i, args, fns, handlers)
    ensures Drain(w, k, Some(Call(Wired(i), args))).main.progress == AfterLock(w.main.progress)
    decreases 3 - i
  {
    var v := Next(w, k, i, args);
    StageStep(w, k, i, args, fns, handlers);
    NextWired(w, k, i, args, fns);
    if i < 3 {
      StagesLock(v, k, i + 1, args, fns, handlers);
    } else {
      DrainOther(v, k, Some(Call(Wired(4), args)));
    }
  }

  lemma DecidingLocks(w: Wiring, op: Op, ops: seq<Op>)
    requires w.Valid() && op.Settle? && op.kind != Progress && Inv(w, None, ops)
    ensures Step(w, op).main.progress == AfterLock(w.main.progress)
  {
    var k, fns := op.kind, Registered(ops, op.kind);
    var o := AfterFire(FlagsOf(k), w.main.Get(k), op.args);
    assert (WIRED + fns)[0] == Wired(0);
    assert o ==
      Outcome(State(Some(WIRED + fns), [], 0, Some(op.args), true, true, true), Some(Call(Wired(0), op.args)));
    StagesLock(w.(main := w.main.Set(k, o.state)), k, 0, op.args, fns, Handlers(ops, k));
  }

  // ------------------------------------------------------------------ the lock

  lemma {:induction false} ContinueLocked(s: State)
    requires s.Looping()
    ensures Continue(PLAIN, s).state.locked == s.locked
    decreases |s.queue|
  {
    if s.index + 1 >= s.Length() && s.queue != [] {
      ContinueLocked(s.(index := -1, memory := Some(s.queue[0]), queue := s.queue[1..]));
    }
  }

  lemma {:induction false} DrainLocked(w: Wiring, call: Option<Call>)
    requires w.Valid() && (call.Some? ==> w.main.progress.firing && w.main.progress.list.Some?)
    ensures Drain(w, Progress, call).main.progress.locked == w.main.progress.locked
    decreases call.Some?, |w.main.progress.queue|, w.main.progress.Length() - w.main.progress.index
  {
    if call.Some? && call.value.fn.Wired? {
      var v := Effect(w, Progress, call.value.fn.index, call.value.args);
      var next := AfterReturn(PLAIN, w.main.progress, false);
      ContinueMoves(PLAIN, w.main.progress);
      ContinueLocked(w.main.progress);
      DrainLocked(v.(main := v.main.Set(Progress, next.state)), next.call);
    }
  }

  /** Operations of the progress list never lock it. */
  lemma StepLocked(w: Wiring, op: Op)
    requires w.Valid() && op.kind == Progress
    ensures Step(w, op).main.progress.locked == w.main.progress.locked
  {
    var s := w.main.progress;
    match op
    case Settle(_, args) =>
      if !s.locked && !s.firing {
        ContinueLocked(s.(fired := true, firing := true, memory := Some(args), queue := []));
      }
      var o := AfterFire(PLAIN, s, args);
      DrainLocked(w.(main := w.main.Set(Progress, o.state)), o.call);
    case Register(_, id) =>
      if s.list.Some? && s.memory.Some? && !s.firing {
        AddKeepsIndex(false, s.list.value, [User(id)]);
        ContinueLocked(s.(list := Some(Pushed(false, s.list.value, [User(id)])), index := |s.list.value| - 1,
                          fired := true, firing := true, queue := []));
      }
      var o := AfterAdd(PLAIN, s, [User(id)]);
      DrainLocked(w.(main := w.main.Set(Progress, o.state)), o.call);
    case Then(_, id) => AddStops(PLAIN, w.handled.progress, [User(id)]);
    case Return(_) =>
      if s.firing {
        ContinueLocked(s);
        var o := AfterReturn(PLAIN, s, false);
        DrainLocked(w.(main := w.main.Set(Progress, o.state)), o.call);
      }
  }

  /** Other operations on a pending Deferred leave the progress list alone. */
  lemma StepPending(w: Wiring, op: Op, ops: seq<Op>)
    requires w.Valid() && op.kind != Progress && !op.Settle? && Inv(w, None, ops)
    ensures Step(w, op).main.progress == w.main.progress
  {
    if op.Then? { AddStops(FlagsOf(op.kind), w.handled.Get(op.kind), [User(op.id)]); }
  }

  /** The progress list is locked exactly when the Deferred has been resolved or rejected. */
  lemma {:induction false} LockedWhenDecided(ops: seq<Op>)
    ensures Run(ops).main.progress.locked <==> Deciding(ops).Some?
  {
    if ops != [] {
      var init, op := ops[..|ops| - 1], ops[|ops| - 1];
      var w := Run(init);
      LockedWhenDecided(init);
      if op.kind == Progress {
        StepLocked(w, op);
      } else if Deciding(init).Some? {
        StepOther(w, op);
      } else {
        RunInvariant(init);
        if op.Settle? { DecidingLocks(w, op, init); } else { StepPending(w, op, init); }
      }
    }
  }

  /** A notification after the deciding call does nothing at all. */
  lemma LateNotification(ops: seq<Op>, args: Args)
    ensures Deciding(ops).Some? ==> Run(ops + [Settle(Progress, args)]) == Run(ops)
  {
    assert (ops + [Settle(Progress, args)])[..|ops|] == ops;
    LockedWhenDecided(ops);
  }

  // ------------------------------------------------------------------ all runs

  predicate Notifies(op: Op) { op.Settle? && op.kind == Progress }

  /** How many notifications were sent before the deciding call. */
  function Sent(ops: seq<Op>): nat {
    if ops == [] then 0
    else
      var init := ops[..|ops| - 1];
      Sent(init) + if Notifies(ops[|ops| - 1]) && Deciding(init).None? then 1 else 0
  }

  /** The arguments of those notifications are their numbers. */
  ghost predicate Numbered(ops: seq<Op>) {
    forall i | 0 <= i < |ops| && Notifies(ops[i]) && Deciding(ops[..i]).None? :: ops[i].args == Sent(ops[..i])
  }

  ghost predicate Noted(w: Wiring, sent: nat) {
    Kept(w.main.progress, sent, CallsOf(w.log, Progress))
  }

  function Counted(w: Wiring, op: Op): nat {
    if Notifies(op) && !w.main.progress.locked then 1 else 0
  }

  /** The progress list has moved on to where `o` says. */
  lemma MovedNoted(w: Wiring, o: Outcome, sent: nat)
    requires w.Valid() && o.state.Valid() && (o.call.Some? ==> o.state.firing && o.state.list.Some?)
    requires KeptAfter(o, sent, CallsOf(w.log, Progress))
    ensures Noted(Drain(w.(main := w.main.Set(Progress, o.state)), Progress, o.call), sent)
  {
    DrainKept(w.(main := w.main.Set(Progress, o.state)), o.call, sent);
  }

  lemma NotifyNoted(w: Wiring, args: Args, sent: nat)
    requires w.Valid() && Noted(w, sent) && (!w.main.progress.locked ==> args == sent)
    ensures Noted(Step(w, Settle(Progress, args)), sent + Counted(w, Settle(Progress, args)))
  {
    FireKept(w.main.progress, sent, CallsOf(w.log, Progress), args);
    MovedNoted(w, AfterFire(PLAIN, w.main.progress, args), sent + Counted(w, Settle(Progress, args)));
  }

  lemma RegisterNoted(w: Wiring, id: nat, sent: nat)
    requires w.Valid() && Noted(w, sent)
    ensures Noted(Step(w, Register(Progress, id)), sent)
  {
    AddKept(w.main.progress, sent, CallsOf(w.log, Progress), User(id));
    MovedNoted(w, AfterAdd(PLAIN, w.main.progress, [User(id)]), sent);
  }

  lemma ReturnNoted(w: Wiring, sent: nat)
    requires w.Valid() && Noted(w, sent)
    ensures Noted(Step(w, Return(Progress)), sent)
  {
    if w.main.progress.firing {
      ContinueKept(w.main.progress, sent, CallsOf(w.log, Progress));
      MovedNoted(w, AfterReturn(PLAIN, w.main.progress, false), sent);
    }
  }

  lemma OtherNoted(w: Wiring, op: Op, sent: nat)
    requires w.Valid() && op.kind != Progress && Noted(w, sent)
    ensures Noted(Step(w, op), sent)
  {
    LockKept(w.main.progress, sent, CallsOf(w.log, Progress));
    StepOther(w, op);
  }

  lemma NotedStep(w: Wiring, op: Op, sent: nat)
    requires w.Valid() && Noted(w, sent)
    requires Notifies(op) && !w.main.progress.locked ==> op.args == sent
    ensures Noted(Step(w, op), sent + Counted(w, op))
  {
    if op.kind != Progress {
      OtherNoted(w, op, sent);
    } else {
      match op
      case Settle(_, args) => NotifyNoted(w, args, sent);
      case Register(_, id) => RegisterNoted(w, id, sent);
      case Then(_, id) => AddStops(PLAIN, w.handled.progress, [User(id)]);
      case Return(_) => ReturnNoted(w, sent);
    }
  }

  lemma NumberedBefore(ops: seq<Op>)
    requires ops != [] && Numbered(ops)
    ensures var init, op := ops[..|ops| - 1], ops[|ops| - 1];
            && Numbered(init) && Run(ops) == Step(Run(init), op) && Sent(ops) == Sent(init) + Counted(Run(init), op)
            && (Notifies(op) && !Run(init).main.progress.locked ==> op.args == Sent(init))
  {
    assert forall i | 0 <= i < |ops| - 1 :: ops[..|ops| - 1][..i] == ops[..i];
    LockedWhenDecided(ops[..|ops| - 1]);
  }

  lemma StartNoted()
    ensures Noted(START, 0)
  {
  }

  lemma {:induction false} RunsNoted(ops: seq<Op>)
    requires Numbered(ops)
    ensures Noted(Run(ops), Sent(ops))
  {
    if ops == [] {
      StartNoted();
    } else {
      var init, op := ops[..|ops| - 1], ops[|ops| - 1];
      NumberedBefore(ops);
      var w, sent := Run(init), Sent(init);
      assert Noted(w, sent) by { RunsNoted(init); }
      assert Noted(Step(w, op), sent + Counted(w, op)) by { NotedStep(w, op, sent); }
    }
  }

  lemma KeptMeans(s: State, sent: nat, calls: seq<Call>)
    requires Kept(s, sent, calls)
    ensures forall i, j | 0 <= i < j < |calls| :: calls[i].args <= calls[j].args
    ensures forall i | 0 <= i < |calls| :: calls[i].args < sent
    ensures !s.locked && sent > 0 ==> s.memory.Some? && s.memory.value + |s.queue| == sent - 1
    ensures !s.firing && s.memory.Some? && s.list.Some? ==>
      forall fn <- s.list.value :: fn.User? ==> Call(fn, s.memory.value) in calls
  {
    CallbackRuns.AscendingIsSorted(calls);
  }

  /** Notifications reach the `progress` callbacks in the order in which they were sent, and only those
      sent before the deciding call do.  Before that call none is lost: the last one begun and the
      queue are the rest of those sent.  When nothing fires, each callback has had the last one. */
  lemma {:induction false} NotificationsInOrder(ops: seq<Op>)
    requires Numbered(ops)
    ensures var s, calls := Run(ops).main.progress, CallsOf(Run(ops).log, Progress);
            && (forall i, j | 0 <= i < j < |calls| :: calls[i].args <= calls[j].args)
            && (forall i | 0 <= i < |calls| :: calls[i].args < Sent(ops))
            && (Deciding(ops).None? && Sent(ops) > 0 ==>
                 s.memory.Some? && s.memory.value + |s.queue| == Sent(ops) - 1)
            && (!s.firing && s.memory.Some? && s.list.Some? ==>
                 forall fn <- s.list.value :: fn.User? ==> Call(fn, s.memory.value) in calls)
  {
    RunsNoted(ops);
    LockedWhenDecided(ops);
    KeptMeans(Run(ops).main.progress, Sent(ops), CallsOf(Run(ops).log, Progress));
  }
}
