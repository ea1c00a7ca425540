/** What notifications do with the handlers that `then` has registered for them: each is scheduled. */
module ProgressHandlers {
  import opened Options
  import opened Callbacks
  import CallbackRuns
  import opened Deferred
  import opened DeferredRuns
  import opened Notifications

  /** A list that takes notifications, while nothing of it is being called. */
  ghost predicate Open(s: State, list: seq<Callback>) {
    s.list == Some(list) && !s.locked && !s.firing && s.Valid()
  }

  /** From its current callback on, the list calls all callbacks to its end. */
  lemma {:induction false} HandlersPass(s: State, args: Args)
    requires s.Valid() && s.firing && s.list.Some? && 0 <= s.index && !s.locked
    requires s.memory == Some(args) && s.queue == []
    ensures var d := DrainHandled(PLAIN, Outcome(s, Some(Call(s.list.value[s.index], args))));
            d.calls == CallsWith(s.list.value[s.index..], args) && d.state == s.(index := -1, firing := false)
    decreases |s.list.value| - s.index
  {
    var list, i := s.list.value, s.index;
    assert CallsWith(list[i..], args) == [Call(list[i], args)] + CallsWith(list[i + 1..], args);
    if i + 1 < |list| {
      HandlersPass(s.(index := i + 1), args);
    } else {
      assert AfterReturn(PLAIN, s, false) == Outcome(s.(index := -1, firing := false), None);
      assert list[i + 1..] == [];
    }
  }

  /** A notification is handed to all handlers. */
  lemma FireHandlers(s: State, list: seq<Callback>, args: Args)
    requires Open(s, list)
    ensures var o := AfterFire(PLAIN, s, args);
            && Stopped(o) && DrainHandled(PLAIN, o).calls == CallsWith(list, args)
            && Open(DrainHandled(PLAIN, o).state, list)
  {
    BeginStops(PLAIN, s, args);
    assert [args][1..] == [];
    if list != [] {
      HandlersPass(s.(fired := true, firing := true, memory := Some(args), index := 0, queue := []), args);
      assert list[0..] == list;
    }
  }

  /** A handler registered later is handed the last one. */
  lemma AddHandler(s: State, list: seq<Callback>, fn: Callback)
    requires Open(s, list)
    ensures var o := AfterAdd(PLAIN, s, [fn]);
            && Stopped(o) && Open(DrainHandled(PLAIN, o).state, list + [fn])
            && DrainHandled(PLAIN, o).calls == if s.memory.Some? then [Call(fn, s.memory.value)] else []
  {
    AddStops(PLAIN, s, [fn]);
    PushedPlain(list, [fn]);
    if s.memory.Some? {
      var args := s.memory.value;
      assert [args][1..] == [];
      HandlersPass(s.(list := Some(list + [fn]), fired := true, firing := true, index := |list|, queue := []), args);
      assert (list + [fn])[|list|..] == [fn];
      assert CallsWith([fn], args) == [Call(fn, args)];
    }
  }

  // ------------------------------------------------------------------ all runs

  lemma {:induction false} ContinueKeeps(s: State)
    requires s.Looping() && !s.locked
    ensures Continue(PLAIN, s).state.list == s.list && !Continue(PLAIN, s).state.locked
  {
    CallbackRuns.ContinueKeepsList(PLAIN, s);
    ContinueLocked(s);
  }

  /** Running on, the progress list and the list of handlers keep their callbacks. */
  lemma {:induction false} DrainKeeps(w: Wiring, call: Option<Call>, handlers: seq<Callback>)
    requires w.Valid() && (call.Some? ==> w.main.progress.firing && w.main.progress.list.Some?)
    requires !w.main.progress.locked && Open(w.handled.progress, handlers)
    ensures var v := Drain(w, Progress, call);
            v.main.progress.list == w.main.progress.list && Open(v.handled.progress, handlers)
    decreases call.Some?, |w.main.progress.queue|, w.main.progress.Length() - w.main.progress.index
  {
    if call.Some? && call.value.fn.Wired? {
      var v := Effect(w, Progress, call.value.fn.index, call.value.args);
      FireHandlers(w.handled.progress, handlers, call.value.args);
      var next := AfterReturn(PLAIN, w.main.progress, false);
      ContinueMoves(PLAIN, w.main.progress);
      ContinueKeeps(w.main.progress);
      DrainKeeps(v.(main := v.main.Set(Progress, next.state)), next.call, handlers);
    }
  }

  /** While nothing has been decided, the two lists hold what has been registered. */
  ghost predicate Listed(w: Wiring, fns: seq<Callback>, handlers: seq<Callback>) {
    w.main.progress.list == Some([Wired(5)] + fns) && !w.main.progress.locked && Open(w.handled.progress, handlers)
  }

  lemma ListedStep(w: Wiring, op: Op, fns: seq<Callback>, handlers: seq<Callback>)
    requires w.Valid() && op.kind == Progress && Listed(w, fns, handlers)
    ensures Listed(Step(w, op), Plus(fns, op.Register?, op), Plus(handlers, op.Then?, op))
  {
    var s := w.main.progress;
    StepLocked(w, op);
    match op
    case Settle(_, args) =>
      var o := AfterFire(PLAIN, s, args);
      if !s.firing {
        assert [args][1..] == [];
        ContinueKeeps(s.(fired := true, firing := true, memory := Some(args), queue := []));
      }
      DrainKeeps(w.(main := w.main.Set(Progress, o.state)), o.call, handlers);
    case Register(_, id) =>
      var o := AfterAdd(PLAIN, s, [User(id)]);
      var longer := s.list.value + [User(id)];
      PushedPlain(s.list.value, [User(id)]);
      assert longer == [Wired(5)] + (fns + [User(id)]);
      if s.memory.Some? && !s.firing {
        assert [s.memory.value][1..] == [];
        ContinueKeeps(s.(list := Some(longer), index := |s.list.value| - 1, fired := true, firing := true));
      }
      DrainKeeps(w.(main := w.main.Set(Progress, o.state)), o.call, handlers);
    case Then(_, id) => AddHandler(w.handled.progress, handlers, User(id));
    case Return(_) =>
      if s.firing {
        ContinueKeeps(s);
        var o := AfterReturn(PLAIN, s, false);
        DrainKeeps(w.(main := w.main.Set(Progress, o.state)), o.call, handlers);
      }
  }

  /** Other operations on a pending Deferred leave the handlers of notifications alone. */
  lemma OtherHandlers(w: Wiring, op: Op, ops: seq<Op>)
    requires w.Valid() && op.kind != Progress && !op.Settle? && Inv(w, None, ops)
    ensures Step(w, op).handled.progress == w.handled.progress
  {
    if op.Then? { AddStops(FlagsOf(op.kind), w.handled.Get(op.kind), [User(op.id)]); }
  }

  lemma {:induction false} PendingListed(ops: seq<Op>)
    requires Deciding(ops).None?
    ensures Listed(Run(ops), Registered(ops, Progress), Handlers(ops, Progress))
  {
    if ops == [] {
      assert [Wired(5)] + [] == [Wired(5)];
    } else {
      var init, op := ops[..|ops| - 1], ops[|ops| - 1];
      PendingListed(init);
      if op.kind == Progress {
        ListedStep(Run(init), op, Registered(init, Progress), Handlers(init, Progress));
      } else {
        RunInvariant(init);
        StepPending(Run(init), op, init);
        OtherHandlers(Run(init), op, init);
      }
    }
  }

  /** A notification to a pending Deferred, sent while no other is being delivered, schedules all handlers
      that `then` has registered for notifications, in order, once each. */
  lemma NotificationScheduled(ops: seq<Op>, args: Args)
    requires Deciding(ops).None? && !Run(ops).main.progress.firing
    ensures CallsOf(Run(ops + [Settle(Progress, args)]).tasks, Progress) ==
            CallsOf(Run(ops).tasks, Progress) + CallsWith(Handlers(ops, Progress), args)
  {
    var w, s := Run(ops), Run(ops).main.progress;
    assert (ops + [Settle(Progress, args)])[..|ops|] == ops;
    PendingListed(ops);
    var t := s.(fired := true, firing := true, memory := Some(args), index := 0, queue := []);
    assert [args][1..] == [] && AfterFire(PLAIN, s, args) == Outcome(t, Some(Call(Wired(5), args)));
    FireHandlers(w.handled.progress, Handlers(ops, Progress), args);
    CallsOfTagged(w.tasks, Progress, CallsWith(Handlers(ops, Progress), args), Progress);
    RegisteredAreUsers(ops, Progress);
    WiredOnce(w.(main := w.main.Set(Progress, t)), args, Registered(ops, Progress));
  }

  /** The wired callback is followed by users' callbacks only. */
  lemma WiredOnce(w: Wiring, args: Args, fns: seq<Callback>)
    requires w.Valid() && forall i | 0 <= i < |fns| :: fns[i].User?
    requires var s := w.main.progress;
             s.list == Some([Wired(5)] + fns) && s.firing && s.index == 0 && s.queue == [] && s.memory == Some(args)
    ensures Drain(w, Progress, Some(Call(Wired(5), args))).tasks == Effect(w, Progress, 5, args).tasks
  {
    var s := w.main.progress;
    DrainWired(w, Progress, 5, args);
    if fns != [] {
      assert s.list.value[1] == fns[0];
    }
  }

  /** A handler registered with a pending Deferred is handed the last notification begun, if any. */
  lemma HandlerCatchesUp(ops: seq<Op>, id: nat)
    requires Deciding(ops).None?
    ensures var m := Run(ops).handled.progress.memory;
            CallsOf(Run(ops + [Then(Progress, id)]).tasks, Progress) ==
            CallsOf(Run(ops).tasks, Progress) + if m.Some? then [Call(User(id), m.value)] else []
  {
    var w := Run(ops);
    assert (ops + [Then(Progress, id)])[..|ops|] == ops;
    PendingListed(ops);
    AddHandler(w.handled.progress, Handlers(ops, Progress), User(id));
    var d := DrainHandled(PLAIN, AfterAdd(PLAIN, w.handled.progress, [User(id)]));
    CallsOfTagged(w.tasks, Progress, d.calls, Progress);
  }
}
