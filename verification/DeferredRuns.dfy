/** What every run of a Deferred guarantees, whatever its callbacks do while they run. */
module DeferredRuns {
  import opened Options
  import opened Callbacks
  import opened Deferred

  datatype Decision = Decision(kind: Kind, args: Args)

  // ------------------------------------------------------------------ what a run asks for

  /** The first resolve or reject of a run. */
  function Deciding(ops: seq<Op>): (d: Option<Decision>)
    ensures d.Some? ==> d.value.kind != Progress
  {
    if ops == [] then None
    else
      var before, op := Deciding(ops[..|ops| - 1]), ops[|ops| - 1];
      if before.None? && op.Settle? && op.kind != Progress then Some(Decision(op.kind, op.args)) else before
  }

  function Plus(fns: seq<Callback>, added: bool, op: Op): seq<Callback> {
    if added && (op.Register? || op.Then?) then fns + [User(op.id)] else fns
  }

  /** The callbacks registered in list `k`, in order. */
  function Registered(ops: seq<Op>, k: Kind): seq<Callback> {
    if ops == [] then []
    else
      var op := ops[|ops| - 1];
      Plus(Registered(ops[..|ops| - 1], k), op.Register? && op.kind == k, op)
  }

  /** The handlers that `then` has registered for outcome `k`, in order. */
  function Handlers(ops: seq<Op>, k: Kind): seq<Callback> {
    if ops == [] then []
    else
      var op := ops[|ops| - 1];
      Plus(Handlers(ops[..|ops| - 1], k), op.Then? && op.kind == k, op)
  }

  function CallsWith(fns: seq<Callback>, args: Args): (calls: seq<Call>)
    ensures |calls| == |fns| && forall i | 0 <= i < |fns| :: calls[i] == Call(fns[i], args)
  {
    seq(|fns|, i requires 0 <= i < |fns| => Call(fns[i], args))
  }

  function CallsOf(events: seq<Event>, k: Kind): seq<Call> {
    if events == [] then []
    else
      var e := events[|events| - 1];
      CallsOf(events[..|events| - 1], k) + if e.kind == k then [e.call] else []
  }

  lemma {:induction false} CallsOfTagged(events: seq<Event>, k: Kind, calls: seq<Call>, j: Kind)
    ensures CallsOf(events + Tagged(k, calls), j) == CallsOf(events, j) + if j == k then calls else []
  {
    var n := |calls|;
    if n == 0 {
      assert events + Tagged(k, calls) == events;
    } else {
      var init, last := calls[..n - 1], calls[n - 1];
      CallsOfTagged(events, k, init, j);
      TaggedLast(events, k, init, last);
      CallsOfOne(events + Tagged(k, init), Event(k, last), j);
      assert calls == init + [last];
      assert CallsOf(events, j) + (init + [last]) == CallsOf(events, j) + init + [last];
    }
  }

  lemma TaggedLast(events: seq<Event>, k: Kind, init: seq<Call>, last: Call)
    ensures events + Tagged(k, init + [last]) == events + Tagged(k, init) + [Event(k, last)]
  {
  }

  lemma CallsOfOne(events: seq<Event>, e: Event, j: Kind)
    ensures CallsOf(events + [e], j) == CallsOf(events, j) + if j == e.kind then [e.call] else []
  {
    assert (events + [e])[..|events|] == events;
  }

  // ------------------------------------------------------------------ the invariant

  function StatusOf(k: Kind): Status {
    if k == Done then Resolved else Rejected
  }

  ghost predicate Undecided(w: Wiring, k: Kind, fns: seq<Callback>, handlers: seq<Callback>) {
    && w.main.Get(k) == INITIAL.(list := Some(WIRED + fns))
    && w.handled.Get(k) == INITIAL.(list := Some(handlers))
    && CallsOf(w.log, k) == [] && CallsOf(w.tasks, k) == []
  }

  /** A list that is neither firing nor disabled, and replays `args` to whatever is added. */
  ghost predicate Replays(s: State, args: Args) {
    s.memory == Some(args) && s.queue == [] && s.locked && s.list == Some([]) && s.index == -1 && !s.firing
  }

  ghost predicate Running(s: State, args: Args) {
    && s.memory == Some(args) && s.queue == [] && s.locked && s.firing
    && s.list.Some? && 0 <= s.index < |s.list.value|
  }

  ghost predicate Won(w: Wiring, k: Kind, args: Args, fns: seq<Callback>, handlers: seq<Callback>) {
    && (Replays(w.main.Get(k), args) || Running(w.main.Get(k), args))
    && CallsOf(w.log, k) + CallsWith(w.main.Get(k).Unrun(), args) == CallsWith(fns, args)
    && Replays(w.handled.Get(k), args)
    && CallsOf(w.tasks, k) == CallsWith(handlers, args)
  }

  ghost predicate Off(s: State) {
    s.list.None? && s.memory.None? && s.queue == [] && s.locked && s.index == -1 && !s.firing
  }

  ghost predicate Lost(w: Wiring, k: Kind) {
    Off(w.main.Get(k)) && Off(w.handled.Get(k)) && CallsOf(w.log, k) == [] && CallsOf(w.tasks, k) == []
  }

  ghost predicate Inv(w: Wiring, d: Option<Decision>, ops: seq<Op>) {
    match d
    case None =>
      && w.status == Pending
      && Undecided(w, Done, Registered(ops, Done), Handlers(ops, Done))
      && Undecided(w, Fail, Registered(ops, Fail), Handlers(ops, Fail))
    case Some(d) =>
      && w.status == StatusOf(d.kind)
      && Won(w, d.kind, d.args, Registered(ops, d.kind), Handlers(ops, d.kind))
      && Lost(w, Opposite(d.kind))
  }

  // ------------------------------------------------------------------ progress stays apart

  /** The two wirings differ at most in what concerns progress. */
  ghost predicate SameOutcome(v: Wiring, w: Wiring) {
    && v.status == w.status
    && v.main.done == w.main.done && v.main.fail == w.main.fail
    && v.handled.done == w.handled.done && v.handled.fail == w.handled.fail
    && CallsOf(v.log, Done) == CallsOf(w.log, Done) && CallsOf(v.log, Fail) == CallsOf(w.log, Fail)
    && CallsOf(v.tasks, Done) == CallsOf(w.tasks, Done) && CallsOf(v.tasks, Fail) == CallsOf(w.tasks, Fail)
  }

  lemma FireHandledProgress(w: Wiring, o: Outcome)
    requires w.Valid() && Stopped(o)
    ensures SameOutcome(FireHandled(w, Progress, o), w)
  {
    var calls := DrainHandled(FlagsOf(Progress), o).calls;
    CallsOfTagged(w.tasks, Progress, calls, Done);
    CallsOfTagged(w.tasks, Progress, calls, Fail);
  }

  lemma {:induction false} DrainProgress(w: Wiring, call: Option<Call>)
    requires w.Valid() && (call.Some? ==> w.main.progress.firing && w.main.progress.list.Some?)
    ensures SameOutcome(Drain(w, Progress, call), w)
    decreases call.Some?, |w.main.progress.queue|, w.main.progress.Length() - w.main.progress.index
  {
    if call.Some? {
      match call.value.fn
      case User(_) =>
        CallsOfOne(w.log, Event(Progress, call.value), Done);
        CallsOfOne(w.log, Event(Progress, call.value), Fail);
      case Wired(i) =>
        BeginStops(FlagsOf(Progress), w.handled.progress, call.value.args);
        FireHandledProgress(w, AfterFire(FlagsOf(Progress), w.handled.progress, call.value.args));
        var v := Effect(w, Progress, i, call.value.args);
        var next := AfterReturn(FlagsOf(Progress), v.main.progress, false);
        ContinueMoves(FlagsOf(Progress), v.main.progress);
        DrainProgress(v.(main := v.main.Set(Progress, next.state)), next.call);
    }
  }

  lemma StepProgress(w: Wiring, op: Op)
    requires w.Valid() && op.kind == Progress
    ensures SameOutcome(Step(w, op), w)
  {
    var f, s := FlagsOf(Progress), w.main.progress;
    match op
    case Settle(_, args) =>
      var o := AfterFire(f, s, args);
      DrainProgress(w.(main := w.main.Set(Progress, o.state)), o.call);
    case Register(_, id) =>
      var o := AfterAdd(f, s, [User(id)]);
      DrainProgress(w.(main := w.main.Set(Progress, o.state)), o.call);
    case Then(_, id) =>
      AddStops(f, w.handled.progress, [User(id)]);
      FireHandledProgress(w, AfterAdd(f, w.handled.progress, [User(id)]));
    case Return(_) =>
      if s.firing {
        var o := AfterReturn(f, s, false);
        DrainProgress(w.(main := w.main.Set(Progress, o.state)), o.call);
      }
  }

  // ------------------------------------------------------------------ the decision

  /** A list that fires once with memory, from its current callback to its end. */
  lemma {:induction false} HandledPass(k: Kind, s: State, args: Args)
    requires k != Progress && Running(s, args)
    ensures var o := Outcome(s, Some(Call(s.list.value[s.index], args)));
            var d := DrainHandled(FlagsOf(k), o);
            Replays(d.state, args) && d.calls == CallsWith(s.list.value[s.index..], args)
    decreases |s.list.value| - s.index
  {
    var list, i := s.list.value, s.index;
    assert CallsWith(list[i..], args) == [Call(list[i], args)] + CallsWith(list[i + 1..], args);
    var next := AfterReturn(FlagsOf(k), s, false);
    if i + 1 < |list| {
      HandledPass(k, s.(index := i + 1), args);
    } else {
      assert next == Outcome(s.(list := Some([]), index := -1, firing := false), None);
      assert list[i + 1..] == [];
    }
  }

  lemma HandledList(k: Kind, args: Args, handlers: seq<Callback>, o: Outcome)
    requires k != Progress && o == AfterFire(FlagsOf(k), INITIAL.(list := Some(handlers)), args)
    ensures Stopped(o)
    ensures Replays(DrainHandled(FlagsOf(k), o).state, args)
    ensures DrainHandled(FlagsOf(k), o).calls == CallsWith(handlers, args)
  {
    BeginStops(FlagsOf(k), INITIAL.(list := Some(handlers)), args);
    if handlers != [] {
      HandledPass(k, o.state, args);
      assert handlers[0..] == handlers;
    }
  }

  /** The wired callback that fires the handlers. */
  lemma HandledFires(w: Wiring, k: Kind, args: Args, handlers: seq<Callback>)
    requires w.Valid() && k != Progress && w.handled.Get(k) == INITIAL.(list := Some(handlers))
    requires CallsOf(w.tasks, Done) == CallsOf(w.tasks, Fail) == []
    ensures var v := Effect(w, k, 5, args);
            && Replays(v.handled.Get(k), args)
            && v == w.(handled := w.handled.Set(k, v.handled.Get(k)), tasks := v.tasks)
            && CallsOf(v.tasks, k) == CallsWith(handlers, args) && CallsOf(v.tasks, Opposite(k)) == []
  {
    var f := FlagsOf(k);
    var o := AfterFire(f, w.handled.Get(k), args);
    HandledList(k, args, handlers, o);
    var d := DrainHandled(f, o);
    CallsOfTagged(w.tasks, k, d.calls, k);
    CallsOfTagged(w.tasks, k, d.calls, Opposite(k));
  }

  ghost predicate Decided(w: Wiring, k: Kind, args: Args, fns: seq<Callback>, handlers: seq<Callback>) {
    w.status == StatusOf(k) && Won(w, k, args, fns, handlers) && Lost(w, Opposite(k))
  }

  /** List `k` runs its wired callback `i`, the earlier ones having had their effects. */
  ghost predicate Stage(w: Wiring, k: Kind, i: nat, args: Args, fns: seq<Callback>, handlers: seq<Callback>)
    requires k != Progress
  {
    var m, h := w.main.Get(Opposite(k)), w.handled.Get(Opposite(k));
    && w.Valid()
    && w.main.Get(k) == State(Some(WIRED + fns), [], i, Some(args), true, true, true)
    && w.handled.Get(k) == INITIAL.(list := Some(handlers))
    && CallsOf(w.log, Done) == CallsOf(w.log, Fail) == CallsOf(w.tasks, Done) == CallsOf(w.tasks, Fail) == []
    && (i >= 1 ==> w.status == StatusOf(k))
    && (if i >= 2 then Off(m) else m.index == -1 && !m.firing)
    && (if i >= 3 then Off(h) else h.index == -1 && !h.firing)
  }

  /** The wiring after the wired callback `i`. */
  ghost function Next(w: Wiring, k: Kind, i: nat, args: Args): (v: Wiring)
    requires w.Valid() && w.main.Get(k).firing
  {
    var v := Effect(w, k, i, args);
    v.(main := v.main.Set(k, w.main.Get(k).(index := i + 1)))
  }

  lemma StageStep(w: Wiring, k: Kind, i: nat, args: Args, fns: seq<Callback>, handlers: seq<Callback>)
    requires k != Progress && i < 5 && Stage(w, k, i, args, fns, handlers)
    ensures Stage(Next(w, k, i, args), k, i + 1, args, fns, handlers)
  {
  }

  lemma NextWired(w: Wiring, k: Kind, i: nat, args: Args, fns: seq<Callback>)
    requires w.Valid() && i < 5 && w.main.Get(k) == State(Some(WIRED + fns), [], i, Some(args), true, true, true)
    ensures Drain(w, k, Some(Call(Wired(i), args))) == Drain(Next(w, k, i, args), k, Some(Call(Wired(i + 1), args)))
  {
    assert (WIRED + fns)[i + 1] == Wired(i + 1);
    assert AfterReturn(FlagsOf(k), w.main.Get(k), false) ==
      Outcome(w.main.Get(k).(index := i + 1), Some(Call(Wired(i + 1), args)));
    DrainWired(w, k, i, args);
  }

  /** From any of the wired callbacks on, the rest of them bring the outcome about. */
  lemma {:induction false} FromStage(w: Wiring, k: Kind, i: nat, args: Args, fns: seq<Callback>,
                                     handlers: seq<Callback>)
    requires k != Progress && i <= 5 && Stage(w, k, i, args, fns, handlers)
    requires forall j | 0 <= j < |fns| :: fns[j].User?
    ensures Decided(Drain(w, k, Some(Call(Wired(i), args))), k, args, fns, handlers)
    decreases 5 - i
  {
    if i == 5 {
      LastWired(w, k, args, fns, handlers);
    } else {
      StageStep(w, k, i, args, fns, handlers);
      NextWired(w, k, i, args, fns);
      FromStage(Next(w, k, i, args), k, i + 1, args, fns, handlers);
    }
  }

  /** The first resolve or reject. */
  lemma FirstSettle(w: Wiring, k: Kind, args: Args, fns: seq<Callback>, handlers: seq<Callback>)
    requires k != Progress && Stage(w, k, 0, args, fns, handlers)
    requires forall i | 0 <= i < |fns| :: fns[i].User?
    ensures Decided(Drain(w, k, Some(Call(Wired(0), args))), k, args, fns, handlers)
  {
    FromStage(w, k, 0, args, fns, handlers);
  }

  /** A user's callback of the winning list gets control. */
  lemma HandOver(w: Wiring, k: Kind, s: State, call: Call, args: Args, fns: seq<Callback>, handlers: seq<Callback>)
    requires w.Valid() && s.Valid() && k != Progress && call.fn.User? && Running(s, args)
    requires CallsOf(w.log, k) + [call] + CallsWith(s.Unrun(), args) == CallsWith(fns, args)
    requires Replays(w.handled.Get(k), args) && CallsOf(w.tasks, k) == CallsWith(handlers, args)
    requires Lost(w, Opposite(k))
    ensures var v := Drain(w.(main := w.main.Set(k, s)), k, Some(call));
            v.status == w.status && Won(v, k, args, fns, handlers) && Lost(v, Opposite(k))
  {
    CallsOfOne(w.log, Event(k, call), k);
    CallsOfOne(w.log, Event(k, call), Opposite(k));
  }

  lemma NextUser(log: seq<Call>, u: seq<Callback>, fns: seq<Callback>, args: Args)
    requires log + CallsWith(u, args) == CallsWith(fns, args) && u != []
    requires forall i | 0 <= i < |fns| :: fns[i].User?
    ensures u[0].User? && log + [Call(u[0], args)] + CallsWith(u[1..], args) == CallsWith(fns, args)
  {
    assert Call(u[0], args) == CallsWith(u, args)[0] == CallsWith(fns, args)[|log|];
    assert [Call(u[0], args)] + CallsWith(u[1..], args) == CallsWith(u, args);
  }

  /** The winning list moves on from its current callback; only users' callbacks are left. */
  lemma MoveOn(w: Wiring, k: Kind, args: Args, fns: seq<Callback>, handlers: seq<Callback>)
    requires w.Valid() && k != Progress && Running(w.main.Get(k), args)
    requires CallsOf(w.log, k) + CallsWith(w.main.Get(k).Unrun(), args) == CallsWith(fns, args)
    requires forall i | 0 <= i < |fns| :: fns[i].User?
    requires Replays(w.handled.Get(k), args) && CallsOf(w.tasks, k) == CallsWith(handlers, args)
    requires Lost(w, Opposite(k))
    ensures var o := AfterReturn(FlagsOf(k), w.main.Get(k), false);
            var v := Drain(w.(main := w.main.Set(k, o.state)), k, o.call);
            v.status == w.status && Won(v, k, args, fns, handlers) && Lost(v, Opposite(k))
  {
    var s := w.main.Get(k);
    var o := AfterReturn(FlagsOf(k), s, false);
    var u := s.Unrun();
    if u == [] {
      assert o == Outcome(s.(list := Some([]), index := -1, firing := false), None);
    } else {
      NextUser(CallsOf(w.log, k), u, fns, args);
      assert o == Outcome(s.(index := s.index + 1), Some(Call(u[0], args))) && o.state.Unrun() == u[1..];
      HandOver(w, k, o.state, o.call.value, args, fns, handlers);
    }
  }

  lemma LastWired(w: Wiring, k: Kind, args: Args, fns: seq<Callback>, handlers: seq<Callback>)
    requires k != Progress && Stage(w, k, 5, args, fns, handlers)
    requires forall i | 0 <= i < |fns| :: fns[i].User?
    ensures Decided(Drain(w, k, Some(Call(Wired(5), args))), k, args, fns, handlers)
  {
    HandledFires(w, k, args, handlers);
    assert (WIRED + fns)[6..] == fns;
    MoveOn(Effect(w, k, 5, args), k, args, fns, handlers);
  }

  // ------------------------------------------------------------------ the steps of a settled Deferred

  lemma SettledStep(w: Wiring, op: Op, k: Kind, args: Args, fns: seq<Callback>, handlers: seq<Callback>)
    requires w.Valid() && k != Progress && op.kind != Progress
    requires Won(w, k, args, fns, handlers) && Lost(w, Opposite(k))
    requires forall i | 0 <= i < |fns| :: fns[i].User?
    ensures var v := Step(w, op);
            && v.status == w.status && Lost(v, Opposite(k))
            && Won(v, k, args, Plus(fns, op.Register? && op.kind == k, op),
                   Plus(handlers, op.Then? && op.kind == k, op))
  {
    if op.kind != k {
      assert op.kind == Opposite(k);
      OffStep(w, op);
    } else {
      match op
      case Settle(_, _) =>
      case Register(_, id) =>
        if w.main.Get(k).firing { RegisterRunning(w, k, args, fns, handlers, id); }
        else { RegisterIdle(w, k, args, fns, handlers, id); }
      case Then(_, id) => ThenWon(w, k, args, fns, handlers, id);
      case Return(_) => if w.main.Get(k).firing { MoveOn(w, k, args, fns, handlers); }
    }
  }

  lemma OffStep(w: Wiring, op: Op)
    requires w.Valid() && op.kind != Progress && Off(w.main.Get(op.kind)) && Off(w.handled.Get(op.kind))
    ensures Step(w, op) == w
  {
  }

  lemma AddReplays(k: Kind, s: State, fn: Callback, args: Args)
    requires s.Valid() && k != Progress && Replays(s, args)
    ensures AfterAdd(FlagsOf(k), s, [fn]) ==
      Outcome(State(Some([fn]), [], 0, Some(args), true, true, true), Some(Call(fn, args)))
  {
    assert Pushed(false, [], [fn]) == [fn] && [args][1..] == [];
  }

  lemma AddRunning(k: Kind, s: State, fn: Callback)
    requires s.Valid() && k != Progress && s.firing && s.list.Some?
    ensures AfterAdd(FlagsOf(k), s, [fn]) == Outcome(s.(list := Some(s.list.value + [fn])), None)
  {
    assert Pushed(false, s.list.value, [fn]) == s.list.value + [fn];
  }

  lemma RegisterRunning(w: Wiring, k: Kind, args: Args, fns: seq<Callback>, handlers: seq<Callback>, id: nat)
    requires w.Valid() && k != Progress && Won(w, k, args, fns, handlers) && Lost(w, Opposite(k))
    requires w.main.Get(k).firing
    ensures var v := Step(w, Register(k, id));
            v.status == w.status && Lost(v, Opposite(k)) && Won(v, k, args, fns + [User(id)], handlers)
  {
    var s, fn := w.main.Get(k), User(id);
    var longer := s.(list := Some(s.list.value + [fn]));
    AddRunning(k, s, fn);
    assert longer.Unrun() == s.Unrun() + [fn];
    Appended(CallsOf(w.log, k), s.Unrun(), longer.Unrun(), fns, fn, args);
    assert Running(longer, args);
    assert Step(w, Register(k, id)) == w.(main := w.main.Set(k, longer));
  }

  lemma RegisterIdle(w: Wiring, k: Kind, args: Args, fns: seq<Callback>, handlers: seq<Callback>, id: nat)
    requires w.Valid() && k != Progress && Replays(w.main.Get(k), args) && Replays(w.handled.Get(k), args)
    requires CallsOf(w.log, k) == CallsWith(fns, args) && CallsOf(w.tasks, k) == CallsWith(handlers, args)
    requires Lost(w, Opposite(k))
    ensures var v := Step(w, Register(k, id));
            v.status == w.status && Lost(v, Opposite(k)) && Won(v, k, args, fns + [User(id)], handlers)
  {
    var s, fn := w.main.Get(k), User(id);
    AddReplays(k, s, fn, args);
    var o := AfterAdd(FlagsOf(k), s, [fn]);
    Appended(CallsOf(w.log, k), [], [fn], fns, fn, args);
    assert CallsWith([fn], args) == [Call(fn, args)] && CallsWith([], args) == [];
    assert CallsOf(w.log, k) + [o.call.value] + [] == CallsOf(w.log, k) + [o.call.value];
    HandOver(w, k, o.state, o.call.value, args, fns + [fn], handlers);
  }

  lemma Appended(log: seq<Call>, u: seq<Callback>, longer: seq<Callback>, fns: seq<Callback>, fn: Callback, args: Args)
    requires log + CallsWith(u, args) == CallsWith(fns, args) && longer == u + [fn]
    ensures log + CallsWith(longer, args) == CallsWith(fns + [fn], args)
  {
    assert CallsWith(longer, args) == CallsWith(u, args) + [Call(fn, args)];
    assert CallsWith(fns + [fn], args) == CallsWith(fns, args) + [Call(fn, args)];
  }

  lemma ThenWon(w: Wiring, k: Kind, args: Args, fns: seq<Callback>, handlers: seq<Callback>, id: nat)
    requires w.Valid() && k != Progress && Won(w, k, args, fns, handlers) && Lost(w, Opposite(k))
    ensures var v := Step(w, Then(k, id));
            v.status == w.status && Lost(v, Opposite(k)) && Won(v, k, args, fns, handlers + [User(id)])
  {
    var f, s, fn := FlagsOf(k), w.handled.Get(k), User(id);
    AddStops(f, s, [fn]);
    HandledReplay(k, s, fn, args);
    var d := DrainHandled(f, AfterAdd(f, s, [fn]));
    CallsOfTagged(w.tasks, k, d.calls, k);
    CallsOfTagged(w.tasks, k, d.calls, Opposite(k));
    assert CallsWith(handlers + [fn], args) == CallsWith(handlers, args) + d.calls;
    assert Step(w, Then(k, id)) == w.(handled := w.handled.Set(k, d.state), tasks := w.tasks + Tagged(k, d.calls));
  }

  /** A handler added after the decision is called at once. */
  lemma HandledReplay(k: Kind, s: State, fn: Callback, args: Args)
    requires s.Valid() && k != Progress && Replays(s, args)
    ensures var o := AfterAdd(FlagsOf(k), s, [fn]);
            Stopped(o) && Replays(DrainHandled(FlagsOf(k), o).state, args)
                       && DrainHandled(FlagsOf(k), o).calls == [Call(fn, args)]
  {
    var o := AfterAdd(FlagsOf(k), s, [fn]);
    AddReplays(k, s, fn, args);
    HandledPass(k, o.state, args);
  }

  // ------------------------------------------------------------------ all runs

  lemma {:induction false} RegisteredAreUsers(ops: seq<Op>, k: Kind)
    ensures forall i | 0 <= i < |Registered(ops, k)| :: Registered(ops, k)[i].User?
  {
    if ops != [] { RegisteredAreUsers(ops[..|ops| - 1], k); }
  }

  lemma UndecidedStep(w: Wiring, op: Op, k: Kind, fns: seq<Callback>, handlers: seq<Callback>)
    requires w.Valid() && k != Progress && op.kind == k && Undecided(w, k, fns, handlers)
    requires op.Register? || op.Then? || op.Return?
    ensures var v := Step(w, op);
            && v.status == w.status
            && v.main.Get(Opposite(k)) == w.main.Get(Opposite(k))
            && v.handled.Get(Opposite(k)) == w.handled.Get(Opposite(k))
            && v.log == w.log && v.tasks == w.tasks
            && Undecided(v, k, Plus(fns, op.Register?, op),
                         Plus(handlers, op.Then?, op))
  {
    assert w.tasks + [] == w.tasks;
    if op.Register? {
      assert Pushed(false, WIRED + fns, [User(op.id)]) == WIRED + fns + [User(op.id)] == WIRED + (fns + [User(op.id)]);
    } else if op.Then? {
      assert Pushed(false, handlers, [User(op.id)]) == handlers + [User(op.id)];
      AddStops(FlagsOf(k), w.handled.Get(k), [User(op.id)]);
    }
  }

  lemma SettlingStep(w: Wiring, op: Op, ops: seq<Op>)
    requires w.Valid() && op.Settle? && op.kind != Progress && Inv(w, None, ops)
    ensures Inv(Step(w, op), Some(Decision(op.kind, op.args)), ops)
  {
    var k, args := op.kind, op.args;
    var fns := Registered(ops, k);
    RegisteredAreUsers(ops, k);
    var o := AfterFire(FlagsOf(k), w.main.Get(k), args);
    assert (WIRED + fns)[0] == Wired(0);
    assert o == Outcome(State(Some(WIRED + fns), [], 0, Some(args), true, true, true), Some(Call(Wired(0), args)));
    FirstSettle(w.(main := w.main.Set(k, o.state)), k, args, fns, Handlers(ops, k));
  }

  lemma PendingStep(w: Wiring, op: Op, init: seq<Op>, ops: seq<Op>)
    requires ops != [] && init == ops[..|ops| - 1] && op == ops[|ops| - 1]
    requires w.Valid() && op.kind != Progress && !op.Settle? && Deciding(init).None? && Inv(w, None, init)
    ensures Inv(Step(w, op), Deciding(ops), ops)
  {
    var k := op.kind;
    UndecidedStep(w, op, k, Registered(init, k), Handlers(init, k));
    assert Registered(ops, Opposite(k)) == Registered(init, Opposite(k));
    assert Handlers(ops, Opposite(k)) == Handlers(init, Opposite(k));
  }

  lemma ProgressStep(w: Wiring, op: Op, init: seq<Op>, ops: seq<Op>)
    requires ops != [] && init == ops[..|ops| - 1] && op == ops[|ops| - 1]
    requires w.Valid() && op.kind == Progress && Inv(w, Deciding(init), init)
    ensures Inv(Step(w, op), Deciding(ops), ops)
  {
    StepProgress(w, op);
    SameInv(Step(w, op), w, Deciding(init), init, ops);
  }

  lemma SameInv(v: Wiring, w: Wiring, d: Option<Decision>, init: seq<Op>, ops: seq<Op>)
    requires Inv(w, d, init) && SameOutcome(v, w) && (d.Some? ==> d.value.kind != Progress)
    requires Registered(ops, Done) == Registered(init, Done) && Registered(ops, Fail) == Registered(init, Fail)
    requires Handlers(ops, Done) == Handlers(init, Done) && Handlers(ops, Fail) == Handlers(init, Fail)
    ensures Inv(v, d, ops)
  {
  }

  /** After every run: while nothing has been resolved or rejected the Deferred is pending and has
      called nothing; afterwards its state is that of the first resolve or reject, the callbacks of
      that outcome have been called in the order of their registration, once each, with the
      arguments of that first call (those still to come are the rest of the list being fired), the
      handlers of `then` have been scheduled likewise, and nothing of the other outcome is called. */
  lemma {:induction false} RunInvariant(ops: seq<Op>)
    ensures Inv(Run(ops), Deciding(ops), ops)
  {
    if ops == [] {
      assert WIRED + [] == WIRED;
    } else {
      var init, op := ops[..|ops| - 1], ops[|ops| - 1];
      var w := Run(init);
      RunInvariant(init);
      if op.kind == Progress {
        ProgressStep(w, op, init, ops);
      } else if Deciding(init).Some? {
        var d := Deciding(init).value;
        RegisteredAreUsers(init, d.kind);
        SettledStep(w, op, d.kind, d.args, Registered(init, d.kind), Handlers(init, d.kind));
      } else if op.Settle? {
        SettlingStep(w, op, init);
      } else {
        PendingStep(w, op, init, ops);
      }
    }
  }

  /** The state leaves pending at most once, and when nothing is being fired every callback of the
      outcome has been called exactly once, in order. */
  lemma {:induction false} SettledOnce(ops: seq<Op>, op: Op)
    ensures var w, v := Run(ops), Run(ops + [op]);
            && (w.status != Pending ==> v.status == w.status)
            && (w.status != Pending && !w.main.done.firing && !w.main.fail.firing ==>
                 Deciding(ops).Some? &&
                 var d := Deciding(ops).value;
                 CallsOf(w.log, d.kind) == CallsWith(Registered(ops, d.kind), d.args) &&
                 CallsOf(w.log, Opposite(d.kind)) == [])
  {
    assert (ops + [op])[..|ops|] == ops;
    RunInvariant(ops);
    RunInvariant(ops + [op]);
  }
}
