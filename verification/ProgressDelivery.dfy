/** Every notification reaches the `progress` callbacks of a Deferred, each once, however it is nested
    in others. */
module ProgressDelivery {
  import opened Options
  import opened Callbacks
  import CallbackRuns
  import opened Deferred
  import opened DeferredRuns
  import opened Notifications

  function Users(list: seq<Callback>): seq<Callback> {
    if list == [] then []
    else Users(list[..|list| - 1]) + if list[|list| - 1].User? then [list[|list| - 1]] else []
  }

  lemma {:induction false} UsersSum(a: seq<Callback>, b: seq<Callback>)
    ensures Users(a + b) == Users(a) + Users(b)
  {
    if b == [] {
      assert a + b == a;
    } else {
      var init := b[..|b| - 1];
      assert (a + b)[..|a + b| - 1] == a + init;
      UsersSum(a, init);
    }
  }

  lemma UsersOne(fn: Callback, list: seq<Callback>)
    ensures Users([fn] + list) == (if fn.User? then [fn] else []) + Users(list)
    ensures Users(list + [fn]) == Users(list) + if fn.User? then [fn] else []
  {
    assert [fn][..0] == [] && Users([fn]) == if fn.User? then [fn] else [];
    UsersSum([fn], list);
    UsersSum(list, [fn]);
  }

  /** A list that takes notifications has all registered callbacks. */
  ghost predicate Lists(s: State, all: seq<Callback>) {
    && (s.list.None? ==> s.memory.None?)
    && (s.list.Some? && !s.locked ==> Users(s.list.value) == all)
  }

  /** The current notification has been given to all users' callbacks but `users`. */
  ghost predicate Now(s: State, users: seq<Callback>, log: seq<Call>, all: seq<Callback>) {
    s.memory.Some? ==> CallbackRuns.Block(log, s.memory.value) + users == all
  }

  /** Every notification has been given to some of them, in order; one that has made its pass, to those
      registered when it was sent (`asks`). */
  ghost predicate Past(s: State, log: seq<Call>, all: seq<Callback>, asks: seq<seq<Callback>>) {
    && (forall n: nat :: CallbackRuns.Block(log, n) <= all)
    && (forall n: nat | n < |asks| :: asks[n] <= all)
    && (forall n: nat | n < |asks| && CallbackRuns.Completed(s, n) :: asks[n] <= CallbackRuns.Block(log, n))
  }

  /** `rest` is what the pass under way has still to call. */
  ghost predicate Served(s: State, rest: seq<Callback>, log: seq<Call>, all: seq<Callback>, asks: seq<seq<Callback>>) {
    Lists(s, all) && Now(s, Users(rest), log, all) && Past(s, log, all, asks)
  }

  function Rest(s: State): seq<Callback> {
    if s.firing then s.Unrun() else []
  }

  ghost predicate ServedAfter(o: Outcome, log: seq<Call>, all: seq<Callback>, asks: seq<seq<Callback>>) {
    Served(o.state, if o.call.Some? then [o.call.value.fn] + Rest(o.state) else Rest(o.state), log, all, asks)
  }

  // ------------------------------------------------------------------ the list

  /** The pass of the current notification is over. */
  lemma PassedOn(s: State, t: State, log: seq<Call>, all: seq<Callback>, asks: seq<seq<Callback>>)
    requires s.memory.Some? && Now(s, [], log, all) && Past(s, log, all, asks)
    requires forall n: nat | CallbackRuns.Completed(t, n) :: n == s.memory.value || CallbackRuns.Completed(s, n)
    ensures Past(t, log, all, asks)
  {
    assert CallbackRuns.Block(log, s.memory.value) + [] == all;
  }

  /** No pass ends; callbacks may be registered. */
  lemma Longer(s: State, t: State, log: seq<Call>, all: seq<Callback>, more: seq<Callback>, asks: seq<seq<Callback>>)
    requires Past(s, log, all, asks)
    requires forall n: nat | CallbackRuns.Completed(t, n) :: CallbackRuns.Completed(s, n)
    ensures Past(t, log, all + more, asks)
  {
    assert all <= all + more;
  }

  /** The queue has the notifications after the current one, and none of them has been given to anybody. */
  ghost predicate Upcoming(s: State, log: seq<Call>) {
    && s.memory.Some? && (s.locked ==> s.queue == [])
    && (forall i | 0 <= i < |s.queue| :: s.queue[i] == s.memory.value + 1 + i)
    && forall k: nat | k > s.memory.value :: CallbackRuns.Block(log, k) == []
  }

  lemma OrderUpcoming(s: State, sent: nat, log: seq<Call>)
    requires s.memory.Some? && CallbackRuns.InOrder(s, sent, log)
    ensures Upcoming(s, log)
  {
    forall k: nat | k > s.memory.value
      ensures CallbackRuns.Block(log, k) == []
    {
      CallbackRuns.NotYet(log, k);
    }
  }

  lemma NextServed(s: State, log: seq<Call>, all: seq<Callback>, asks: seq<seq<Callback>>)
    requires s.Looping() && s.list.Some? && s.index + 1 == |s.list.value| && s.queue != []
    requires Upcoming(s, log) && Served(s, s.Unrun(), log, all, asks)
    ensures var t := s.(index := -1, memory := Some(s.queue[0]), queue := s.queue[1..]);
            Upcoming(t, log) && Served(t, t.Unrun(), log, all, asks)
  {
    var t := s.(index := -1, memory := Some(s.queue[0]), queue := s.queue[1..]);
    assert s.Unrun() == [];
    assert t.memory.value == s.memory.value + 1;
    assert Past(t, log, all, asks) by { PassedOn(s, t, log, all, asks); }
    assert Now(t, Users(t.Unrun()), log, all) by { assert t.Unrun() == s.list.value && [] + all == all; }
  }

  lemma EndServed(s: State, log: seq<Call>, all: seq<Callback>, asks: seq<seq<Callback>>)
    requires s.Looping() && s.list.Some? && s.memory.Some? && s.index + 1 == |s.list.value| && s.queue == []
    requires Served(s, s.Unrun(), log, all, asks)
    ensures Served(Finish(PLAIN, s), [], log, all, asks)
  {
    assert s.Unrun() == [];
    PassedOn(s, Finish(PLAIN, s), log, all, asks);
  }

  lemma UnrunNext(s: State)
    requires s.list.Some? && -1 <= s.index && s.index + 1 < |s.list.value|
    ensures s.Unrun() == [s.list.value[s.index + 1]] + s.(index := s.index + 1).Unrun()
  {
  }

  lemma {:induction false} ContinueServed(s: State, log: seq<Call>, all: seq<Callback>, asks: seq<seq<Callback>>)
    requires s.Looping() && s.list.Some? && s.index < |s.list.value|
    requires Upcoming(s, log) && Served(s, s.Unrun(), log, all, asks)
    ensures ServedAfter(Continue(PLAIN, s), log, all, asks)
    decreases |s.queue|
  {
    if s.index + 1 < |s.list.value| {
      UnrunNext(s);
    } else if s.queue != [] {
      NextServed(s, log, all, asks);
      ContinueServed(s.(index := -1, memory := Some(s.queue[0]), queue := s.queue[1..]), log, all, asks);
    } else {
      EndServed(s, log, all, asks);
    }
  }

  /** A notification is asked for. */
  lemma AskedServed(s: State, t: State, sent: nat, log: seq<Call>, all: seq<Callback>, asks: seq<seq<Callback>>)
    requires Past(s, log, all, asks) && |asks| == sent
    requires forall n: nat | CallbackRuns.Completed(t, n) :: n < sent && CallbackRuns.Completed(s, n)
    ensures Past(t, log, all, asks + [all])
  {
  }

  /** The pass for it starts when nothing is being fired. */
  lemma StartServed(s: State, sent: nat, log: seq<Call>, all: seq<Callback>, asks: seq<seq<Callback>>)
    requires Kept(s, sent, log) && |asks| == sent && Served(s, Rest(s), log, all, asks) && !s.locked && !s.firing
    ensures var t := s.(fired := true, firing := true, memory := Some(sent), queue := []);
            Served(t, t.Unrun(), log, all, asks + [all])
  {
    var t := s.(fired := true, firing := true, memory := Some(sent), queue := []);
    assert t.Unrun() == s.list.value;
    assert Now(t, Users(t.Unrun()), log, all) by {
      CallbackRuns.NotYet(log, sent);
      assert [] + all == all;
    }
    AskedServed(s, t, sent, log, all, asks);
  }

  lemma FireServed(s: State, sent: nat, log: seq<Call>, args: Args, all: seq<Callback>, asks: seq<seq<Callback>>)
    requires Kept(s, sent, log) && |asks| == sent && Served(s, Rest(s), log, all, asks) && (!s.locked ==> args == sent)
    ensures ServedAfter(AfterFire(PLAIN, s, args), log, all, if s.locked then asks else asks + [all])
  {
    if s.locked {
    } else if s.firing {
      var t := s.(queue := s.queue + [args]);
      assert t.Unrun() == s.Unrun();
      AskedServed(s, t, sent, log, all, asks);
    } else {
      StartServed(s, sent, log, all, asks);
      assert [args][1..] == [];
      var t := s.(fired := true, firing := true, memory := Some(args), queue := []);
      OrderUpcoming(t, sent + 1, log);
      ContinueServed(t, log, all, asks + [all]);
    }
  }

  lemma NowLonger(s: State, t: State, rest: seq<Callback>, log: seq<Call>, all: seq<Callback>, fn: Callback)
    requires fn.User? && t.memory == s.memory && Now(s, Users(rest), log, all)
    ensures Now(t, Users(rest + [fn]), log, all + [fn])
  {
    UsersOne(fn, rest);
    if s.memory.Some? {
      var had := CallbackRuns.Block(log, s.memory.value);
      assert had + (Users(rest) + [fn]) == had + Users(rest) + [fn];
    }
  }

  /** One more callback for a list that is firing, or has fired nothing yet. */
  lemma LongerServed(s: State, log: seq<Call>, fn: Callback, all: seq<Callback>, asks: seq<seq<Callback>>)
    requires s.Valid() && s.list.Some? && (s.memory.Some? ==> s.firing)
    requires fn.User? && Served(s, Rest(s), log, all, asks)
    ensures var t := s.(list := Some(s.list.value + [fn])); Served(t, Rest(t), log, all + [fn], asks)
  {
    var t := s.(list := Some(s.list.value + [fn]));
    assert Lists(t, all + [fn]) by { UsersOne(fn, s.list.value); }
    assert Now(t, Users(Rest(t)), log, all + [fn]) by {
      NowLonger(s, t, Rest(s), log, all, fn);
      assert s.firing ==> Rest(t) == Rest(s) + [fn];
    }
    Longer(s, t, log, all, [fn], asks);
  }

  /** The start of the replay to a callback added while the list is idle. */
  lemma ReplayServed(s: State, log: seq<Call>, fn: Callback, all: seq<Callback>, asks: seq<seq<Callback>>)
    requires s.Valid() && s.list.Some? && s.memory.Some? && !s.firing && fn.User? && Served(s, Rest(s), log, all, asks)
    ensures var t := s.(list := Some(s.list.value + [fn]), index := |s.list.value| - 1, fired := true, firing := true);
            Served(t, t.Unrun(), log, all + [fn], asks)
  {
    var t := s.(list := Some(s.list.value + [fn]), index := |s.list.value| - 1, fired := true, firing := true);
    assert Lists(t, all + [fn]) by { UsersOne(fn, s.list.value); }
    assert Now(t, Users(t.Unrun()), log, all + [fn]) by {
      NowLonger(s, t, [], log, all, fn);
      assert t.Unrun() == [] + [fn];
    }
    Longer(s, t, log, all, [fn], asks);
  }

  lemma AddServed(s: State, sent: nat, log: seq<Call>, fn: Callback, all: seq<Callback>, asks: seq<seq<Callback>>)
    requires Kept(s, sent, log) && fn.User? && Served(s, Rest(s), log, all, asks)
    ensures ServedAfter(AfterAdd(PLAIN, s, [fn]), log, all + [fn], asks)
  {
    if s.list.None? {
      Longer(s, s, log, all, [fn], asks);
    } else {
      PushedPlain(s.list.value, [fn]);
      if s.memory.Some? && !s.firing {
        ReplayServed(s, log, fn, all, asks);
        assert [s.memory.value][1..] == [];
        var t := s.(list := Some(s.list.value + [fn]), index := |s.list.value| - 1, fired := true, firing := true);
        OrderUpcoming(t, sent, log);
        ContinueServed(t, log, all + [fn], asks);
      } else {
        LongerServed(s, log, fn, all, asks);
      }
    }
  }

  lemma ReturnServed(s: State, sent: nat, log: seq<Call>, all: seq<Callback>, asks: seq<seq<Callback>>)
    requires Kept(s, sent, log) && s.firing && Served(s, Rest(s), log, all, asks)
    ensures ServedAfter(AfterReturn(PLAIN, s, false), log, all, asks)
  {
    OrderUpcoming(s, sent, log);
    ContinueServed(s, log, all, asks);
  }

  lemma LockServed(s: State, log: seq<Call>, all: seq<Callback>, asks: seq<seq<Callback>>)
    requires s.Valid() && Served(s, Rest(s), log, all, asks)
    ensures Served(AfterLock(s), Rest(AfterLock(s)), log, all, asks)
  {
    var t := AfterLock(s);
    Longer(s, t, log, all, [], asks);
    assert all + [] == all && Rest(t) == Rest(s);
  }

  /** The call at which the list has stopped is made. */
  lemma UserServed(s: State, call: Call, sent: nat, log: seq<Call>, all: seq<Callback>, asks: seq<seq<Callback>>)
    requires AtCall(s, call, sent, log) && call.fn.User? && Served(s, [call.fn] + Rest(s), log, all, asks)
    ensures Served(s, Rest(s), log + [call], all, asks)
  {
    var users := Users(Rest(s));
    assert Now(s, [call.fn] + users, log, all) by { UsersOne(call.fn, Rest(s)); }
    assert Now(s, users, log + [call], all) by { NowCalled(s, call, users, log, all); }
    forall n: nat
      ensures CallbackRuns.Block(log, n) <= CallbackRuns.Block(log + [call], n) <= all
    {
      CallbackRuns.BlockOne(log, call, n);
    }
  }

  lemma WiredServed(s: State, call: Call, sent: nat, log: seq<Call>, all: seq<Callback>, asks: seq<seq<Callback>>)
    requires AtCall(s, call, sent, log) && call.fn.Wired? && Served(s, [call.fn] + Rest(s), log, all, asks)
    ensures ServedAfter(AfterReturn(PLAIN, s, false), log, all, asks)
  {
    UsersOne(call.fn, Rest(s));
    OrderUpcoming(s, sent, log);
    ContinueServed(s, log, all, asks);
  }

  lemma NowCalled(s: State, call: Call, users: seq<Callback>, log: seq<Call>, all: seq<Callback>)
    requires s.memory == Some(call.args) && Now(s, [call.fn] + users, log, all)
    ensures Now(s, users, log + [call], all)
  {
    CallbackRuns.BlockOne(log, call, call.args);
    var had := CallbackRuns.Block(log, call.args);
    assert had + ([call.fn] + users) == had + [call.fn] + users;
  }

  // ------------------------------------------------------------------ the wiring

  lemma {:induction false} DrainServed(w: Wiring, call: Option<Call>, sent: nat, all: seq<Callback>,
                                       asks: seq<seq<Callback>>)
    requires w.Valid() && (call.Some? ==> w.main.progress.firing && w.main.progress.list.Some?)
    requires var o, log := Outcome(w.main.progress, call), CallsOf(w.log, Progress);
             KeptAfter(o, sent, log) && ServedAfter(o, log, all, asks)
    ensures var v := Drain(w, Progress, call);
            Served(v.main.progress, Rest(v.main.progress), CallsOf(v.log, Progress), all, asks)
    decreases call.Some?, |w.main.progress.queue|, w.main.progress.Length() - w.main.progress.index
  {
    if call.Some? {
      var s, log := w.main.progress, CallsOf(w.log, Progress);
      match call.value.fn
      case User(_) =>
        CallsOfOne(w.log, Event(Progress, call.value), Progress);
        UserServed(s, call.value, sent, log, all, asks);
      case Wired(i) =>
        var v := Effect(w, Progress, i, call.value.args);
        var next := AfterReturn(PLAIN, s, false);
        ContinueMoves(PLAIN, s);
        assert KeptAfter(next, sent, log) by { WiredReturns(s, call.value, sent, log); }
        assert ServedAfter(next, log, all, asks) by { WiredServed(s, call.value, sent, log, all, asks); }
        DrainServed(v.(main := v.main.Set(Progress, next.state)), next.call, sent, all, asks);
    }
  }

  // ------------------------------------------------------------------ all runs

  /** For each notification sent before the deciding call, the callbacks registered by then. */
  function Asks(ops: seq<Op>): (asks: seq<seq<Callback>>)
    ensures |asks| == Sent(ops)
  {
    if ops == [] then []
    else
      var init := ops[..|ops| - 1];
      Asks(init) + if Notifies(ops[|ops| - 1]) && Deciding(init).None? then [Registered(init, Progress)] else []
  }

  ghost predicate Delivered(w: Wiring, sent: nat, all: seq<Callback>, asks: seq<seq<Callback>>) {
    && Noted(w, sent) && |asks| == sent
    && Served(w.main.progress, Rest(w.main.progress), CallsOf(w.log, Progress), all, asks)
  }

  /** The progress list has moved on to where `o` says. */
  lemma MovedServed(w: Wiring, o: Outcome, sent: nat, all: seq<Callback>, asks: seq<seq<Callback>>)
    requires w.Valid() && o.state.Valid() && (o.call.Some? ==> o.state.firing && o.state.list.Some?)
    requires KeptAfter(o, sent, CallsOf(w.log, Progress)) && ServedAfter(o, CallsOf(w.log, Progress), all, asks)
    requires |asks| == sent
    ensures Delivered(Drain(w.(main := w.main.Set(Progress, o.state)), Progress, o.call), sent, all, asks)
  {
    var v := w.(main := w.main.Set(Progress, o.state));
    DrainKept(v, o.call, sent);
    DrainServed(v, o.call, sent, all, asks);
  }

  function AsksAfter(w: Wiring, op: Op, all: seq<Callback>, asks: seq<seq<Callback>>): seq<seq<Callback>> {
    if Counted(w, op) == 1 then asks + [all] else asks
  }

  function AllAfter(op: Op, all: seq<Callback>): seq<Callback> {
    Plus(all, op.Register? && op.kind == Progress, op)
  }

  ghost predicate DeliveredAfter(w: Wiring, op: Op, sent: nat, all: seq<Callback>, asks: seq<seq<Callback>>)
    requires w.Valid()
  {
    Delivered(Step(w, op), sent + Counted(w, op), AllAfter(op, all), AsksAfter(w, op, all, asks))
  }

  lemma NotifyDelivered(w: Wiring, op: Op, sent: nat, all: seq<Callback>, asks: seq<seq<Callback>>)
    requires w.Valid() && Notifies(op) && Delivered(w, sent, all, asks)
    requires !w.main.progress.locked ==> op.args == sent
    ensures DeliveredAfter(w, op, sent, all, asks)
  {
    var s, log := w.main.progress, CallsOf(w.log, Progress);
    var o, n, asked := AfterFire(PLAIN, s, op.args), sent + Counted(w, op), AsksAfter(w, op, all, asks);
    assert KeptAfter(o, n, log) by { FireKept(s, sent, log, op.args); }
    assert ServedAfter(o, log, all, asked) by { FireServed(s, sent, log, op.args, all, asks); }
    MovedServed(w, o, n, all, asked);
  }

  lemma RegisterDelivered(w: Wiring, id: nat, sent: nat, all: seq<Callback>, asks: seq<seq<Callback>>)
    requires w.Valid() && Delivered(w, sent, all, asks)
    ensures DeliveredAfter(w, Register(Progress, id), sent, all, asks)
  {
    var s, log := w.main.progress, CallsOf(w.log, Progress);
    var o := AfterAdd(PLAIN, s, [User(id)]);
    assert KeptAfter(o, sent, log) by { AddKept(s, sent, log, User(id)); }
    assert ServedAfter(o, log, all + [User(id)], asks) by { AddServed(s, sent, log, User(id), all, asks); }
    MovedServed(w, o, sent, all + [User(id)], asks);
  }

  lemma ReturnDelivered(w: Wiring, sent: nat, all: seq<Callback>, asks: seq<seq<Callback>>)
    requires w.Valid() && Delivered(w, sent, all, asks)
    ensures Delivered(Step(w, Return(Progress)), sent, all, asks)
  {
    var s, log := w.main.progress, CallsOf(w.log, Progress);
    if s.firing {
      var o := AfterReturn(PLAIN, s, false);
      assert KeptAfter(o, sent, log) by { ContinueKept(s, sent, log); }
      assert ServedAfter(o, log, all, asks) by { ReturnServed(s, sent, log, all, asks); }
      MovedServed(w, o, sent, all, asks);
    }
  }

  lemma ThenDelivered(w: Wiring, id: nat, sent: nat, all: seq<Callback>, asks: seq<seq<Callback>>)
    requires w.Valid() && Delivered(w, sent, all, asks)
    ensures Delivered(Step(w, Then(Progress, id)), sent, all, asks)
  {
    AddStops(PLAIN, w.handled.progress, [User(id)]);
  }

  lemma OtherDelivered(w: Wiring, op: Op, sent: nat, all: seq<Callback>, asks: seq<seq<Callback>>)
    requires w.Valid() && op.kind != Progress && Delivered(w, sent, all, asks)
    ensures Delivered(Step(w, op), sent, all, asks)
  {
    OtherNoted(w, op, sent);
    StepOther(w, op);
    LockServed(w.main.progress, CallsOf(w.log, Progress), all, asks);
  }

  lemma DeliveredStep(w: Wiring, op: Op, sent: nat, all: seq<Callback>, asks: seq<seq<Callback>>)
    requires w.Valid() && Delivered(w, sent, all, asks)
    requires Notifies(op) && !w.main.progress.locked ==> op.args == sent
    ensures DeliveredAfter(w, op, sent, all, asks)
  {
    if Notifies(op) {
      NotifyDelivered(w, op, sent, all, asks);
    } else if op.Register? && op.kind == Progress {
      RegisterDelivered(w, op.id, sent, all, asks);
    } else {
      assert Counted(w, op) == 0 && AllAfter(op, all) == all && AsksAfter(w, op, all, asks) == asks;
      assert Delivered(Step(w, op), sent, all, asks) by {
        if op.kind != Progress { OtherDelivered(w, op, sent, all, asks); }
        else if op.Then? { ThenDelivered(w, op.id, sent, all, asks); }
        else { ReturnDelivered(w, sent, all, asks); }
      }
    }
  }

  lemma AsksBefore(ops: seq<Op>)
    requires ops != []
    ensures var init, op := ops[..|ops| - 1], ops[|ops| - 1];
            && Registered(ops, Progress) == AllAfter(op, Registered(init, Progress))
            && Asks(ops) == AsksAfter(Run(init), op, Registered(init, Progress), Asks(init))
  {
    LockedWhenDecided(ops[..|ops| - 1]);
  }

  lemma StartDelivered()
    ensures Delivered(START, 0, [], [])
  {
    assert [Wired(5)][..0] == [];
    assert Users([Wired(5)]) == [];
  }

  lemma {:induction false} RunsDelivered(ops: seq<Op>)
    requires Numbered(ops)
    ensures Delivered(Run(ops), Sent(ops), Registered(ops, Progress), Asks(ops))
  {
    if ops == [] {
      StartDelivered();
    } else {
      var init, op := ops[..|ops| - 1], ops[|ops| - 1];
      NumberedBefore(ops);
      AsksBefore(ops);
      var w, sent, all, asks := Run(init), Sent(init), Registered(init, Progress), Asks(init);
      assert Delivered(w, sent, all, asks) by { RunsDelivered(init); }
      assert DeliveredAfter(w, op, sent, all, asks) by { DeliveredStep(w, op, sent, all, asks); }
    }
  }

  /** Notification `n` has begun. */
  ghost predicate Begun(s: State, n: nat) { s.memory.Some? && n <= s.memory.value }

  /** Each notification is given to `progress` callbacks in the order of their registration, once each.
      One that has had its turn has reached all callbacks registered when it was sent; the last one begun
      goes to all callbacks registered so far, those of its pass under way excepted, and to those
      registered after the deciding call; one that has not begun has reached nobody. */
  lemma {:induction false} EveryNotificationDelivered(ops: seq<Op>, n: nat)
    requires Numbered(ops) && n < Sent(ops)
    ensures var s, got, all := Run(ops).main.progress, CallbackRuns.Block(CallsOf(Run(ops).log, Progress), n),
                               Registered(ops, Progress);
            && got <= all
            && (CallbackRuns.Completed(s, n) ==> Asks(ops)[n] <= got)
            && (s.memory == Some(n) ==> got + Users(Rest(s)) == all)
            && (!Begun(s, n) ==> got == [])
  {
    RunsDelivered(ops);
    var s, log := Run(ops).main.progress, CallsOf(Run(ops).log, Progress);
    if s.memory.Some? && s.memory.value < n {
      CallbackRuns.NotYet(log, n);
    } else if s.memory.None? {
      assert log == [];
    }
  }

  /** The callbacks `Asks` gives for a notification are those registered when it was sent. */
  lemma {:induction false} AsksMeans(ops: seq<Op>, i: nat)
    requires i < |ops| && Notifies(ops[i]) && Deciding(ops[..i]).None?
    ensures Sent(ops[..i]) < Sent(ops) && Asks(ops)[Sent(ops[..i])] == Registered(ops[..i], Progress)
  {
    var init := ops[..|ops| - 1];
    if i < |init| {
      assert init[..i] == ops[..i];
      AsksMeans(init, i);
    }
  }
}
