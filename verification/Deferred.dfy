/** `Deferred`: three pairs of callback lists wired together.  The first callbacks of the `done` and
    `fail` lists set the state, disable the lists of the opposite outcome, lock the progress lists
    and fire the list of handlers that `then` has registered; they run to completion before any
    user callback gets control.  Handlers of `then` only schedule a task. */
module Deferred {
  import opened Options
  import opened Callbacks

  datatype Kind = Progress | Done | Fail

  datatype Status = Pending | Resolved | Rejected

  datatype Lists = Lists(progress: State, done: State, fail: State) {
    function Get(k: Kind): State {
      match k case Progress => progress case Done => done case Fail => fail
    }

    function Set(k: Kind, s: State): Lists {
      match k case Progress => this.(progress := s) case Done => this.(done := s) case Fail => this.(fail := s)
    }

    ghost predicate Valid() {
      progress.Valid() && done.Valid() && fail.Valid()
    }
  }

  datatype Event = Event(kind: Kind, call: Call)

  /** `log` has the calls of user callbacks, `tasks` the calls of `then` handlers scheduled. */
  datatype Wiring = Wiring(status: Status, main: Lists, handled: Lists, log: seq<Event>, tasks: seq<Event>) {
    ghost predicate Valid() {
      && main.Valid() && handled.Valid()
      && !handled.progress.firing && !handled.done.firing && !handled.fail.firing
    }
  }

  function FlagsOf(k: Kind): Flags {
    Flags(k != Progress, true, false, false)
  }

  function Opposite(k: Kind): Kind {
    if k == Done then Fail else Done
  }

  const WIRED := [Wired(0), Wired(1), Wired(2), Wired(3), Wired(4), Wired(5)]

  function InitialList(k: Kind): State {
    INITIAL.(list := Some(if k == Progress then [Wired(5)] else WIRED))
  }

  const START := Wiring(Pending, Lists(InitialList(Progress), InitialList(Done), InitialList(Fail)),
                        Lists(INITIAL, INITIAL, INITIAL), [], [])

  // ------------------------------------------------------------------ the lists of `then` handlers

  /** The loop waits for the call, or has ended. */
  ghost predicate Stopped(o: Outcome) {
    o.state.Valid() && if o.call.Some? then o.state.firing && o.state.list.Some? else !o.state.firing
  }

  datatype Drained = Drained(state: State, calls: seq<Call>)

  /** Handlers do not give control away, so their list is fired in one go. */
  function DrainHandled(f: Flags, o: Outcome): (d: Drained)
    requires Stopped(o)
    ensures d.state.Valid() && !d.state.firing
    decreases o.call.Some?, |o.state.queue|, o.state.Length() - o.state.index
  {
    if o.call.None? then Drained(o.state, [])
    else
      var next := AfterReturn(f, o.state, false);
      ContinueMoves(f, o.state);
      var rest := DrainHandled(f, next);
      Drained(rest.state, [o.call.value] + rest.calls)
  }

  function Tagged(k: Kind, calls: seq<Call>): (events: seq<Event>)
    ensures |events| == |calls| && forall i | 0 <= i < |calls| :: events[i] == Event(k, calls[i])
  {
    seq(|calls|, i requires 0 <= i < |calls| => Event(k, calls[i]))
  }

  function FireHandled(w: Wiring, k: Kind, o: Outcome): (v: Wiring)
    requires w.Valid() && Stopped(o)
    ensures v.Valid() && v.main == w.main && v.log == w.log
  {
    var d := DrainHandled(FlagsOf(k), o);
    w.(handled := w.handled.Set(k, d.state), tasks := w.tasks + Tagged(k, d.calls))
  }

  // ------------------------------------------------------------------ the main lists

  /** What one of the wired callbacks of a main list does. */
  function Effect(w: Wiring, k: Kind, index: nat, args: Args): (v: Wiring)
    requires w.Valid()
    ensures v.Valid() && v.main.Get(k) == w.main.Get(k) && v.log == w.log
  {
    if k == Progress || index == 5 then
      BeginStops(FlagsOf(k), w.handled.Get(k), args);
      FireHandled(w, k, AfterFire(FlagsOf(k), w.handled.Get(k), args))
    else match index
      case 0 => w.(status := if k == Done then Resolved else Rejected)
      case 1 => w.(main := w.main.Set(Opposite(k), AfterDisable(w.main.Get(Opposite(k)))))
      case 2 => w.(handled := w.handled.Set(Opposite(k), AfterDisable(w.handled.Get(Opposite(k)))))
      case 3 => w.(main := w.main.(progress := AfterLock(w.main.progress)))
      case _ => w.(handled := w.handled.(progress := AfterLock(w.handled.progress)))
  }

  lemma BeginStops(f: Flags, s: State, args: Args)
    requires s.Valid() && !s.firing
    ensures Stopped(AfterFire(f, s, args))
  {
    if !s.locked {
      ContinueMoves(f, s.(locked := s.locked || f.once, fired := true, firing := true, memory := Some(args),
                          queue := []));
    }
  }

  lemma AddStops(f: Flags, s: State, fns: seq<Callback>)
    requires s.Valid() && !s.firing
    ensures Stopped(AfterAdd(f, s, fns))
  {
    if s.list.Some? && s.memory.Some? {
      AddKeepsIndex(f.unique, s.list.value, fns);
      ContinueMoves(f, s.(list := Some(Pushed(f.unique, s.list.value, fns)), index := |s.list.value| - 1,
                          locked := s.locked || f.once, fired := true, firing := true, queue := []));
    }
  }

  /** The main list `k` has stopped at a call: run wired callbacks until a user's gets control. */
  function Drain(w: Wiring, k: Kind, call: Option<Call>): (v: Wiring)
    requires w.Valid() && (call.Some? ==> w.main.Get(k).firing && w.main.Get(k).list.Some?)
    ensures v.Valid()
    decreases call.Some?, |w.main.Get(k).queue|, w.main.Get(k).Length() - w.main.Get(k).index
  {
    if call.None? then w
    else match call.value.fn
      case User(_) => w.(log := w.log + [Event(k, call.value)])
      case Wired(i) =>
        var v := Effect(w, k, i, call.value.args);
        var next := AfterReturn(FlagsOf(k), v.main.Get(k), false);
        ContinueMoves(FlagsOf(k), v.main.Get(k));
        Drain(v.(main := v.main.Set(k, next.state)), k, next.call)
  }

  /** One turn: a wired callback has its effect and the list moves on. */
  lemma DrainWired(w: Wiring, k: Kind, index: nat, args: Args)
    requires w.Valid() && w.main.Get(k).firing && w.main.Get(k).list.Some?
    ensures var v := Effect(w, k, index, args);
            var o := AfterReturn(FlagsOf(k), v.main.Get(k), false);
            Drain(w, k, Some(Call(Wired(index), args))) == Drain(v.(main := v.main.Set(k, o.state)), k, o.call)
  {
  }

  /** What the environment may do at any time: notify, resolve or reject, register a callback or a
      handler of `then`, or return from the user callback that runs in list `k`. */
  datatype Op =
    | Settle(kind: Kind, args: Args)
    | Register(kind: Kind, id: nat)
    | Then(kind: Kind, id: nat)
    | Return(kind: Kind)

  function Step(w: Wiring, op: Op): (v: Wiring)
    requires w.Valid()
    ensures v.Valid()
  {
    var k, f := op.kind, FlagsOf(op.kind);
    match op
    case Settle(_, args) =>
      var o := AfterFire(f, w.main.Get(k), args);
      Drain(w.(main := w.main.Set(k, o.state)), k, o.call)
    case Register(_, id) =>
      var o := AfterAdd(f, w.main.Get(k), [User(id)]);
      Drain(w.(main := w.main.Set(k, o.state)), k, o.call)
    case Then(_, id) =>
      AddStops(f, w.handled.Get(k), [User(id)]);
      FireHandled(w, k, AfterAdd(f, w.handled.Get(k), [User(id)]))
    case Return(_) =>
      if !w.main.Get(k).firing then w
      else
        var o := AfterReturn(f, w.main.Get(k), false);
        Drain(w.(main := w.main.Set(k, o.state)), k, o.call)
  }

  function Run(ops: seq<Op>): (w: Wiring)
    ensures w.Valid()
  {
    if ops == [] then START else Step(Run(ops[..|ops| - 1]), ops[|ops| - 1])
  }
}
