/** What the flags of a callback list mean, over all runs, and when it counts as fired. */
module CallbackFlags {
  import opened Options
  import opened Callbacks
  import opened CallbackRuns

  // ------------------------------------------------------------------ unique

  /** Adding appends what is given; a list with `unique` takes only what it has not got. */
  lemma {:induction false} PushedMeans(unique: bool, list: seq<Callback>, fns: seq<Callback>)
    ensures list <= Pushed(unique, list, fns)
    ensures forall fn :: fn in Pushed(unique, list, fns) <==> fn in list || fn in fns
    ensures !unique ==> Pushed(unique, list, fns) == list + fns
    ensures unique && (forall fn <- fns :: fn in list) ==> Pushed(unique, list, fns) == list
    decreases |fns|
  {
    AddKeepsIndex(unique, list, fns);
    PushedPlain(list, fns);
    if fns != [] {
      var longer := if unique && fns[0] in list then list else list + [fns[0]];
      PushedMeans(unique, longer, fns[1..]);
      assert forall fn :: fn in fns <==> fn == fns[0] || fn in fns[1..];
    }
  }

  /** After an addition to an enabled list that stays open, all callbacks given are on it. */
  lemma AddedAll(f: Flags, ops: seq<Op>, fns: seq<Callback>)
    requires var s := Run(f, ops).state; s.list.Some? && !s.locked && !f.once
    ensures var list := Run(f, ops + [Add(fns)]).state.list;
            list == Some(Pushed(f.unique, Run(f, ops).state.list.value, fns)) && forall fn <- fns :: fn in list.value
  {
    var s := Run(f, ops).state;
    assert (ops + [Add(fns)])[..|ops|] == ops;
    PushedMeans(f.unique, s.list.value, fns);
    if s.memory.Some? && !s.firing {
      assert [s.memory.value][1..] == [];
      ContinueKeepsList(f, s.(list := Some(Pushed(f.unique, s.list.value, fns)), index := |s.list.value| - 1,
                              fired := true, firing := true));
    }
  }

  // ------------------------------------------------------------------ memory

  lemma {:induction false} ContinueForgets(f: Flags, s: State)
    requires s.Looping() && !f.memory
    ensures var o := Continue(f, s); o.call.None? ==> o.state.memory.None?
    decreases |s.queue|
  {
    if s.index + 1 >= s.Length() && s.queue != [] {
      ContinueForgets(f, s.(index := -1, memory := Some(s.queue[0]), queue := s.queue[1..]));
    }
  }

  /** Without `memory` an idle list remembers nothing. */
  lemma {:induction false} IdleForgets(f: Flags, ops: seq<Op>)
    requires !f.memory
    ensures !Run(f, ops).state.firing ==> Run(f, ops).state.memory.None?
  {
    if ops != [] {
      IdleForgets(f, ops[..|ops| - 1]);
      ForgetStep(f, Run(f, ops[..|ops| - 1]), ops[|ops| - 1]);
    }
  }

  lemma ForgetStep(f: Flags, sys: System, op: Op)
    requires !f.memory && sys.state.Valid() && (!sys.state.firing ==> sys.state.memory.None?)
    ensures var s := Step(f, sys, op).state; !s.firing ==> s.memory.None?
  {
    var s := sys.state;
    match op
    case Fire =>
      if !s.locked && !s.firing {
        var t := s.(locked := s.locked || f.once, fired := true, firing := true, memory := Some(sys.fires),
                    queue := []);
        assert [sys.fires][1..] == [];
        ContinueForgets(f, t);
        ContinueMoves(f, t);
      }
    case Return(no) =>
      if s.firing {
        var t := if no && f.stopOnFalse then s.(index := s.Length(), memory := None) else s;
        ContinueForgets(f, t);
        ContinueMoves(f, t);
      }
    case _ =>
  }

  /** So an addition to it calls nothing. */
  lemma NothingReplayed(f: Flags, ops: seq<Op>, fns: seq<Callback>)
    requires !f.memory && !Run(f, ops).state.firing
    ensures Run(f, ops + [Add(fns)]).log == Run(f, ops).log
  {
    assert (ops + [Add(fns)])[..|ops|] == ops;
    IdleForgets(f, ops);
    assert Run(f, ops).log + [] == Run(f, ops).log;
  }

  // ------------------------------------------------------------------ once

  /** Nothing has been fired, or the list is locked with the arguments `m` of all calls. */
  ghost predicate FiredOnce(sys: System, m: Option<Args>) {
    if sys.state.locked then Latched(sys.state, m) && Since([], sys.log, m)
    else sys.log == [] && sys.state.memory.None? && !sys.state.firing && m.None?
  }

  lemma OnceStep(f: Flags, sys: System, op: Op, m: Option<Args>) returns (n: Option<Args>)
    requires f.once && sys.state.Valid() && FiredOnce(sys, m)
    ensures FiredOnce(Step(f, sys, op), n)
  {
    n := m;
    var s := sys.state;
    assert sys.log + [] == sys.log;
    if s.locked {
      LatchedStep(f, sys, op, m);
      SinceMore([], sys.log, Step(f, sys, op).log, m);
    } else if op.Fire? {
      n := Some(sys.fires);
      var t := s.(locked := true, fired := true, firing := true, memory := n, queue := []);
      assert [sys.fires][1..] == [];
      ContinueLatched(f, t, n);
    }
  }

  lemma {:induction false} RunsOnce(f: Flags, ops: seq<Op>) returns (m: Option<Args>)
    requires f.once
    ensures FiredOnce(Run(f, ops), m)
  {
    if ops == [] {
      m := None;
    } else {
      var before := RunsOnce(f, ops[..|ops| - 1]);
      m := OnceStep(f, Run(f, ops[..|ops| - 1]), ops[|ops| - 1], before);
    }
  }

  /** A list with `once` ever passes the arguments of one firing only. */
  lemma OnceOnly(f: Flags, ops: seq<Op>)
    requires f.once
    ensures var log := Run(f, ops).log; forall i, j | 0 <= i < |log| && 0 <= j < |log| :: log[i].args == log[j].args
  {
    var _ := RunsOnce(f, ops);
  }

  // ------------------------------------------------------------------ stopOnFalse

  /** Where a callback returns false the pass ends, and its arguments are forgotten; the next firing in
      the queue starts.  Without the flag the result makes no difference. */
  lemma StoppedOnFalse(f: Flags, sys: System)
    requires sys.state.Valid() && sys.state.firing && sys.state.list.Some?
    ensures var s, r := sys.state, Step(f, sys, Return(true));
            if !f.stopOnFalse then r == Step(f, sys, Return(false))
            else if s.queue == [] then r.log == sys.log && !r.state.firing && r.state.memory.None?
            else s.list.value != [] ==> r.log == sys.log + [Call(s.list.value[0], s.queue[0])]
  {
    var s := sys.state;
    assert sys.log + [] == sys.log;
    if f.stopOnFalse && s.queue != [] && s.list.value != [] {
      var t := s.(index := |s.list.value|, memory := None);
      var u := t.(index := -1, memory := Some(s.queue[0]), queue := s.queue[1..]);
      assert Continue(f, t) == Continue(f, u) && Continue(f, u).call == Some(Call(s.list.value[0], s.queue[0]));
    }
  }

  // ------------------------------------------------------------------ fired

  lemma {:induction false} ContinueFired(f: Flags, s: State)
    requires s.Looping()
    ensures Continue(f, s).state.fired == s.fired
    decreases |s.queue|
  {
    if s.index + 1 >= s.Length() && s.queue != [] {
      ContinueFired(f, s.(index := -1, memory := Some(s.queue[0]), queue := s.queue[1..]));
    }
  }

  lemma FiredStep(f: Flags, sys: System, op: Op)
    requires sys.state.Valid() && (sys.state.memory.Some? || sys.state.firing ==> sys.state.fired)
    ensures var s := Step(f, sys, op).state;
            && (s.fired <==> sys.state.fired || (op.Fire? && !sys.state.locked))
            && (s.memory.Some? || s.firing ==> s.fired)
  {
    var s := sys.state;
    match op
    case Add(fns) =>
      if s.list.Some? && s.memory.Some? && !s.firing {
        AddKeepsIndex(f.unique, s.list.value, fns);
        ContinueFired(f, s.(list := Some(Pushed(f.unique, s.list.value, fns)), index := |s.list.value| - 1,
                            locked := s.locked || f.once, fired := true, firing := true));
      }
    case Fire =>
      if !s.locked && !s.firing {
        assert [sys.fires][1..] == [];
        ContinueFired(f, s.(locked := s.locked || f.once, fired := true, firing := true, memory := Some(sys.fires),
                            queue := []));
      }
    case Return(no) =>
      if s.firing {
        ContinueFired(f, if no && f.stopOnFalse then s.(index := s.Length(), memory := None) else s);
      }
    case _ =>
  }

  /** Operation `i` asks for a firing that is not ignored. */
  ghost predicate Accepted(f: Flags, ops: seq<Op>, i: nat) {
    i < |ops| && ops[i].Fire? && !Run(f, ops[..i]).state.locked
  }

  lemma AcceptedBefore(f: Flags, init: seq<Op>, op: Op, i: nat)
    ensures Accepted(f, init + [op], i) <==>
            if i == |init| then op.Fire? && !Run(f, init).state.locked else Accepted(f, init, i)
  {
    if i <= |init| { assert (init + [op])[..i] == init[..i] && init[..|init|] == init; }
  }

  /** `fired`: some firing has not been ignored. */
  lemma {:induction false} FiredMeans(f: Flags, ops: seq<Op>)
    ensures Run(f, ops).state.fired <==> exists i: nat :: Accepted(f, ops, i)
    ensures var s := Run(f, ops).state; s.memory.Some? || s.firing ==> s.fired
  {
    if ops != [] {
      var init, op := ops[..|ops| - 1], ops[|ops| - 1];
      FiredMeans(f, init);
      FiredStep(f, Run(f, init), op);
      assert ops == init + [op];
      forall i: nat
        ensures Accepted(f, ops, i) <==>
                if i == |init| then op.Fire? && !Run(f, init).state.locked else Accepted(f, init, i)
      {
        AcceptedBefore(f, init, op, i);
      }
      assert !Accepted(f, init, |init|);
    }
  }
}
