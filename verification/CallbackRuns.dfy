/** Properties of `Callbacks` over all runs.  The k-th firing passes the number k as its arguments,
    so that the log of calls tells which firing each call belongs to. */
module CallbackRuns {
  import opened Options
  import opened Callbacks

  datatype Op = Add(fns: seq<Callback>) | Remove(fn: Callback) | Fire | Return(returnedFalse: bool) | Lock | Disable

  datatype System = System(state: State, fires: nat, log: seq<Call>)

  function Logged(sys: System, o: Outcome, fires: nat): System {
    System(o.state, fires, sys.log + if o.call.Some? then [o.call.value] else [])
  }

  /** One step of the environment: an operation, or the return of the callback that runs. */
  function Step(f: Flags, sys: System, op: Op): (r: System)
    requires sys.state.Valid()
    ensures r.state.Valid()
  {
    match op
    case Add(fns) => Logged(sys, AfterAdd(f, sys.state, fns), sys.fires)
    case Remove(fn) => sys.(state := AfterRemove(sys.state, fn))
    case Fire => Logged(sys, AfterFire(f, sys.state, sys.fires), sys.fires + 1)
    case Return(returnedFalse) =>
      if sys.state.firing then Logged(sys, AfterReturn(f, sys.state, returnedFalse), sys.fires) else sys
    case Lock => sys.(state := AfterLock(sys.state))
    case Disable => sys.(state := AfterDisable(sys.state))
  }

  function Run(f: Flags, ops: seq<Op>): (r: System)
    ensures r.state.Valid()
  {
    if ops == [] then System(INITIAL, 0, [])
    else Step(f, Run(f, ops[..|ops| - 1]), ops[|ops| - 1])
  }

  // ------------------------------------------------------------------ removal during a pass

  /** After a removal exactly the callbacks that stay are still to be run. */
  lemma RemoveKeepsUnrun(s: State, fn: Callback)
    requires s.Valid()
    ensures AfterRemove(s, fn).Unrun() == Without(s.Unrun(), fn)
  {
    if s.list.Some? {
      var list, t := s.list.value, AfterRemove(s, fn);
      var kept, rest := Without(list[..s.index + 1], fn), Without(list[s.index + 1..], fn);
      assert t.list.value == kept + rest && t.index + 1 == |kept| by { WithoutSplits(list, s.index + 1, fn); }
      assert t.Unrun() == t.list.value[t.index + 1..] by { assert |kept| <= |kept + rest|; }
      DropPrefix(kept, rest);
    }
  }

  lemma DropPrefix(a: seq<Callback>, b: seq<Callback>)
    ensures (a + b)[|a|..] == b
  {
  }

  lemma {:induction false} WithoutRemoves(list: seq<Callback>, fn: Callback)
    ensures fn !in Without(list, fn)
    ensures forall x :: x != fn ==> (x in Without(list, fn) <==> x in list)
    ensures NoDuplicates(list) ==> NoDuplicates(Without(list, fn))
  {
    if list != [] {
      var init := list[..|list| - 1];
      var w := Without(init, fn);
      WithoutRemoves(init, fn);
      assert list == init + [list[|list| - 1]];
      assert forall i | 0 <= i < |w| :: w[i] in w;
    }
  }

  // ------------------------------------------------------------------ lock and disable

  /** A locked list: it can only go on with, or replay, the arguments `m`. */
  ghost predicate Latched(s: State, m: Option<Args>) {
    s.locked && s.queue == [] && if s.memory.Some? then s.memory == m else s.list.None?
  }

  lemma ContinueLatched(f: Flags, s: State, m: Option<Args>)
    requires s.Looping() && s.locked && s.queue == [] && (s.memory.Some? ==> s.memory == m)
    ensures var o := Continue(f, s); Latched(o.state, m) && (o.call.Some? ==> m == Some(o.call.value.args))
  {
  }

  /** All calls since then carry `m`. */
  ghost predicate Since(was: seq<Call>, now: seq<Call>, m: Option<Args>) {
    && was <= now && (m.None? ==> now == was)
    && forall j | |was| <= j < |now| :: m == Some(now[j].args)
  }

  /** At most one more call, which carries `m`. */
  ghost predicate OneMore(log: seq<Call>, next: seq<Call>, m: Option<Args>) {
    next == log || (m.Some? && exists fn :: next == log + [Call(fn, m.value)])
  }

  lemma SinceMore(was: seq<Call>, log: seq<Call>, next: seq<Call>, m: Option<Args>)
    requires Since(was, log, m) && OneMore(log, next, m)
    ensures Since(was, next, m)
  {
  }

  lemma {:induction false} LatchedStep(f: Flags, sys: System, op: Op, m: Option<Args>)
    requires sys.state.Valid() && Latched(sys.state, m)
    ensures var r := Step(f, sys, op); Latched(r.state, m) && OneMore(sys.log, r.log, m)
  {
    var s := sys.state;
    assert sys.log + [] == sys.log;
    match op
    case Add(fns) =>
      if s.list.Some? && !s.firing {
        AddKeepsIndex(f.unique, s.list.value, fns);
        assert [s.memory.value][1..] == [];
        ContinueLatched(f, s.(list := Some(Pushed(f.unique, s.list.value, fns)), index := |s.list.value| - 1,
                              fired := true, firing := true), m);
      }
    case Return(returnedFalse) =>
      if s.firing {
        ContinueLatched(f, if returnedFalse && f.stopOnFalse then s.(index := s.Length(), memory := None) else s, m);
      }
    case _ =>
  }

  lemma {:induction false} LatchedRun(f: Flags, ops: seq<Op>, more: seq<Op>, m: Option<Args>)
    requires Latched(Run(f, ops).state, m)
    ensures Latched(Run(f, ops + more).state, m) && Since(Run(f, ops).log, Run(f, ops + more).log, m)
  {
    if more == [] {
      assert ops + more == ops;
    } else {
      var n := |more| - 1;
      var was, mid, now := Run(f, ops), Run(f, ops + more[..n]), Run(f, ops + more);
      assert Latched(mid.state, m) && Since(was.log, mid.log, m) by { LatchedRun(f, ops, more[..n], m); }
      assert now == Step(f, mid, more[n]) by { assert (ops + more)[..|ops + more| - 1] == ops + more[..n]; }
      assert Latched(now.state, m) && OneMore(mid.log, now.log, m) by { LatchedStep(f, mid, more[n], m); }
      SinceMore(was.log, mid.log, now.log, m);
    }
  }

  /** After `lock` nothing that is fired reaches a callback: all later calls carry the arguments that
      were being or had last been fired, and there are none if nothing had been. */
  lemma LockKeepsArguments(f: Flags, ops: seq<Op>, more: seq<Op>)
    ensures var was, now := Run(f, ops), Run(f, ops + [Lock] + more).log;
            was.log <= now && forall j | |was.log| <= j < |now| :: was.state.memory == Some(now[j].args)
  {
    assert (ops + [Lock])[..|ops|] == ops;
    LatchedRun(f, ops + [Lock], more, Run(f, ops).state.memory);
  }

  /** After `disable` no operation calls anything, not even the rest of the firing under way. */
  lemma DisableEndsCalls(f: Flags, ops: seq<Op>, more: seq<Op>)
    ensures Run(f, ops + [Disable] + more).log == Run(f, ops).log
    ensures Run(f, ops + [Disable] + more).state.list == None
  {
    assert (ops + [Disable])[..|ops|] == ops;
    LatchedRun(f, ops + [Disable], more, None);
  }

  // ------------------------------------------------------------------ unique

  ghost predicate NoDuplicates(list: seq<Callback>) {
    forall i, j | 0 <= i < j < |list| :: list[i] != list[j]
  }

  lemma {:induction false} PushedUnique(list: seq<Callback>, fns: seq<Callback>)
    requires NoDuplicates(list)
    ensures NoDuplicates(Pushed(true, list, fns))
    decreases |fns|
  {
    if fns != [] {
      PushedUnique(if fns[0] in list then list else list + [fns[0]], fns[1..]);
    }
  }

  lemma {:induction false} ContinueList(f: Flags, s: State)
    requires s.Looping()
    ensures var t := Continue(f, s).state; t.list == s.list || t.list == Some([]) || t.list == None
    decreases |s.queue|
  {
    if s.index + 1 >= s.Length() && s.queue != [] {
      ContinueList(f, s.(index := -1, memory := Some(s.queue[0]), queue := s.queue[1..]));
    }
  }

  /** With the flag `unique`, no run ever puts a callback on the list twice. */
  lemma {:induction false} UniqueLists(f: Flags, ops: seq<Op>)
    requires f.unique
    ensures var list := Run(f, ops).state.list; list.Some? ==> NoDuplicates(list.value)
  {
    if ops != [] {
      var sys, op := Run(f, ops[..|ops| - 1]), ops[|ops| - 1];
      UniqueLists(f, ops[..|ops| - 1]);
      match op
      case Add(fns) => AddUnique(f, sys.state, fns);
      case Remove(fn) => if sys.state.list.Some? { WithoutRemoves(sys.state.list.value, fn); }
      case Fire => FireList(f, sys.state, sys.fires);
      case Return(returnedFalse) => if sys.state.firing { ReturnList(f, sys.state, returnedFalse); }
      case _ =>
    }
  }

  lemma AddUnique(f: Flags, s: State, fns: seq<Callback>)
    requires f.unique && s.Valid() && (s.list.Some? ==> NoDuplicates(s.list.value))
    ensures var list := AfterAdd(f, s, fns).state.list; list.Some? ==> NoDuplicates(list.value)
  {
    if s.list.Some? {
      PushedUnique(s.list.value, fns);
      if s.memory.Some? && !s.firing {
        ContinueList(f, s.(list := Some(Pushed(true, s.list.value, fns)), index := |s.list.value| - 1,
                           locked := s.locked || f.once, fired := true, firing := true));
      }
    }
  }

  lemma FireList(f: Flags, s: State, args: Args)
    requires s.Valid()
    ensures var list := AfterFire(f, s, args).state.list; list == s.list || list == Some([]) || list == None
  {
    if !s.locked && !s.firing {
      ContinueList(f, s.(locked := s.locked || f.once, fired := true, firing := true, memory := Some(args),
                         queue := []));
    }
  }

  lemma ReturnList(f: Flags, s: State, returnedFalse: bool)
    requires s.Valid() && s.firing
    ensures var list := AfterReturn(f, s, returnedFalse).state.list; list == s.list || list == Some([]) || list == None
  {
    ContinueList(f, if returnedFalse && f.stopOnFalse then s.(index := s.Length(), memory := None) else s);
  }

  // ------------------------------------------------------------------ firings one after another

  /** The callbacks that must have had the current arguments: those up to the index, or all of them
      while the list is idle. */
  function Passed(s: State): seq<Callback>
    requires s.Valid()
  {
    if s.list.None? then [] else if s.firing then s.list.value[..s.index + 1] else s.list.value
  }

  ghost predicate Delivered(s: State, log: seq<Call>)
    requires s.Valid()
  {
    s.memory.Some? ==> forall fn <- Passed(s) :: Call(fn, s.memory.value) in log
  }

  /** The firings in the log, in order. */
  ghost predicate Ascending(log: seq<Call>) {
    log == [] || (Ascending(log[..|log| - 1]) && (|log| > 1 ==> log[|log| - 2].args <= log[|log| - 1].args))
  }

  /** The queue holds the firings between the current one and the next to be asked for; a locked list
      takes no more of them. */
  ghost predicate Waiting(s: State, fires: nat) {
    if s.locked then s.queue == []
    else if s.memory.None? then fires == 0 && s.queue == []
    else
      && |s.queue| == fires - 1 - s.memory.value
      && forall i | 0 <= i < |s.queue| :: s.queue[i] == s.memory.value + 1 + i
  }

  /** Calls come in the order of their firings, and no firing is lost. */
  ghost predicate InOrder(s: State, fires: nat, log: seq<Call>) {
    && Ascending(log)
    && (s.list.Some? && s.memory.None? ==> log == [] && !s.firing)
    && (s.memory.Some? ==> s.memory.value < fires && (log != [] ==> log[|log| - 1].args <= s.memory.value))
    && Waiting(s, fires)
  }

  ghost predicate Orderly(sys: System) {
    && sys.state.Valid() && (sys.state.firing ==> sys.state.list.Some?)
    && InOrder(sys.state, sys.fires, sys.log) && Delivered(sys.state, sys.log)
  }

  /** No lock or disable while the list is being fired. */
  ghost predicate Undisturbed(f: Flags, ops: seq<Op>) {
    forall i | 0 <= i < |ops| :: ops[i].Lock? || ops[i].Disable? ==> !Run(f, ops[..i]).state.firing
  }

  lemma {:induction false} AscendingIsSorted(log: seq<Call>)
    requires Ascending(log)
    ensures forall i, j | 0 <= i < j < |log| :: log[i].args <= log[j].args
  {
    if log != [] { AscendingIsSorted(log[..|log| - 1]); }
  }

  lemma LogOne(log: seq<Call>, call: Call)
    requires Ascending(log) && (log != [] ==> log[|log| - 1].args <= call.args)
    ensures Ascending(log + [call]) && call in log + [call] && forall x <- log :: x in log + [call]
  {
    assert (log + [call])[..|log|] == log && (log + [call])[|log|] == call;
  }

  /** The loop at a point where everything up to the index has been delivered. */
  ghost predicate AtIndex(s: State, fires: nat, log: seq<Call>) {
    && s.Looping() && s.memory.Some? && s.list.Some? && s.index < |s.list.value|
    && InOrder(s, fires, log)
    && forall fn <- s.list.value[..s.index + 1] :: Call(fn, s.memory.value) in log
  }

  lemma CallOrderly(s: State, fires: nat, log: seq<Call>)
    requires AtIndex(s, fires, log) && s.index + 1 < |s.list.value|
    ensures var call := Call(s.list.value[s.index + 1], s.memory.value);
            Orderly(System(s.(index := s.index + 1), fires, log + [call]))
  {
    var list, t := s.list.value, s.(index := s.index + 1);
    var call := Call(list[t.index], s.memory.value);
    LogOne(log, call);
    assert InOrder(t, fires, log + [call]);
    assert Passed(t) == list[..t.index + 1] == list[..t.index] + [list[t.index]];
    forall fn | fn in Passed(t)
      ensures Call(fn, s.memory.value) in log + [call]
    {
      assert fn in list[..t.index] || fn == call.fn;
    }
  }

  lemma EndOrderly(f: Flags, s: State, fires: nat, log: seq<Call>)
    requires f.memory && AtIndex(s, fires, log) && s.index + 1 == |s.list.value| && s.queue == []
    ensures Orderly(System(Finish(f, s), fires, log))
  {
    assert s.list.value[..s.index + 1] == s.list.value;
  }

  lemma {:induction false} ContinueOrderly(f: Flags, s: State, fires: nat, log: seq<Call>)
    requires f.memory && AtIndex(s, fires, log)
    ensures Orderly(Logged(System(s, fires, log), Continue(f, s), fires))
    decreases |s.queue|
  {
    if s.index + 1 < |s.list.value| {
      CallOrderly(s, fires, log);
    } else if s.queue != [] {
      var t := s.(index := -1, memory := Some(s.queue[0]), queue := s.queue[1..]);
      assert s.list.value[..0] == [];
      ContinueOrderly(f, t, fires, log);
    } else {
      assert log + [] == log;
      EndOrderly(f, s, fires, log);
    }
  }

  lemma {:induction false} RunsOrderly(f: Flags, ops: seq<Op>)
    requires f.memory && !f.stopOnFalse && Undisturbed(f, ops)
    ensures Orderly(Run(f, ops))
  {
    if ops != [] {
      var init, op := ops[..|ops| - 1], ops[|ops| - 1];
      UndisturbedBefore(f, ops);
      RunsOrderly(f, init);
      var sys := Run(f, init);
      match op
      case Add(fns) => AddOrderly(f, sys, fns);
      case Remove(fn) => RemoveOrderly(sys, fn);
      case Fire => FireOrderly(f, sys);
      case Return(_) => if sys.state.firing { ContinueOrderly(f, sys.state, sys.fires, sys.log); }
      case _ => OffOrderly(f, sys, op);
    }
  }

  lemma UndisturbedBefore(f: Flags, ops: seq<Op>)
    requires ops != [] && Undisturbed(f, ops)
    ensures Undisturbed(f, ops[..|ops| - 1])
    ensures ops[|ops| - 1].Lock? || ops[|ops| - 1].Disable? ==> !Run(f, ops[..|ops| - 1]).state.firing
  {
    assert forall i | 0 <= i < |ops| - 1 :: ops[..|ops| - 1][..i] == ops[..i];
  }

  /** Firings of a list with memory are delivered one after another in the order of the calls to
      fire, however they are nested, none is lost, and each reaches every callback that stays on the
      list. */
  lemma {:induction false} FirstInFirstOut(f: Flags, ops: seq<Op>)
    requires f.memory && !f.stopOnFalse && Undisturbed(f, ops)
    ensures Orderly(Run(f, ops))
    ensures var log := Run(f, ops).log; forall i, j | 0 <= i < j < |log| :: log[i].args <= log[j].args
    ensures var r := Run(f, ops);
            !r.state.locked && !r.state.firing ==> r.state.memory == if r.fires == 0 then None else Some(r.fires - 1)
  {
    RunsOrderly(f, ops);
    AscendingIsSorted(Run(f, ops).log);
  }

  lemma OffOrderly(f: Flags, sys: System, op: Op)
    requires Orderly(sys) && (op.Lock? || op.Disable?) && !sys.state.firing
    ensures Orderly(Step(f, sys, op))
  {
  }

  lemma FireOrderly(f: Flags, sys: System)
    requires f.memory && Orderly(sys)
    ensures Orderly(Step(f, sys, Fire))
  {
    var s := sys.state;
    if s.locked || s.firing {
      assert sys.log + [] == sys.log;
    } else {
      var t := s.(locked := f.once, fired := true, firing := true, memory := Some(sys.fires), queue := []);
      assert [sys.fires][1..] == [] && t.list.value[..0] == [];
      ContinueOrderly(f, t, sys.fires + 1, sys.log);
    }
  }

  lemma AddOrderly(f: Flags, sys: System, fns: seq<Callback>)
    requires f.memory && Orderly(sys)
    ensures Orderly(Step(f, sys, Add(fns)))
  {
    var s := sys.state;
    assert sys.log + [] == sys.log;
    if s.list.Some? {
      AddKeepsIndex(f.unique, s.list.value, fns);
      var longer := Pushed(f.unique, s.list.value, fns);
      if s.memory.Some? && !s.firing {
        ReplayOrderly(f, sys, longer);
      } else {
        LongerOrderly(sys, longer);
      }
    }
  }

  lemma LongerOrderly(sys: System, longer: seq<Callback>)
    requires Orderly(sys) && sys.state.list.Some? && (sys.state.memory.Some? ==> sys.state.firing)
    requires sys.state.list.value <= longer
    ensures Orderly(sys.(state := sys.state.(list := Some(longer))))
  {
    var s := sys.state;
    if s.firing { assert longer[..s.index + 1] == s.list.value[..s.index + 1]; }
  }

  lemma ReplayOrderly(f: Flags, sys: System, longer: seq<Callback>)
    requires f.memory && Orderly(sys) && sys.state.list.Some? && sys.state.memory.Some? && !sys.state.firing
    requires sys.state.list.value <= longer
    ensures var s := sys.state;
            var t := s.(list := Some(longer), index := |s.list.value| - 1, queue := [s.memory.value]);
            Orderly(Logged(sys, Begin(f, t), sys.fires))
  {
    var s := sys.state;
    var t := s.(list := Some(longer), index := |s.list.value| - 1, locked := s.locked || f.once, fired := true,
                firing := true);
    assert AtIndex(t, sys.fires, sys.log) by { assert longer[..|s.list.value|] == s.list.value; }
    ContinueOrderly(f, t, sys.fires, sys.log);
    assert [s.memory.value][1..] == [];
  }

  lemma RemoveOrderly(sys: System, fn: Callback)
    requires Orderly(sys)
    ensures Orderly(sys.(state := AfterRemove(sys.state, fn)))
  {
    var s := sys.state;
    if s.list.Some? {
      WithoutRemoves(Passed(s), fn);
      PassedWithout(s, fn);
    }
  }

  /** When a pass ends, because the next firing starts or the loop stops, every callback on the list
      at that moment has been called in it. */
  lemma {:induction false} PassReachesAll(f: Flags, ops: seq<Op>, op: Op)
    requires f.memory && !f.stopOnFalse && Undisturbed(f, ops + [op])
    requires var s, t := Run(f, ops).state, Run(f, ops + [op]).state;
             s.firing && (t.memory != s.memory || !t.firing) && !op.Lock? && !op.Disable?
    ensures var sys := Run(f, ops); var s := sys.state;
            s.memory.Some? && s.list.Some? && forall fn <- s.list.value :: Call(fn, s.memory.value) in sys.log
  {
    assert (ops + [op])[..|ops|] == ops;
    assert Undisturbed(f, ops) by {
      assert forall i | 0 <= i < |ops| :: (ops + [op])[..i] == ops[..i] && (ops + [op])[i] == ops[i];
    }
    FirstInFirstOut(f, ops);
  }

  // ------------------------------------------------------------------ exactly once

  /** The callbacks called in firing `k`, in the order of their calls. */
  function Block(log: seq<Call>, k: nat): seq<Callback> {
    if log == [] then []
    else Block(log[..|log| - 1], k) + if log[|log| - 1].args == k then [log[|log| - 1].fn] else []
  }

  lemma {:induction false} NoBlock(log: seq<Call>, k: nat)
    requires forall i | 0 <= i < |log| :: log[i].args != k
    ensures Block(log, k) == []
  {
    if log != [] { NoBlock(log[..|log| - 1], k); }
  }

  /** The callbacks that are not `gone`. */
  function Staying(list: seq<Callback>, gone: set<Callback>): seq<Callback> {
    if list == [] then []
    else Staying(list[..|list| - 1], gone) + if list[|list| - 1] in gone then [] else [list[|list| - 1]]
  }

  lemma {:induction false} StayingSum(a: seq<Callback>, b: seq<Callback>, gone: set<Callback>)
    ensures Staying(a + b, gone) == Staying(a, gone) + Staying(b, gone)
  {
    if b == [] {
      assert a + b == a;
    } else {
      var init := b[..|b| - 1];
      assert (a + b)[..|a + b| - 1] == a + init;
      StayingSum(a, init, gone);
    }
  }

  lemma StayingOne(list: seq<Callback>, fn: Callback, gone: set<Callback>)
    ensures Staying(list + [fn], gone) == Staying(list, gone) + if fn in gone then [] else [fn]
  {
    assert (list + [fn])[..|list|] == list;
  }

  lemma StayingPrefix(list: seq<Callback>, longer: seq<Callback>, gone: set<Callback>)
    requires list <= longer
    ensures Staying(list, gone) <= Staying(longer, gone)
  {
    StayingSum(list, longer[|list|..], gone);
    assert list + longer[|list|..] == longer;
  }

  lemma {:induction false} StayingWithout(list: seq<Callback>, fn: Callback, gone: set<Callback>)
    requires fn in gone
    ensures Staying(Without(list, fn), gone) == Staying(list, gone)
  {
    if list != [] {
      var init, last := list[..|list| - 1], list[|list| - 1];
      StayingWithout(init, fn, gone);
      StayingOne(Without(init, fn), last, gone);
      assert Without(init, fn) + [] == Without(init, fn);
    }
  }

  lemma {:induction false} AllStaying(list: seq<Callback>)
    ensures Staying(list, {}) == list
  {
    if list != [] { AllStaying(list[..|list| - 1]); }
  }

  /** Every firing has called a prefix of the list. */
  ghost predicate Among(log: seq<Call>, list: seq<Callback>, gone: set<Callback>) {
    forall k: nat :: Staying(Block(log, k), gone) <= Staying(list, gone)
  }

  lemma AmongLonger(log: seq<Call>, list: seq<Callback>, longer: seq<Callback>, gone: set<Callback>)
    requires Among(log, list, gone) && Staying(list, gone) <= Staying(longer, gone)
    ensures Among(log, longer, gone)
  {
  }

  /** Leaving aside the callbacks that are `gone`: each firing has called the callbacks of a prefix of
      the list, in order and once each; the one under way has come as far as the index, and while idle
      the last one has called them all. */
  ghost predicate Exact(s: State, log: seq<Call>, gone: set<Callback>)
    requires s.Valid()
  {
    && s.list.Some? && (s.memory.None? ==> log == [])
    && Among(log, s.list.value, gone)
    && (s.memory.Some? ==> Staying(Block(log, s.memory.value), gone) == Staying(Passed(s), gone))
  }

  lemma BlockOne(log: seq<Call>, call: Call, k: nat)
    ensures Block(log + [call], k) == Block(log, k) + if call.args == k then [call.fn] else []
  {
    assert (log + [call])[..|log|] == log;
  }

  lemma NotYet(log: seq<Call>, k: nat)
    requires Ascending(log) && (log != [] ==> log[|log| - 1].args < k)
    ensures Block(log, k) == []
  {
    AscendingIsSorted(log);
    NoBlock(log, k);
  }

  ghost predicate ExactAtIndex(s: State, fires: nat, log: seq<Call>, gone: set<Callback>) {
    && s.Looping() && s.list.Some? && s.index < |s.list.value| && !s.locked && s.memory.Some?
    && InOrder(s, fires, log)
    && Among(log, s.list.value, gone)
    && Staying(Block(log, s.memory.value), gone) == Staying(s.list.value[..s.index + 1], gone)
  }

  ghost predicate ExactOpen(sys: System, gone: set<Callback>) {
    sys.state.Valid() && Exact(sys.state, sys.log, gone) && !sys.state.locked
  }

  lemma CallExact(s: State, fires: nat, log: seq<Call>, gone: set<Callback>)
    requires ExactAtIndex(s, fires, log, gone) && s.index + 1 < |s.list.value|
    ensures var call := Call(s.list.value[s.index + 1], s.memory.value);
            Exact(s.(index := s.index + 1), log + [call], gone)
  {
    var list, i := s.list.value, s.index;
    var call := Call(list[i + 1], s.memory.value);
    assert Staying(Block(log + [call], call.args), gone) == Staying(list[..i + 2], gone) by {
      assert list[..i + 2] == list[..i + 1] + [list[i + 1]];
      BlockOne(log, call, call.args);
      StayingOne(list[..i + 1], call.fn, gone);
      StayingOne(Block(log, call.args), call.fn, gone);
    }
    forall k: nat
      ensures Staying(Block(log + [call], k), gone) <= Staying(list, gone)
    {
      if k == call.args {
        StayingPrefix(list[..i + 2], list, gone);
      } else {
        BlockOne(log, call, k);
        assert Block(log, k) + [] == Block(log, k);
      }
    }
  }

  lemma NextPass(s: State, fires: nat, log: seq<Call>, gone: set<Callback>)
    requires ExactAtIndex(s, fires, log, gone) && s.index + 1 == |s.list.value| && s.queue != []
    ensures ExactAtIndex(s.(index := -1, memory := Some(s.queue[0]), queue := s.queue[1..]), fires, log, gone)
    ensures s.queue[0] == s.memory.value + 1
    ensures Staying(Block(log, s.memory.value), gone) == Staying(s.list.value, gone)
  {
    NotYet(log, s.queue[0]);
    assert s.list.value[..0] == [] && s.list.value[..s.index + 1] == s.list.value;
  }

  lemma {:induction false} ContinueExact(f: Flags, s: State, fires: nat, log: seq<Call>, gone: set<Callback>)
    requires f.memory && ExactAtIndex(s, fires, log, gone)
    ensures ExactOpen(Logged(System(s, fires, log), Continue(f, s), fires), gone)
    decreases |s.queue|
  {
    if s.index + 1 < |s.list.value| {
      var call := Call(s.list.value[s.index + 1], s.memory.value);
      assert ExactOpen(System(s.(index := s.index + 1), fires, log + [call]), gone) by {
        CallExact(s, fires, log, gone);
      }
    } else if s.queue != [] {
      var t := s.(index := -1, memory := Some(s.queue[0]), queue := s.queue[1..]);
      assert ExactAtIndex(t, fires, log, gone) by { NextPass(s, fires, log, gone); }
      ContinueExact(f, t, fires, log, gone);
    } else {
      assert ExactOpen(System(Finish(f, s), fires, log), gone) by { EndExact(f, s, fires, log, gone); }
      assert log + [] == log;
    }
  }

  lemma EndExact(f: Flags, s: State, fires: nat, log: seq<Call>, gone: set<Callback>)
    requires f.memory && ExactAtIndex(s, fires, log, gone) && s.index + 1 == |s.list.value| && s.queue == []
    ensures Exact(Finish(f, s), log, gone) && !Finish(f, s).locked
  {
    assert s.list.value[..s.index + 1] == s.list.value;
  }

  /** A list that may be fired again and again. */
  predicate Repeatable(f: Flags) { f.memory && !f.once && !f.stopOnFalse }

  /** No lock or disable, and only callbacks that are `gone` are removed. */
  predicate Removing(op: Op, gone: set<Callback>) {
    !op.Lock? && !op.Disable? && (op.Remove? ==> op.fn in gone)
  }

  ghost predicate AllRemoving(ops: seq<Op>, gone: set<Callback>) {
    forall i | 0 <= i < |ops| :: Removing(ops[i], gone)
  }

  /** Every firing of a `memory` list calls every callback that is never removed exactly once for each
      of its places on the list, in list order. */
  lemma {:induction false} ExactlyOnce(f: Flags, ops: seq<Op>, gone: set<Callback>)
    requires Repeatable(f) && AllRemoving(ops, gone)
    ensures ExactOpen(Run(f, ops), gone)
  {
    if ops != [] {
      var init, op := ops[..|ops| - 1], ops[|ops| - 1];
      FirstInFirstOut(f, init);
      ExactlyOnce(f, init, gone);
      StepExact(f, Run(f, init), op, gone);
    }
  }

  ghost predicate Steady(f: Flags, sys: System, gone: set<Callback>) {
    Repeatable(f) && Orderly(sys) && ExactOpen(sys, gone)
  }

  lemma StepExact(f: Flags, sys: System, op: Op, gone: set<Callback>)
    requires Steady(f, sys, gone) && Removing(op, gone)
    ensures ExactOpen(Step(f, sys, op), gone)
  {
    match op
    case Add(fns) => AddExact(f, sys, fns, gone);
    case Remove(fn) => RemoveExact(f, sys, fn, gone);
    case Fire => FireExact(f, sys, gone);
    case Return(_) =>
      if sys.state.firing { ContinueExact(f, sys.state, sys.fires, sys.log, gone); }
  }

  lemma AddExact(f: Flags, sys: System, fns: seq<Callback>, gone: set<Callback>)
    requires Steady(f, sys, gone)
    ensures ExactOpen(Step(f, sys, Add(fns)), gone)
  {
    var s, longer := sys.state, Pushed(f.unique, sys.state.list.value, fns);
    assert s.list.value <= longer by { AddKeepsIndex(f.unique, s.list.value, fns); }
    assert Among(sys.log, longer, gone) by {
      StayingPrefix(s.list.value, longer, gone);
      AmongLonger(sys.log, s.list.value, longer, gone);
    }
    if s.memory.Some? && !s.firing {
      var t := s.(list := Some(longer), index := |s.list.value| - 1, fired := true, firing := true);
      assert ExactAtIndex(t, sys.fires, sys.log, gone) by { ReplayExact(sys, longer, gone); }
      ContinueExact(f, t, sys.fires, sys.log, gone);
      assert [s.memory.value][1..] == [];
    } else {
      assert ExactOpen(sys.(state := s.(list := Some(longer))), gone) by { LongerExact(sys, longer, gone); }
      assert sys.log + [] == sys.log;
    }
  }

  lemma ReplayExact(sys: System, longer: seq<Callback>, gone: set<Callback>)
    requires Orderly(sys) && !sys.state.locked && Exact(sys.state, sys.log, gone)
    requires sys.state.memory.Some? && !sys.state.firing && sys.state.list.value <= longer
    requires Among(sys.log, longer, gone)
    ensures var s := sys.state;
            ExactAtIndex(s.(list := Some(longer), index := |s.list.value| - 1, fired := true, firing := true),
                         sys.fires, sys.log, gone)
  {
    var s := sys.state;
    var t := s.(list := Some(longer), index := |s.list.value| - 1, fired := true, firing := true);
    assert InOrder(t, sys.fires, sys.log);
    assert longer[..t.index + 1] == s.list.value == Passed(s);
  }

  lemma LongerExact(sys: System, longer: seq<Callback>, gone: set<Callback>)
    requires Orderly(sys) && Exact(sys.state, sys.log, gone) && Among(sys.log, longer, gone)
    requires (sys.state.memory.Some? ==> sys.state.firing) && sys.state.list.value <= longer
    ensures Exact(sys.state.(list := Some(longer)), sys.log, gone)
  {
    var s := sys.state;
    if s.firing { assert Passed(s.(list := Some(longer))) == Passed(s); }
  }

  lemma RemoveExact(f: Flags, sys: System, fn: Callback, gone: set<Callback>)
    requires Steady(f, sys, gone) && fn in gone
    ensures ExactOpen(Step(f, sys, Remove(fn)), gone)
  {
    var s, t := sys.state, AfterRemove(sys.state, fn);
    assert Among(sys.log, t.list.value, gone) by {
      StayingWithout(s.list.value, fn, gone);
      AmongLonger(sys.log, s.list.value, t.list.value, gone);
    }
    assert Staying(Passed(t), gone) == Staying(Passed(s), gone) by {
      PassedWithout(s, fn);
      StayingWithout(Passed(s), fn, gone);
    }
  }

  lemma PassedWithout(s: State, fn: Callback)
    requires s.Valid() && s.list.Some?
    ensures Passed(AfterRemove(s, fn)) == Without(Passed(s), fn)
  {
    WithoutSplits(s.list.value, s.index + 1, fn);
  }

  lemma FireExact(f: Flags, sys: System, gone: set<Callback>)
    requires Steady(f, sys, gone)
    ensures ExactOpen(Step(f, sys, Fire), gone)
  {
    var s := sys.state;
    if s.firing {
      assert sys.log + [] == sys.log;
      assert Passed(s.(queue := s.queue + [sys.fires])) == Passed(s);
    } else {
      StartExact(sys, gone);
      assert [sys.fires][1..] == [];
      ContinueExact(f, s.(fired := true, firing := true, memory := Some(sys.fires), queue := []), sys.fires + 1,
                    sys.log, gone);
    }
  }

  /** A new firing starts while nothing is fired. */
  lemma StartExact(sys: System, gone: set<Callback>)
    requires Orderly(sys) && !sys.state.locked && Exact(sys.state, sys.log, gone) && !sys.state.firing
    ensures ExactAtIndex(sys.state.(fired := true, firing := true, memory := Some(sys.fires), queue := []),
                         sys.fires + 1, sys.log, gone)
  {
    NotYet(sys.log, sys.fires);
    assert sys.state.list.value[..0] == [];
  }

  // ------------------------------------------------------------------ every firing is delivered

  /** Firing `k` has made its pass over the list. */
  ghost predicate Completed(s: State, k: nat) {
    s.memory.Some? && (k < s.memory.value || (k == s.memory.value && !s.firing))
  }

  lemma {:induction false} ContinueKeepsBlock(f: Flags, s: State, fires: nat, log: seq<Call>, gone: set<Callback>,
                                              k: nat)
    requires f.memory && ExactAtIndex(s, fires, log, gone) && k < s.memory.value
    ensures Block(Logged(System(s, fires, log), Continue(f, s), fires).log, k) == Block(log, k)
    decreases |s.queue|
  {
    if s.index + 1 < |s.list.value| {
      BlockOne(log, Call(s.list.value[s.index + 1], s.memory.value), k);
    } else if s.queue != [] {
      NextPass(s, fires, log, gone);
      ContinueKeepsBlock(f, s.(index := -1, memory := Some(s.queue[0]), queue := s.queue[1..]), fires, log, gone, k);
    } else {
      assert log + [] == log;
    }
  }

  lemma {:induction false} ContinueCompletes(f: Flags, s: State, fires: nat, log: seq<Call>, gone: set<Callback>,
                                             k: nat)
    requires f.memory && ExactAtIndex(s, fires, log, gone) && s.memory.value <= k
    ensures var r := Logged(System(s, fires, log), Continue(f, s), fires);
            Completed(r.state, k) ==> Staying(Block(r.log, k), gone) == Staying(s.list.value, gone)
    decreases |s.queue|
  {
    if s.index + 1 >= |s.list.value| {
      if s.queue == [] {
        assert log + [] == log && s.list.value[..s.index + 1] == s.list.value;
      } else {
        var t := s.(index := -1, memory := Some(s.queue[0]), queue := s.queue[1..]);
        NextPass(s, fires, log, gone);
        if k == s.memory.value {
          ContinueKeepsBlock(f, t, fires, log, gone, k);
        } else {
          ContinueCompletes(f, t, fires, log, gone, k);
        }
      }
    }
  }

  /** A step adds at most one call, so what a firing has called stays called. */
  lemma BlockGrows(f: Flags, sys: System, op: Op, k: nat)
    requires sys.state.Valid()
    ensures Block(sys.log, k) <= Block(Step(f, sys, op).log, k)
  {
    assert sys.log + [] == sys.log;
    match op
    case Add(fns) => LoggedGrows(sys, AfterAdd(f, sys.state, fns), sys.fires, k);
    case Fire => LoggedGrows(sys, AfterFire(f, sys.state, sys.fires), sys.fires + 1, k);
    case Return(no) => if sys.state.firing { LoggedGrows(sys, AfterReturn(f, sys.state, no), sys.fires, k); }
    case _ =>
  }

  lemma LoggedGrows(sys: System, o: Outcome, fires: nat, k: nat)
    ensures Block(sys.log, k) <= Block(Logged(sys, o, fires).log, k)
  {
    assert sys.log + [] == sys.log;
    if o.call.Some? { BlockOne(sys.log, o.call.value, k); }
  }

  lemma ListGrows(f: Flags, sys: System, op: Op, gone: set<Callback>)
    requires Steady(f, sys, gone) && Removing(op, gone)
    ensures var list := Step(f, sys, op).state.list;
            list.Some? && Staying(sys.state.list.value, gone) <= Staying(list.value, gone)
  {
    var s := sys.state;
    match op
    case Add(fns) =>
      var longer := Pushed(f.unique, s.list.value, fns);
      AddKeepsIndex(f.unique, s.list.value, fns);
      StayingPrefix(s.list.value, longer, gone);
      if s.memory.Some? && !s.firing {
        ContinueKeepsList(f, s.(list := Some(longer), index := |s.list.value| - 1, fired := true, firing := true));
      }
    case Remove(fn) => StayingWithout(s.list.value, fn, gone);
    case Fire =>
      if !s.firing { ContinueKeepsList(f, s.(fired := true, firing := true, memory := Some(sys.fires), queue := [])); }
    case Return(_) => if s.firing { ContinueKeepsList(f, s); }
  }

  lemma {:induction false} ContinueKeepsList(f: Flags, s: State)
    requires s.Looping() && !s.locked
    ensures Continue(f, s).state.list == s.list
    decreases |s.queue|
  {
    if s.index + 1 >= s.Length() && s.queue != [] {
      ContinueKeepsList(f, s.(index := -1, memory := Some(s.queue[0]), queue := s.queue[1..]));
    }
  }

  /** What firing `k` owes to the callbacks that were on the list when it was asked for. */
  ghost predicate Owed(asked: seq<Callback>, k: nat, now: System, gone: set<Callback>) {
    && now.state.list.Some? && k < now.fires
    && var got, list := Staying(Block(now.log, k), gone), Staying(now.state.list.value, gone);
       asked <= list && (Completed(now.state, k) ==> asked <= got <= list)
  }

  lemma RunsSteady(f: Flags, ops: seq<Op>, gone: set<Callback>)
    requires Repeatable(f) && AllRemoving(ops, gone)
    ensures Steady(f, Run(f, ops), gone)
  {
    ExactlyOnce(f, ops, gone);
    FirstInFirstOut(f, ops);
  }

  /** Whatever is called inside callbacks, removals included: once a firing of a `memory` list has had its
      turn, it has called all callbacks that were on the list when it was asked for and are never
      removed, in their order, once for each of their places. */
  lemma {:induction false} EveryFiringDelivered(f: Flags, ops: seq<Op>, gone: set<Callback>, i: nat)
    requires Repeatable(f) && AllRemoving(ops, gone) && i < |ops| && ops[i].Fire?
    ensures var asked := Run(f, ops[..i]);
            asked.state.list.Some? && Owed(Staying(asked.state.list.value, gone), asked.fires, Run(f, ops), gone)
  {
    var init, op := ops[..|ops| - 1], ops[|ops| - 1];
    var asked, sys := Run(f, ops[..i]), Run(f, init);
    RunsSteady(f, init, gone);
    if i < |init| {
      assert init[..i] == ops[..i];
      EveryFiringDelivered(f, init, gone, i);
      OwedStays(f, sys, op, gone, Staying(asked.state.list.value, gone), asked.fires);
    } else {
      AskedNow(f, sys, op, gone);
    }
  }

  lemma OwedStays(f: Flags, sys: System, op: Op, gone: set<Callback>, asked: seq<Callback>, k: nat)
    requires Steady(f, sys, gone) && Removing(op, gone) && Owed(asked, k, sys, gone)
    ensures Owed(asked, k, Step(f, sys, op), gone)
  {
    ListGrows(f, sys, op, gone);
    StepExact(f, sys, op, gone);
    if Completed(sys.state, k) {
      BlockGrows(f, sys, op, k);
      StayingPrefix(Block(sys.log, k), Block(Step(f, sys, op).log, k), gone);
    } else {
      CompletingStep(f, sys, op, gone, k);
    }
  }

  lemma AskedNow(f: Flags, sys: System, op: Op, gone: set<Callback>)
    requires Steady(f, sys, gone) && op.Fire?
    ensures Owed(Staying(sys.state.list.value, gone), sys.fires, Step(f, sys, op), gone)
  {
    ListGrows(f, sys, op, gone);
    CompletingStep(f, sys, op, gone, sys.fires);
  }

  lemma CompletingStep(f: Flags, sys: System, op: Op, gone: set<Callback>, k: nat)
    requires Steady(f, sys, gone) && Removing(op, gone)
    requires !Completed(sys.state, k) && (k < sys.fires || (op.Fire? && k == sys.fires))
    ensures var r := Step(f, sys, op);
            Completed(r.state, k) ==> Staying(Block(r.log, k), gone) == Staying(sys.state.list.value, gone)
  {
    var s := sys.state;
    assert sys.log + [] == sys.log;
    match op
    case Add(fns) =>
    case Remove(fn) =>
    case Fire =>
      if !s.firing {
        StartExact(sys, gone);
        var t := s.(fired := true, firing := true, memory := Some(sys.fires), queue := []);
        assert [sys.fires][1..] == [];
        ContinueCompletes(f, t, sys.fires + 1, sys.log, gone, k);
      }
    case Return(_) => if s.firing { ContinueCompletes(f, s, sys.fires, sys.log, gone, k); }
  }

  /** A callback that is never removed from a `unique` list is called exactly once in every firing that
      was asked for when it was on the list and has had its turn. */
  lemma {:induction false} NeverRemoved(f: Flags, ops: seq<Op>, i: nat, fn: Callback)
    requires Repeatable(f) && f.unique && i < |ops| && ops[i].Fire?
    requires forall op <- ops :: !op.Lock? && !op.Disable? && op != Remove(fn)
    requires var list := Run(f, ops[..i]).state.list; list.Some? && fn in list.value
    ensures Completed(Run(f, ops).state, Run(f, ops[..i]).fires) ==>
              Times(fn, Block(Run(f, ops).log, Run(f, ops[..i]).fires)) == 1
  {
    var gone := set op <- ops | op.Remove? :: op.fn;
    var asked, now := Run(f, ops[..i]), Run(f, ops);
    EveryFiringDelivered(f, ops, gone, i);
    UniqueLists(f, ops);
    StayingTimes(asked.state.list.value, gone, fn);
    StayingTimes(now.state.list.value, gone, fn);
    StayingTimes(Block(now.log, asked.fires), gone, fn);
    AtMostOne(now.state.list.value, fn);
    AtLeastOne(asked.state.list.value, fn);
    if Completed(now.state, asked.fires) {
      PrefixTimes(Staying(asked.state.list.value, gone), Staying(Block(now.log, asked.fires), gone), fn);
      PrefixTimes(Staying(Block(now.log, asked.fires), gone), Staying(now.state.list.value, gone), fn);
    }
  }

  /** How often the callback occurs. */
  function Times(fn: Callback, list: seq<Callback>): nat {
    if list == [] then 0 else Times(fn, list[..|list| - 1]) + if list[|list| - 1] == fn then 1 else 0
  }

  lemma {:induction false} StayingTimes(list: seq<Callback>, gone: set<Callback>, fn: Callback)
    requires fn !in gone
    ensures Times(fn, Staying(list, gone)) == Times(fn, list)
  {
    if list != [] {
      var init, last := list[..|list| - 1], list[|list| - 1];
      StayingTimes(init, gone, fn);
      var kept := Staying(init, gone);
      if last in gone {
        assert kept + [] == kept;
      } else {
        assert (kept + [last])[..|kept|] == kept;
      }
    }
  }

  lemma {:induction false} PrefixTimes(a: seq<Callback>, b: seq<Callback>, fn: Callback)
    requires a <= b
    ensures Times(fn, a) <= Times(fn, b)
    decreases |b|
  {
    if a != b { PrefixTimes(a, b[..|b| - 1], fn); }
  }

  lemma {:induction false} AtMostOne(list: seq<Callback>, fn: Callback)
    requires NoDuplicates(list)
    ensures Times(fn, list) <= if fn in list then 1 else 0
  {
    if list != [] {
      var init := list[..|list| - 1];
      AtMostOne(init, fn);
      assert list == init + [list[|list| - 1]];
      assert list[|list| - 1] !in init;
    }
  }

  lemma {:induction false} AtLeastOne(list: seq<Callback>, fn: Callback)
    requires fn in list
    ensures Times(fn, list) >= 1
  {
    var init := list[..|list| - 1];
    assert list == init + [list[|list| - 1]];
    if list[|list| - 1] != fn { AtLeastOne(init, fn); }
  }

  /** Without removals a firing that has had its turn has called, in order, all callbacks that were on
      the list when it was asked for, then some of those added since. */
  lemma {:induction false} DeliveredInFull(f: Flags, ops: seq<Op>, i: nat)
    requires Repeatable(f) && AllRemoving(ops, {}) && i < |ops| && ops[i].Fire?
    ensures var asked, now := Run(f, ops[..i]), Run(f, ops);
            && asked.state.list.Some? && now.state.list.Some?
            && (Completed(now.state, asked.fires) ==>
                 asked.state.list.value <= Block(now.log, asked.fires) <= now.state.list.value)
  {
    var asked, now := Run(f, ops[..i]), Run(f, ops);
    EveryFiringDelivered(f, ops, {}, i);
    AllStaying(asked.state.list.value);
    AllStaying(now.state.list.value);
    AllStaying(Block(now.log, asked.fires));
  }
}
