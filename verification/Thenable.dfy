/** `then`: how the promise that it returns (the derived promise) adopts what a handler returns.  The
    code counts the adoptions in `u` and ignores the resolve and reject functions of an earlier
    depth.  Promises/A+ (sections 2.2.7 and 2.3) instead remembers for every pair of such functions
    whether one of them has been called.  Both are modelled here, and it is shown exactly when they
    agree. */
module Thenable {
  import opened Options

  /** A value as the resolution procedure sees it: `Poisoned` throws when its `then` is read,
      `Itself` is the derived promise, `SelfError` the error that this raises. */
  datatype Value = Undefined | Plain(v: nat) | Thenable(id: nat) | Poisoned(error: Value) | Itself | SelfError

  datatype Result = Returned(value: Value) | Threw(error: Value)

  /** What a function made by `l` runs: the user's handler, or the identity, or the thrower. */
  datatype Handler = User(result: Result) | Identity | Thrower

  datatype Settlement = Fulfilled(args: seq<Value>) | Rejected(args: seq<Value>)

  /** What happens to one call of `then`.  Its task starts the handler.  A function of the pair with
      the number `depth` is called.  A resolve function is called with a value whose `then` is an
      accessor: the events `during` happen while it is read, then the value turns out to be `value`;
      if that is a thenable it is given the pair `handed`.  The foreign `then` called at depth `at`,
      which was given the pair `pair`, throws. */
  datatype Event =
    | Start(handler: Handler, args: seq<Value>)
    | Call(depth: nat, reject: bool, args: seq<Value>)
    | Access(depth: nat, during: seq<Event>, value: Value, handed: nat)
    | Thrown(at: nat, pair: nat, error: Value)

  function First(args: seq<Value>): Value {
    if args == [] then Undefined else args[0]
  }

  function Apply(h: Handler, args: seq<Value>): Result {
    match h
    case User(result) => result
    case Identity => Returned(First(args))
    case Thrower => Threw(First(args))
  }

  /** Reading or using the value raises an error. */
  predicate Throws(x: Value) { x == Itself || x.Poisoned? }

  /** What the resolution procedure (section 2.3) makes of a value at once: a thenable is adopted. */
  function Says(x: Value, args: seq<Value>): Option<Settlement> {
    match x
    case Itself => Some(Rejected([SelfError]))
    case Poisoned(e) => Some(Rejected([e]))
    case Thenable(_) => None
    case _ => Some(Fulfilled(args))
  }

  // ------------------------------------------------------------------ Promises/A+

  /** `open` has the pairs that have been handed out and not been called. */
  datatype Promise = Promise(started: bool, open: set<nat>, outcome: Option<Settlement>)

  /** Settle the promise, or hand a new pair to the thenable. */
  function Resolve(p: Promise, x: Value, args: seq<Value>, handed: nat): Promise {
    if x.Thenable? then p.(open := p.open + {handed}) else Settle(p, Says(x, args).value)
  }

  function Settle(p: Promise, s: Settlement): Promise {
    if p.outcome.Some? then p else p.(outcome := Some(s))
  }

  function PromiseStep(p: Promise, e: Event): Promise
    decreases e, 0
  {
    match e
    case Start(h, args) =>
      var q := p.(started := true);
      (match h
       case User(Returned(x)) => Resolve(q, x, [x], 1)
       case User(Threw(error)) => Settle(q, Rejected([error]))
       case Identity => Resolve(q, First(args), args, 1)
       case Thrower => Settle(q, Rejected(args)))
    case Call(d, reject, args) =>
      if d !in p.open then p
      else
        var q := p.(open := p.open - {d});
        if reject then Settle(q, Rejected(args)) else Resolve(q, First(args), args, d + 1)
    case Access(d, during, x, handed) =>
      if d !in p.open then p else Resolve(PromiseFrom(p.(open := p.open - {d}), during), x, [x], handed)
    case Thrown(_, pair, error) =>
      if pair !in p.open then p else Settle(p.(open := p.open - {pair}), Rejected([error]))
  }

  function PromiseFrom(p: Promise, events: seq<Event>): Promise
    decreases events, 1
  {
    if events == [] then p else PromiseFrom(PromiseStep(p, events[0]), events[1..])
  }

  function PromiseRun(events: seq<Event>): Promise {
    if events == [] then Promise(false, {}, None)
    else PromiseStep(PromiseRun(events[..|events| - 1]), events[|events| - 1])
  }

  // ------------------------------------------------------------------ the code

  /** `depth` is the counter `u`; `settles` are the calls of resolveWith and rejectWith on the derived
      Deferred, of which the first decides. */
  datatype Adoption = Adoption(started: bool, depth: nat, settles: seq<Settlement>) {
    function Outcome(): Option<Settlement> {
      if settles == [] then None else Some(settles[0])
    }
  }

  /** A function made by `l` for depth `i`. */
  function Invoke(a: Adoption, i: nat, h: Handler, args: seq<Value>): Adoption {
    if i < a.depth then a
    else match Apply(h, args)
      case Threw(error) => Catch(a, i, h, args, error)
      case Returned(x) => Use(a, i, h, args, x)
  }

  /** The rest of it, once the `then` of the value has been read: its guard is not looked at again. */
  function Use(a: Adoption, i: nat, h: Handler, args: seq<Value>, x: Value): Adoption {
    match x
    case Itself => Catch(a, i, h, args, SelfError)
    case Poisoned(error) => Catch(a, i, h, args, error)
    case Thenable(_) => a.(depth := a.depth + 1)
    case _ => a.(settles := a.settles + [Fulfilled(if h == Identity then args else [x])])
  }

  function Catch(a: Adoption, i: nat, h: Handler, args: seq<Value>, error: Value): Adoption {
    if a.depth <= i + 1 then a.(settles := a.settles + [Rejected(if h == Thrower then args else [error])]) else a
  }

  function AdoptionStep(a: Adoption, e: Event): Adoption
    decreases e, 0
  {
    match e
    case Start(h, args) => Invoke(a.(started := true), 0, h, args)
    case Call(d, reject, args) => Invoke(a, d, if reject then Thrower else Identity, args)
    case Access(d, during, x, _) => if d < a.depth then a else Use(AdoptionFrom(a, during), d, Identity, [x], x)
    case Thrown(i, _, error) => Catch(a, i, Identity, [], error)
  }

  function AdoptionFrom(a: Adoption, events: seq<Event>): Adoption
    decreases events, 1
  {
    if events == [] then a else AdoptionFrom(AdoptionStep(a, events[0]), events[1..])
  }

  function AdoptionRun(events: seq<Event>): Adoption {
    if events == [] then Adoption(false, 0, [])
    else AdoptionStep(AdoptionRun(events[..|events| - 1]), events[|events| - 1])
  }

  /** The task starts once, only functions that have been handed out can be called, an accessor can
      only cause what is possible while it runs (for the derived promise itself none runs), a pair
      handed out after it is the next one, and only a foreign `then` that was given a pair can throw;
      nothing else is asked of the thenables. */
  predicate Possible(a: Adoption, e: Event)
    decreases e, 0
  {
    match e
    case Start(_, _) => !a.started
    case Call(d, _, _) => 1 <= d <= a.depth
    case Access(d, during, x, handed) =>
      && 1 <= d <= a.depth && (x == Itself ==> during == [])
      && (d == a.depth ==>
           AllPossible(a, during) && (x.Thenable? ==> handed == AdoptionFrom(a, during).depth + 1))
    case Thrown(i, pair, _) => i < pair <= a.depth
  }

  predicate AllPossible(a: Adoption, events: seq<Event>)
    decreases events, 1
  {
    events == [] || (Possible(a, events[0]) && AllPossible(AdoptionStep(a, events[0]), events[1..]))
  }

  ghost predicate Run(events: seq<Event>) {
    events == [] ||
    (Run(events[..|events| - 1]) && Possible(AdoptionRun(events[..|events| - 1]), events[|events| - 1]))
  }

  // ------------------------------------------------------------------ what is resolved

  /** The first of the arguments `[x] + rest` is looked at: a thenable is adopted, an error rejects, and
      any other value fulfils with all of the arguments. */
  ghost predicate LooksAtFirst(a: Adoption, b: Adoption, x: Value, rest: seq<Value>) {
    match x
    case Thenable(_) => b.depth == a.depth + 1 && b.Outcome() == None
    case Poisoned(error) => b.depth == a.depth && b.Outcome() == Some(Rejected([error]))
    case Itself => b.depth == a.depth && b.Outcome() == Some(Rejected([SelfError]))
    case _ => b.depth == a.depth && b.Outcome() == Some(Fulfilled([x] + rest))
  }

  /** Calls of the functions of the last pair while the outcome is open. */
  lemma CalledWith(a: Adoption, x: Value, rest: seq<Value>)
    requires a.settles == [] && 1 <= a.depth
    ensures LooksAtFirst(a, AdoptionStep(a, Call(a.depth, false, [x] + rest)), x, rest)
    ensures AdoptionStep(a, Call(a.depth, true, [x] + rest)).Outcome() == Some(Rejected([x] + rest))
    ensures AdoptionStep(a, Call(a.depth, false, [])).Outcome() == Some(Fulfilled([]))
    ensures AdoptionStep(a, Call(a.depth, true, [])).Outcome() == Some(Rejected([]))
  {
    assert ([x] + rest)[0] == x;
  }

  /** The task: without handlers of the user's the arguments are passed on, a handler of the user's
      gives one value or throws one error. */
  lemma StartedWith(a: Adoption, x: Value, rest: seq<Value>, args: seq<Value>)
    requires a == Adoption(false, 0, [])
    ensures LooksAtFirst(a, AdoptionStep(a, Start(Identity, [x] + rest)), x, rest)
    ensures LooksAtFirst(a, AdoptionStep(a, Start(User(Returned(x)), args)), x, [])
    ensures AdoptionStep(a, Start(User(Threw(x)), args)).Outcome() == Some(Rejected([x]))
    ensures AdoptionStep(a, Start(Thrower, [x] + rest)).Outcome() == Some(Rejected([x] + rest))
    ensures AdoptionStep(a, Start(Identity, [])).Outcome() == Some(Fulfilled([]))
    ensures AdoptionStep(a, Start(Thrower, [])).Outcome() == Some(Rejected([]))
  {
    assert ([x] + rest)[0] == x && [x] + [] == [x];
  }

  // ------------------------------------------------------------------ when they agree

  /** While the outcome is open, the only pair that may still be called is the last one. */
  ghost predicate Agree(a: Adoption, p: Promise) {
    && a.Outcome() == p.outcome
    && (!a.started ==> a.depth == 0 && a.settles == [])
    && (a.settles == [] ==> a.started == p.started && p.open == if a.depth == 0 then {} else {a.depth})
  }

  /** The steps on which the counter does as well as the flags.  An accessor that runs while the
      outcome is open, for the last pair, must not bring the code to settle otherwise than its value
      does, nor hide an exception by two adoptions; and a foreign `then` that was given its pair after
      such adoptions must not throw before it uses the pair. */
  predicate Benign(a: Adoption, e: Event) {
    match e
    case Access(d, during, x, _) =>
      a.settles != [] || d < a.depth ||
      var b := AdoptionFrom(a, during);
      if b.settles != [] then b.Outcome() == Says(x, [x]) else Throws(x) ==> b.depth <= d + 1
    case Thrown(i, pair, _) => a.settles != [] || pair < a.depth || pair == i + 1
    case _ => true
  }

  lemma {:induction false} OnlyGrows(a: Adoption, e: Event)
    ensures var b := AdoptionStep(a, e); a.depth <= b.depth && a.settles <= b.settles && (a.started ==> b.started)
    decreases e, 0
  {
    if e.Access? && e.depth >= a.depth { FromOnlyGrows(a, e.during); }
  }

  lemma {:induction false} FromOnlyGrows(a: Adoption, events: seq<Event>)
    ensures var b := AdoptionFrom(a, events); a.depth <= b.depth && a.settles <= b.settles && (a.started ==> b.started)
    decreases events, 1
  {
    if events != [] {
      OnlyGrows(a, events[0]);
      FromOnlyGrows(AdoptionStep(a, events[0]), events[1..]);
    }
  }

  /** Once the outcome is there, neither the code nor the promise changes it. */
  lemma {:induction false} PromiseKeeps(p: Promise, e: Event)
    requires p.outcome.Some?
    ensures PromiseStep(p, e).outcome == p.outcome
    decreases e, 0
  {
    if e.Access? { PromiseFromKeeps(p.(open := p.open - {e.depth}), e.during); }
  }

  lemma {:induction false} PromiseFromKeeps(p: Promise, events: seq<Event>)
    requires p.outcome.Some?
    ensures PromiseFrom(p, events).outcome == p.outcome
    decreases events, 1
  {
    if events != [] {
      PromiseKeeps(p, events[0]);
      PromiseFromKeeps(PromiseStep(p, events[0]), events[1..]);
    }
  }

  /** With no pair open, what an accessor does means nothing to the promise. */
  lemma {:induction false} NothingOpen(a: Adoption, p: Promise, events: seq<Event>)
    requires a.started && p.open == {} && AllPossible(a, events)
    ensures PromiseFrom(p, events) == p
    decreases events
  {
    if events != [] {
      OnlyGrows(a, events[0]);
      NothingOpen(AdoptionStep(a, events[0]), p, events[1..]);
    }
  }

  lemma AccessStep(a: Adoption, p: Promise, e: Event)
    requires e.Access? && Agree(a, p) && Possible(a, e) && a.settles == [] && e.depth == a.depth
    ensures PromiseStep(p, e).outcome == Says(e.value, [e.value])
    ensures e.value.Thenable? ==> PromiseStep(p, e).open == {e.handed} && PromiseStep(p, e).started
    ensures Benign(a, e) <==> AdoptionStep(a, e).Outcome() == PromiseStep(p, e).outcome
  {
    var q := p.(open := p.open - {e.depth});
    assert q.open == {};
    NothingOpen(a, q, e.during);
    FromOnlyGrows(a, e.during);
    var b := AdoptionFrom(a, e.during);
    assert b.settles != [] ==> AdoptionStep(a, e).Outcome() == b.Outcome();
  }

  /** A benign step keeps the agreement, and a step that is not makes the outcomes differ. */
  lemma StepAgrees(a: Adoption, p: Promise, e: Event)
    requires Agree(a, p) && Possible(a, e)
    ensures Benign(a, e) ==> Agree(AdoptionStep(a, e), PromiseStep(p, e))
    ensures !Benign(a, e) ==> AdoptionStep(a, e).Outcome() != PromiseStep(p, e).outcome
  {
    OnlyGrows(a, e);
    if a.settles != [] {
      PromiseKeeps(p, e);
      assert AdoptionStep(a, e).settles[0] == a.settles[0];
    } else if e.Access? {
      if e.depth == a.depth {
        AccessStep(a, p, e);
        FromOnlyGrows(a, e.during);
      }
    } else if e.Thrown? {
      assert p.open - {a.depth} == {};
    }
  }

  ghost predicate AllBenign(events: seq<Event>) {
    events == [] ||
    (AllBenign(events[..|events| - 1]) && Benign(AdoptionRun(events[..|events| - 1]), events[|events| - 1]))
  }

  /** Code and promise have the same outcome, or none, after every step of the run. */
  ghost predicate SameThroughout(events: seq<Event>) {
    && AdoptionRun(events).Outcome() == PromiseRun(events).outcome
    && (events == [] || SameThroughout(events[..|events| - 1]))
  }

  /** The outcomes are the same throughout a run exactly when every step of it is benign. */
  lemma {:induction false} AgreeExactly(events: seq<Event>)
    requires Run(events)
    ensures SameThroughout(events) <==> AllBenign(events)
    ensures AllBenign(events) ==> Agree(AdoptionRun(events), PromiseRun(events))
  {
    if events != [] {
      var init := events[..|events| - 1];
      AgreeExactly(init);
      if AllBenign(init) {
        StepAgrees(AdoptionRun(init), PromiseRun(init), events[|events| - 1]);
      }
    }
  }

  /** So however thenables misbehave, short of accessors, the depth counter gives the outcome that the
      flags of Promises/A+ give, at any depth of nested adoption. */
  lemma {:induction false} CounterRefinesFlags(events: seq<Event>)
    requires Run(events)
    requires forall e <- events :: !e.Access? && (e.Thrown? ==> e.pair == e.at + 1)
    ensures SameThroughout(events) && AdoptionRun(events).Outcome() == PromiseRun(events).outcome
  {
    PlainIsBenign(events);
    AgreeExactly(events);
  }

  lemma {:induction false} PlainIsBenign(events: seq<Event>)
    requires forall e <- events :: !e.Access? && (e.Thrown? ==> e.pair == e.at + 1)
    ensures AllBenign(events)
  {
    if events != [] { PlainIsBenign(events[..|events| - 1]); }
  }

  // ------------------------------------------------------------------ accessors

  /** Where a chain of adoptions has come: what it has settled, and the last pair. */
  datatype Chained = Chained(settled: Option<Settlement>, last: nat)

  /** What the events of an accessor bring about, followed from pair `d` on: a call of the last pair
      settles what it is given or, for a thenable, makes the next pair the last one; calls of other
      pairs mean nothing; an exception counts if there has been at most one adoption since. */
  function Chain(during: seq<Event>, d: nat): Chained
    decreases during
  {
    if during == [] then Chained(None, d)
    else
      var first := Link(during[0], d);
      if first.settled.Some? then first else Chain(during[1..], first.last)
  }

  function Link(e: Event, d: nat): Chained
    decreases e
  {
    match e
    case Start(_, _) => Chained(None, d)
    case Call(i, reject, args) =>
      if i != d then Chained(None, d)
      else if reject then Chained(Some(Rejected(args)), d)
      else
        var said := Says(First(args), args);
        Chained(said, if said.None? then d + 1 else d)
    case Access(i, during, x, _) =>
      if i != d then Chained(None, d)
      else
        var c := Chain(during, d);
        if c.settled.Some? || (Throws(x) && c.last > d + 1) then c
        else Chained(Says(x, [x]), if x.Thenable? then c.last + 1 else c.last)
    case Thrown(i, _, error) => Chained(if d <= i + 1 then Some(Rejected([error])) else None, d)
  }

  lemma {:induction false} ChainedOutcome(a: Adoption, during: seq<Event>)
    requires a.settles == [] && a.started && AllPossible(a, during)
    ensures var b, c := AdoptionFrom(a, during), Chain(during, a.depth);
            b.Outcome() == c.settled && (c.settled.None? ==> b.depth == c.last)
    decreases during
  {
    if during != [] {
      var b := AdoptionStep(a, during[0]);
      LinkedOutcome(a, during[0]);
      OnlyGrows(a, during[0]);
      if b.settles != [] { FromOnlyGrows(b, during[1..]); } else { ChainedOutcome(b, during[1..]); }
    }
  }

  lemma {:induction false} LinkedOutcome(a: Adoption, e: Event)
    requires a.settles == [] && a.started && Possible(a, e)
    ensures var b, c := AdoptionStep(a, e), Link(e, a.depth);
            b.Outcome() == c.settled && (c.settled.None? ==> b.depth == c.last)
    decreases e
  {
    if e.Access? && e.depth == a.depth {
      ChainedOutcome(a, e.during);
      FromOnlyGrows(a, e.during);
    }
  }

  /** One resolution, whatever its accessor does: the outcomes agree exactly if the pair is stale, or the
      accessor settles what the value itself does, or it settles nothing and has not made the code adopt
      twice before the value throws. */
  lemma AccessorExactly(a: Adoption, p: Promise, e: Event)
    requires Agree(a, p) && a.settles == [] && e.Access? && Possible(a, e)
    ensures var c := Chain(e.during, e.depth);
            AdoptionStep(a, e).Outcome() == PromiseStep(p, e).outcome <==>
              e.depth < a.depth ||
              if c.settled.Some? then c.settled == Says(e.value, [e.value])
              else Throws(e.value) ==> c.last <= e.depth + 1
  {
    StepAgrees(a, p, e);
    if e.depth == a.depth { ChainedOutcome(a, e.during); }
  }

  /** An accessor that resolves the pair being resolved with a plain value decides the outcome, although
      its call is not the first one of the pair. */
  lemma AccessorDecides(a: Adoption, p: Promise, v: nat, w: nat, handed: nat)
    requires Agree(a, p) && a.settles == [] && 1 <= a.depth
    ensures var e := Access(a.depth, [Call(a.depth, false, [Plain(v)])], Plain(w), handed);
            && Possible(a, e)
            && AdoptionStep(a, e).Outcome() == Some(Fulfilled([Plain(v)]))
            && PromiseStep(p, e).outcome == Some(Fulfilled([Plain(w)]))
  {
    var c := Call(a.depth, false, [Plain(v)]);
    var e := Access(a.depth, [c], Plain(w), handed);
    assert [c][1..] == [];
    assert AdoptionFrom(a, [c]) == AdoptionStep(a, c);
    AccessStep(a, p, e);
  }

  /** An accessor that resolves the pair with a thenable leaves the outcome to the value; but if that
      value is a thenable whose `then` throws at once, the code ignores the exception. */
  lemma AccessorHidesThrow(a: Adoption, p: Promise, error: Value)
    requires Agree(a, p) && a.settles == [] && 1 <= a.depth
    ensures var e := Access(a.depth, [Call(a.depth, false, [Thenable(0)])], Thenable(1), a.depth + 2);
            var t := Thrown(a.depth, a.depth + 2, error);
            && Possible(a, e) && Benign(a, e) && Possible(AdoptionStep(a, e), t)
            && AdoptionStep(AdoptionStep(a, e), t).Outcome() == None
            && PromiseStep(PromiseStep(p, e), t).outcome == Some(Rejected([error]))
  {
    var c := Call(a.depth, false, [Thenable(0)]);
    var e := Access(a.depth, [c], Thenable(1), a.depth + 2);
    assert [c][1..] == [];
    assert AdoptionFrom(a, [c]) == a.(depth := a.depth + 1);
    AccessStep(a, p, e);
  }

  /** After two adoptions the code even ignores that the reading of the value throws. */
  lemma AccessorHidesOwnThrow(a: Adoption, p: Promise, error: Value, handed: nat)
    requires Agree(a, p) && a.settles == [] && 1 <= a.depth
    ensures var e := Access(a.depth, [Call(a.depth, false, [Thenable(0)]), Call(a.depth + 1, false, [Thenable(1)])],
                            Poisoned(error), handed);
            && Possible(a, e) && AdoptionStep(a, e).Outcome() == None
            && PromiseStep(p, e).outcome == Some(Rejected([error]))
  {
    var c, d := Call(a.depth, false, [Thenable(0)]), Call(a.depth + 1, false, [Thenable(1)]);
    var e := Access(a.depth, [c, d], Poisoned(error), handed);
    assert [c, d][1..] == [d] && [d][1..] == [];
    var b := AdoptionStep(a, c);
    assert AdoptionFrom(a, [c, d]) == AdoptionFrom(b, [d]) == AdoptionStep(b, d) == a.(depth := a.depth + 2);
    assert AllPossible(b, [d]) by { assert AllPossible(AdoptionStep(b, d), []); }
    assert AllPossible(a, [c, d]);
    AccessStep(a, p, e);
  }

  // ------------------------------------------------------------------ only the first call decides

  lemma {:induction false} RunIsFrom(before: seq<Event>, after: seq<Event>)
    ensures AdoptionRun(before + after) == AdoptionFrom(AdoptionRun(before), after)
    decreases |after|
  {
    if after == [] {
      assert before + after == before;
    } else {
      var more := before + [after[0]];
      assert more[..|before|] == before;
      assert more + after[1..] == before + after;
      RunIsFrom(more, after[1..]);
    }
  }

  /** A call of pair `d` settles the promise or makes the pair stale. */
  lemma CallUsesPair(a: Adoption, e: Event)
    requires (e.Call? || e.Access?) && Possible(a, e)
    ensures var b := AdoptionStep(a, e); b.settles != [] || b.depth > e.depth
  {
    if e.Access? && e.depth == a.depth { FromOnlyGrows(a, e.during); }
  }

  /** After a call of a function of a pair, another call of that pair makes no difference to the
      outcome of the code, whatever it says and whatever accessors do; nor does an exception from the
      thenable that was given the pair. */
  lemma {:induction false} LaterCallsIgnored(before: seq<Event>, e: Event, between: seq<Event>, late: Event,
                                             after: seq<Event>)
    requires (e.Call? || e.Access?) && Possible(AdoptionRun(before), e)
    requires if late.Call? || late.Access? then late.depth == e.depth
             else late.Thrown? && late.at < late.pair == e.depth
    ensures AdoptionRun(before + [e] + between + [late] + after).Outcome() ==
            AdoptionRun(before + [e] + between + after).Outcome()
  {
    var prefix := before + [e] + between;
    assert (before + [e])[..|before|] == before && (prefix + [late])[..|prefix|] == prefix;
    CallUsesPair(AdoptionRun(before), e);
    RunIsFrom(before + [e], between);
    FromOnlyGrows(AdoptionRun(before + [e]), between);
    RunIsFrom(prefix + [late], after);
    RunIsFrom(prefix, after);
    var a, b := AdoptionRun(prefix), AdoptionRun(prefix + [late]);
    if a.settles != [] {
      OnlyGrows(a, late);
      FromOnlyGrows(a, after);
      FromOnlyGrows(b, after);
      assert b.settles[0] == a.settles[0];
    } else {
      assert b == a;
    }
  }

  // ------------------------------------------------------------------ the object

  class Derived {
    var started: bool
    var depth: nat
    var settles: seq<Settlement>

    ghost function View(): Adoption
      reads this
    {
      Adoption(started, depth, settles)
    }

    constructor ()
      ensures View() == AdoptionRun([])
    {
      started, depth, settles := false, 0, [];
    }

    /** The function that `l` makes for depth `i`, up to the call of the foreign `then`; it answers
        whether that call is made, with the pair of the new depth. */
    method Call(i: nat, h: Handler, args: seq<Value>) returns (adopts: bool)
      modifies this
      ensures View() == Invoke(old(View()), i, h, args)
      ensures adopts <==> depth == old(depth) + 1
      ensures i < old(depth) ==> View() == old(View())
    {
      adopts := false;
      if i < depth { return; }
      match Apply(h, args) {
        case Threw(error) => Caught(i, h, args, error);
        case Returned(x) => adopts := Finish(i, h, args, x);
      }
    }

    /** What follows once the `then` of `x` has been read. */
    method Finish(i: nat, h: Handler, args: seq<Value>, x: Value) returns (adopts: bool)
      modifies this
      ensures View() == Use(old(View()), i, h, args, x)
      ensures adopts <==> depth == old(depth) + 1
      ensures adopts <==> x.Thenable?
    {
      var single := h != Identity;
      adopts := false;
      if x.Thenable? {
        depth := depth + 1;
        adopts := true;
      } else if x == Itself || x.Poisoned? {
        Caught(i, h, args, if x == Itself then SelfError else x.error);
      } else {
        settles := settles + [Fulfilled(if single then [x] else args)];
      }
    }

    /** The catch block, also reached when the foreign `then` throws.  It decides the outcome exactly
        if that is open and at most one adoption has been made since. */
    method Caught(i: nat, h: Handler, args: seq<Value>, error: Value)
      modifies this
      ensures View() == Catch(old(View()), i, h, args, error)
      ensures depth == old(depth)
      ensures View().Outcome() == if old(View()).Outcome().Some? || old(depth) > i + 1 then old(View()).Outcome()
                                  else Some(Rejected(if h == Thrower then args else [error]))
    {
      if depth <= i + 1 {
        settles := settles + [Rejected(if h == Thrower then args else [error])];
      }
    }
  }
}
