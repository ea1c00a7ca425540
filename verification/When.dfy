/** `when` on two or more inputs: one counter, one array of values and one primary Deferred. */
module When {
  import opened Options

  type Value = nat

  /** What an input does while `when` subscribes to it: a plain value or a promise that is already
      resolved calls back at once, one already rejected (or one that throws) rejects at once. */
  datatype Input = Now(value: Value) | Fails(reason: Value) | Later

  datatype Settling = Settling(input: nat, resolved: bool, value: Value)

  datatype Verdict = Fulfilled(values: seq<Value>) | Rejected(reason: Value)

  // ------------------------------------------------------------------ the promise made by `when`

  function FirstRejection(history: seq<Settling>): Option<Value> {
    if history == [] then None
    else
      var before, s := FirstRejection(history[..|history| - 1]), history[|history| - 1];
      if before.None? && !s.resolved then Some(s.value) else before
  }

  /** The inputs that have resolved, with their values. */
  function Resolved(history: seq<Settling>): map<nat, Value> {
    if history == [] then map[]
    else
      var before, s := Resolved(history[..|history| - 1]), history[|history| - 1];
      if s.resolved then before[s.input := s.value] else before
  }

  ghost predicate AllResolved(n: nat, history: seq<Settling>) {
    forall t: nat | t < n :: t in Resolved(history)
  }

  /** The first rejection in time, or, once every input has resolved, the values in argument order. */
  ghost function Verdicts(n: nat, history: seq<Settling>): Option<Verdict> {
    if FirstRejection(history).Some? then Some(Rejected(FirstRejection(history).value))
    else if AllResolved(n, history) then
      Some(Fulfilled(seq(n, t requires 0 <= t < n => Resolved(history)[t])))
    else None
  }

  ghost predicate Once(n: nat, history: seq<Settling>) {
    && (forall i | 0 <= i < |history| :: history[i].input < n)
    && (forall i, j | 0 <= i < j < |history| :: history[i].input != history[j].input)
  }

  lemma {:induction false} ResolvedInputs(history: seq<Settling>, t: nat)
    ensures t in Resolved(history) ==> exists i | 0 <= i < |history| :: history[i].input == t && history[i].resolved
    ensures forall i | 0 <= i < |history| && history[i].resolved :: history[i].input in Resolved(history)
  {
    if history != [] { ResolvedInputs(history[..|history| - 1], t); }
  }

  /** Every input has settled, but one has rejected: then not all have resolved. */
  lemma {:induction false} RejectionExcludes(n: nat, history: seq<Settling>)
    requires Once(n, history) && FirstRejection(history).Some?
    ensures !AllResolved(n, history)
  {
    var last := history[|history| - 1];
    var r := FindRejection(history);
    var t := history[r].input;
    ResolvedInputs(history, t);
  }

  lemma {:induction false} FindRejection(history: seq<Settling>) returns (r: nat)
    requires FirstRejection(history).Some?
    ensures r < |history| && !history[r].resolved && history[r].value == FirstRejection(history).value
    ensures forall i | 0 <= i < r :: history[i].resolved
  {
    var n := |history| - 1;
    if FirstRejection(history[..n]).Some? { r := FindRejection(history[..n]); }
    else { r := n; NoRejection(history[..n]); }
  }

  lemma {:induction false} NoRejection(history: seq<Settling>)
    ensures FirstRejection(history).None? <==> forall i | 0 <= i < |history| :: history[i].resolved
  {
    if history != [] { NoRejection(history[..|history| - 1]); }
  }

  lemma {:induction false} FullSet(s: set<nat>, n: nat)
    requires forall t <- s :: t < n
    ensures |s| <= n && (|s| == n <==> forall t: nat | t < n :: t in s)
  {
    if n > 0 {
      FullSet(s - {n - 1}, n - 1);
      assert s == (s - {n - 1}) + (s * {n - 1});
      if n - 1 in s { assert s * {n - 1} == {n - 1}; } else { assert s * {n - 1} == {}; }
    }
  }

  lemma OneMore(n: nat, history: seq<Settling>, s: Settling)
    requires Once(n, history) && s.input < n && forall i | 0 <= i < |history| :: history[i].input != s.input
    ensures Once(n, history + [s])
    ensures Resolved(history + [s]) == if s.resolved then Resolved(history)[s.input := s.value] else Resolved(history)
    ensures s.input !in Resolved(history)
    ensures FirstRejection(history + [s]) ==
      if FirstRejection(history).None? && !s.resolved then Some(s.value) else FirstRejection(history)
  {
    assert (history + [s])[..|history|] == history;
    ResolvedInputs(history, s.input);
  }

  lemma CountResolved(n: nat, history: seq<Settling>)
    requires Once(n, history)
    ensures |Resolved(history)| <= n && (|Resolved(history)| == n <==> AllResolved(n, history))
  {
    forall t | t in Resolved(history)
      ensures t < n
    {
      ResolvedInputs(history, t);
    }
    FullSet(Resolved(history).Keys, n);
    assert |Resolved(history)| == |Resolved(history).Keys|;
  }

  /** What the inputs do during subscription, which goes from the last input to the first. */
  ghost function AtOnce(inputs: seq<Input>, from: nat): seq<Settling>
    requires from <= |inputs|
    decreases |inputs| - from
  {
    if from == |inputs| then []
    else
      var later := AtOnce(inputs, from + 1);
      match inputs[from]
      case Now(v) => later + [Settling(from, true, v)]
      case Fails(r) => later + [Settling(from, false, r)]
      case Later => later
  }

  /** The last failure among the arguments is the first in time. */
  lemma {:induction false} FailuresAtOnce(inputs: seq<Input>, from: nat)
    requires from <= |inputs|
    ensures var r := FirstRejection(AtOnce(inputs, from));
            if r.None? then forall t | from <= t < |inputs| :: !inputs[t].Fails?
            else exists t | from <= t < |inputs| :: inputs[t] == Fails(r.value) && NoneFails(inputs, t + 1)
    decreases |inputs| - from
  {
    if from < |inputs| {
      var later := AtOnce(inputs, from + 1);
      FailuresAtOnce(inputs, from + 1);
      if !inputs[from].Later? { assert AtOnce(inputs, from)[..|later|] == later; }
    }
  }

  predicate NoneFails(inputs: seq<Input>, from: nat) {
    forall t | from <= t < |inputs| :: !inputs[t].Fails?
  }

  lemma {:induction false} ValuesAtOnce(inputs: seq<Input>, from: nat)
    requires from <= |inputs|
    ensures var values := Resolved(AtOnce(inputs, from));
            forall t: nat :: if from <= t < |inputs| && inputs[t].Now? then t in values && values[t] == inputs[t].value
                             else t !in values
    decreases |inputs| - from
  {
    if from < |inputs| {
      var later := AtOnce(inputs, from + 1);
      ValuesAtOnce(inputs, from + 1);
      if !inputs[from].Later? { assert AtOnce(inputs, from)[..|later|] == later; }
    }
  }

  /** What has become of the primary when all inputs have been subscribed to: the last input that
      fails at once rejects it, and plain values alone resolve it, in argument order. */
  ghost predicate Subscribed(inputs: seq<Input>, verdict: Option<Verdict>) {
    && (forall t | 0 <= t < |inputs| && inputs[t].Fails? && NoneFails(inputs, t + 1) ::
         verdict == Some(Rejected(inputs[t].reason)))
    && (forall values: seq<Value> ::
         |values| == |inputs| && (forall t | 0 <= t < |inputs| :: inputs[t] == Now(values[t])) ==>
           verdict == Some(Fulfilled(values)))
    && (NoneFails(inputs, 0) && (exists t | 0 <= t < |inputs| :: inputs[t].Later?) ==> verdict == None)
  }

  lemma VerdictAtOnce(inputs: seq<Input>)
    ensures Subscribed(inputs, Verdicts(|inputs|, AtOnce(inputs, 0)))
  {
    var n, history := |inputs|, AtOnce(inputs, 0);
    forall t | 0 <= t < n && inputs[t].Fails? && NoneFails(inputs, t + 1)
      ensures Verdicts(n, history) == Some(Rejected(inputs[t].reason))
    {
      FailuresAtOnce(inputs, 0);
    }
    forall values: seq<Value> | |values| == n && forall t | 0 <= t < n :: inputs[t] == Now(values[t])
      ensures Verdicts(n, history) == Some(Fulfilled(values))
    {
      AllAtOnce(inputs, values);
    }
    if NoneFails(inputs, 0) && exists t | 0 <= t < n :: inputs[t].Later? {
      FailuresAtOnce(inputs, 0);
      ValuesAtOnce(inputs, 0);
    }
  }

  lemma AllAtOnce(inputs: seq<Input>, values: seq<Value>)
    requires |values| == |inputs| && forall t | 0 <= t < |inputs| :: inputs[t] == Now(values[t])
    ensures Verdicts(|inputs|, AtOnce(inputs, 0)) == Some(Fulfilled(values))
  {
    var n, history := |inputs|, AtOnce(inputs, 0);
    FailuresAtOnce(inputs, 0);
    ValuesAtOnce(inputs, 0);
    assert AllResolved(n, history);
    assert values == seq(n, t requires 0 <= t < n => Resolved(history)[t]);
  }

  // ------------------------------------------------------------------ the code

  class Joined {
    const values: array<Value>
    var remaining: int
    /** The calls of resolveWith and rejectWith on the primary Deferred; the first decides. */
    var settles: seq<Verdict>
    ghost var history: seq<Settling>

    ghost predicate Valid()
      reads this, values
    {
      && Once(values.Length, history)
      && remaining == values.Length - |Resolved(history)|
      && (forall t: nat | t < values.Length && t in Resolved(history) :: values[t] == Resolved(history)[t])
      && (if settles == [] then None else Some(settles[0])) == Verdicts(values.Length, history)
    }

    constructor (inputs: seq<Input>)
      requires |inputs| >= 2
      ensures Valid() && values.Length == |inputs| && fresh(values)
      ensures history == AtOnce(inputs, 0)
      ensures Subscribed(inputs, if settles == [] then None else Some(settles[0]))
    {
      values := new Value[|inputs|];
      remaining, settles, history := |inputs|, [], [];
      new;
      NotAllAtFirst(values.Length);
      Subscribe(inputs);
      VerdictAtOnce(inputs);
    }

    /** Subscribe to the inputs, the last one first. */
    method Subscribe(inputs: seq<Input>)
      requires Valid() && values.Length == |inputs| && history == []
      modifies this, values
      ensures Valid() && history == AtOnce(inputs, 0)
    {
      var t := |inputs|;
      while t > 0
        invariant 0 <= t <= |inputs| && Valid() && history == AtOnce(inputs, t)
        invariant forall i | 0 <= i < |history| :: history[i].input >= t
      {
        t := t - 1;
        assert forall i | 0 <= i < |history| :: history[i].input != t;
        match inputs[t] {
          case Now(v) => Update(t, v);
          case Fails(r) => Reject(t, r);
          case Later =>
        }
      }
    }

    lemma NotAllAtFirst(n: nat)
      requires n >= 2
      ensures !AllResolved(n, [])
    {
      assert 0 !in Resolved([]);
    }

    /** The function that `a(t)` makes: input `t` has resolved. */
    method Update(t: nat, v: Value)
      requires Valid() && t < values.Length && forall i | 0 <= i < |history| :: history[i].input != t
      modifies this, values
      ensures Valid() && history == old(history) + [Settling(t, true, v)]
    {
      ghost var longer := history + [Settling(t, true, v)];
      OneMore(values.Length, history, Settling(t, true, v));
      CountResolved(values.Length, history);
      CountResolved(values.Length, longer);
      assert !AllResolved(values.Length, history);
      values[t] := v;
      remaining := remaining - 1;
      if remaining == 0 {
        settles := settles + [Fulfilled(values[..])];
        assert values[..] == seq(values.Length, t requires 0 <= t < values.Length => Resolved(longer)[t]);
        if FirstRejection(longer).Some? { RejectionExcludes(values.Length, longer); }
      }
      history := longer;
    }

    /** The primary's reject: input `t` has rejected. */
    method Reject(t: nat, reason: Value)
      requires Valid() && t < values.Length && forall i | 0 <= i < |history| :: history[i].input != t
      modifies this
      ensures Valid() && history == old(history) + [Settling(t, false, reason)]
    {
      ghost var longer := history + [Settling(t, false, reason)];
      OneMore(values.Length, history, Settling(t, false, reason));
      CountResolved(values.Length, history);
      RejectionExcludes(values.Length, longer);
      settles := settles + [Rejected(reason)];
      history := longer;
    }
  }
}
