/** `Callbacks`: a list of callbacks that may be changed while it is being fired.  A firing loop
    hands control to the callbacks one at a time; while one runs, any operation may be called.  The
    loop is therefore cut at the callback calls: every operation runs up to the next call, which it
    returns, and `Resume` continues the loop when that call has returned. */
module Callbacks {
  import opened Options

  /** A user's callback, or one of those a Deferred adds to its own lists. */
  datatype Callback = User(id: nat) | Wired(index: nat)

  /** Stands for the pair of a receiver and its arguments. */
  type Args = nat

  datatype Flags = Flags(once: bool, memory: bool, unique: bool, stopOnFalse: bool)

  datatype Call = Call(fn: Callback, args: Args)

  /** `list` is None once disabled; `memory` holds the arguments being or last fired, None when the
      source holds a false value there. */
  datatype State = State(list: Option<seq<Callback>>, queue: seq<Args>, index: int, memory: Option<Args>,
                         locked: bool, firing: bool, fired: bool)
  {
    function Length(): nat {
      if list.Some? then |list.value| else 0
    }

    /** The callbacks that the pass under way has still to run. */
    function Unrun(): seq<Callback> {
      if list.Some? && -1 <= index < |list.value| then list.value[index + 1..] else []
    }

    /** Between operations: the loop is idle, or waits for the callback at the index. */
    ghost predicate Valid() {
      && -1 <= index
      && (list.None? ==> locked && queue == [])
      && (if firing then list.Some? ==> index < |list.value| && memory.Some? else index == -1 && queue == [])
    }

    /** Inside the loop. */
    ghost predicate Looping() {
      -1 <= index && firing && (list.None? ==> locked && queue == []) && (index + 1 < Length() ==> memory.Some?)
    }
  }

  const INITIAL := State(Some([]), [], -1, None, false, false, false)

  datatype Outcome = Outcome(state: State, call: Option<Call>)

  // ------------------------------------------------------------------ the firing loop

  function Finish(f: Flags, s: State): State {
    var memory := if f.memory then s.memory else None;
    var list := if !s.locked then s.list else if memory.Some? then Some([]) else None;
    s.(memory := memory, firing := false, list := list, index := -1)
  }

  /** The loop from the point where it moves on to the next callback. */
  function Continue(f: Flags, s: State): (o: Outcome)
    requires s.Looping()
    ensures o.state.Valid() && (o.call.Some? ==> o.state.firing && o.state.list.Some?)
    decreases |s.queue|
  {
    if s.index + 1 < s.Length() then
      Outcome(s.(index := s.index + 1), Some(Call(s.list.value[s.index + 1], s.memory.value)))
    else if s.queue != [] then
      Continue(f, s.(index := -1, memory := Some(s.queue[0]), queue := s.queue[1..]))
    else
      Outcome(Finish(f, s), None)
  }

  /** The loop stops at a call further on in the pass, or in a later firing, or it ends. */
  lemma {:induction false} ContinueMoves(f: Flags, s: State)
    requires s.Looping()
    ensures var o := Continue(f, s);
            if o.call.None? then !o.state.firing
            else o.state.firing && (|o.state.queue| < |s.queue| || o.state == s.(index := s.index + 1))
    decreases |s.queue|
  {
    if s.index + 1 >= s.Length() && s.queue != [] {
      ContinueMoves(f, s.(index := -1, memory := Some(s.queue[0]), queue := s.queue[1..]));
    }
  }

  /** The loop from its start, with something in the queue. */
  function Begin(f: Flags, s: State): (o: Outcome)
    requires s.queue != [] && s.list.Some? && -1 <= s.index && !s.firing
    ensures o.state.Valid() && (o.call.Some? ==> o.state.firing && o.state.list.Some?)
  {
    Continue(f, s.(locked := s.locked || f.once, fired := true, firing := true, memory := Some(s.queue[0]),
                   queue := s.queue[1..]))
  }

  // ------------------------------------------------------------------ the operations

  function Pushed(unique: bool, list: seq<Callback>, fns: seq<Callback>): seq<Callback>
    decreases |fns|
  {
    if fns == [] then list
    else Pushed(unique, if unique && fns[0] in list then list else list + [fns[0]], fns[1..])
  }

  function Without(list: seq<Callback>, fn: Callback): seq<Callback> {
    if list == [] then []
    else Without(list[..|list| - 1], fn) + if list[|list| - 1] == fn then [] else [list[|list| - 1]]
  }

  function AfterAdd(f: Flags, s: State, fns: seq<Callback>): (o: Outcome)
    requires s.Valid()
    ensures o.state.Valid() && (o.call.Some? ==> o.state.firing && o.state.list.Some?)
  {
    if s.list.None? then Outcome(s, None)
    else
      var list := Pushed(f.unique, s.list.value, fns);
      if s.memory.Some? && !s.firing then
        Begin(f, s.(list := Some(list), index := |s.list.value| - 1, queue := [s.memory.value]))
      else
        AddKeepsIndex(f.unique, s.list.value, fns);
        Outcome(s.(list := Some(list)), None)
  }

  /** Every occurrence goes; the index keeps its place among the callbacks that stay. */
  function AfterRemove(s: State, fn: Callback): (t: State)
    requires s.Valid()
    ensures t.Valid()
  {
    if s.list.None? then s
    else
      WithoutSplits(s.list.value, s.index + 1, fn);
      s.(list := Some(Without(s.list.value, fn)), index := |Without(s.list.value[..s.index + 1], fn)| - 1)
  }

  lemma {:induction false} WithoutSplits(list: seq<Callback>, k: int, fn: Callback)
    requires 0 <= k <= |list|
    ensures Without(list, fn) == Without(list[..k], fn) + Without(list[k..], fn)
  {
    if k < |list| {
      var init := list[..|list| - 1];
      WithoutSplits(init, k, fn);
      assert init[..k] == list[..k] && init[k..] == list[k..][..|list| - 1 - k];
    } else {
      assert list[..k] == list;
    }
  }

  function AfterFire(f: Flags, s: State, args: Args): (o: Outcome)
    requires s.Valid()
    ensures o.state.Valid() && (o.call.Some? ==> o.state.firing && o.state.list.Some?)
  {
    if s.locked then Outcome(s, None)
    else if s.firing then Outcome(s.(queue := s.queue + [args]), None)
    else Begin(f, s.(queue := [args]))
  }

  function AfterReturn(f: Flags, s: State, returnedFalse: bool): (o: Outcome)
    requires s.Valid() && s.firing
    ensures o.state.Valid() && (o.call.Some? ==> o.state.firing && o.state.list.Some?)
  {
    Continue(f, if returnedFalse && f.stopOnFalse then s.(index := s.Length(), memory := None) else s)
  }

  function AfterLock(s: State): (t: State)
    requires s.Valid()
    ensures t.Valid()
  {
    var t := s.(locked := true, queue := []);
    if s.memory.Some? || s.firing then t else t.(list := None, memory := None)
  }

  function AfterDisable(s: State): (t: State)
    requires s.Valid()
    ensures t.Valid()
  {
    s.(locked := true, queue := [], list := None, memory := None)
  }

  lemma {:induction false} PushedPlain(list: seq<Callback>, fns: seq<Callback>)
    ensures Pushed(false, list, fns) == list + fns
    decreases |fns|
  {
    if fns != [] {
      PushedPlain(list + [fns[0]], fns[1..]);
      assert list + [fns[0]] + fns[1..] == list + fns;
    }
  }

  lemma {:induction false} AddKeepsIndex(unique: bool, list: seq<Callback>, fns: seq<Callback>)
    ensures list <= Pushed(unique, list, fns)
    decreases |fns|
  {
    if fns != [] {
      AddKeepsIndex(unique, if unique && fns[0] in list then list else list + [fns[0]], fns[1..]);
    }
  }

  // ------------------------------------------------------------------ the object

  class CallbackList {
    const flags: Flags
    var list: Option<seq<Callback>>
    var queue: seq<Args>
    var index: int
    var memory: Option<Args>
    var locked: bool
    var firing: bool
    var fired: bool

    ghost function View(): State
      reads this
    {
      State(list, queue, index, memory, locked, firing, fired)
    }

    constructor (flags: Flags)
      ensures View() == INITIAL && this.flags == flags
    {
      this.flags := flags;
      list, queue, index, memory := Some([]), [], -1, None;
      locked, firing, fired := false, false, false;
    }

    method Add(fns: seq<Callback>) returns (call: Option<Call>)
      requires View().Valid()
      modifies this
      ensures Outcome(View(), call) == AfterAdd(flags, old(View()), fns)
    {
      call := None;
      if list.Some? {
        var replay := memory.Some? && !firing;
        if replay {
          index := |list.value| - 1;
          queue := queue + [memory.value];
        }
        for i := 0 to |fns|
          invariant View() == old(View()).(list := list, index := index, queue := queue)
          invariant list.Some? && index == if replay then |old(list.value)| - 1 else old(index)
          invariant queue == if replay then [memory.value] else old(queue)
          invariant Pushed(flags.unique, list.value, fns[i..]) == Pushed(flags.unique, old(list.value), fns)
        {
          if !(flags.unique && fns[i] in list.value) {
            list := Some(list.value + [fns[i]]);
          }
          assert fns[i..][1..] == fns[i + 1..];
        }
        assert list.value == Pushed(flags.unique, old(list.value), fns);
        if replay { call := Start(); }
      }
    }

    method FireWith(args: Args) returns (call: Option<Call>)
      requires View().Valid()
      modifies this
      ensures Outcome(View(), call) == AfterFire(flags, old(View()), args)
    {
      call := None;
      if !locked {
        queue := queue + [args];
        if !firing {
          assert queue == [args];
          call := Start();
        }
      }
    }

    /** The firing loop, entered when it is not running. */
    method Start() returns (call: Option<Call>)
      requires queue != [] && list.Some? && -1 <= index && !firing
      modifies this
      ensures Outcome(View(), call) == Begin(flags, old(View()))
    {
      locked := locked || flags.once;
      fired, firing := true, true;
      memory, queue := Some(queue[0]), queue[1..];
      call := Advance();
    }

    /** The call under way has returned. */
    method Resume(returnedFalse: bool) returns (call: Option<Call>)
      requires View().Valid() && firing
      modifies this
      ensures Outcome(View(), call) == AfterReturn(flags, old(View()), returnedFalse)
    {
      if returnedFalse && flags.stopOnFalse {
        index := if list.Some? then |list.value| else 0;
        memory := None;
      }
      call := Advance();
    }

    method Advance() returns (call: Option<Call>)
      requires View().Looping()
      modifies this
      ensures Outcome(View(), call) == Continue(flags, old(View()))
    {
      while true
        invariant View().Looping() && Continue(flags, View()) == Continue(flags, old(View()))
        decreases |queue|
      {
        index := index + 1;
        if list.Some? && index < |list.value| {
          return Some(Call(list.value[index], memory.value));
        }
        index := -1;
        if queue == [] { break; }
        memory, queue := Some(queue[0]), queue[1..];
      }
      if !flags.memory { memory := None; }
      firing := false;
      if locked { list := if memory.Some? then Some([]) else None; }
      call := None;
    }

    /** `inArray`: the first index from `from` on that holds the callback, or -1. */
    method InArray(fn: Callback, from: nat) returns (n: int)
      requires list.Some? && from <= |list.value|
      ensures n == -1 ==> fn !in list.value[from..]
      ensures n != -1 ==> from <= n < |list.value| && list.value[n] == fn && fn !in list.value[from..n]
    {
      n := from;
      while n < |list.value|
        invariant from <= n <= |list.value| && fn !in list.value[from..n]
      {
        if list.value[n] == fn { return; }
        n := n + 1;
      }
      n := -1;
    }

    method Remove(fn: Callback)
      requires View().Valid()
      modifies this`list, this`index
      ensures View() == AfterRemove(old(View()), fn)
    {
      if list.Some? { RemoveAll(fn); }
    }

    method RemoveAll(fn: Callback)
      requires list.Some? && 0 <= index + 1 <= |list.value|
      modifies this`list, this`index
      ensures list.Some? && list.value == Without(old(list.value), fn)
      ensures index == |Without(old(list.value[..index + 1]), fn)| - 1
    {
      ghost var before, passed := list.value, index + 1;
      SearchStarts(before, passed, fn);
      ghost var done: nat := 0;
      var from: nat := 0;
      while true
        invariant list.Some? && done <= |before| && from == KeptAt(before, fn, done)
        invariant list.value == ListAt(before, fn, done) && index == IndexAt(before, passed, fn, done)
        decreases |before| - done
      {
        var n := InArray(fn, from);
        if n == -1 { break; }
        done := SpliceStep(before, passed, fn, done, n, list.value, from);
        list := Some(list.value[..n] + list.value[n + 1..]);
        if n <= index { index := index - 1; }
        from := n;
      }
      SearchEnds(before, passed, fn, done);
    }

    method Lock()
      requires View().Valid()
      modifies this
      ensures View() == AfterLock(old(View()))
    {
      queue, locked := [], true;
      if !(memory.Some? || firing) { list, memory := None, None; }
    }

    method Disable()
      requires View().Valid()
      modifies this
      ensures View() == AfterDisable(old(View()))
    {
      queue, locked := [], true;
      list, memory := None, None;
    }
  }

  // Removal once the first `done` callbacks of the list have been searched: how many of them are
  // kept, what the list is, and where the index is if `passed` callbacks lay at or before it.

  ghost function KeptAt(before: seq<Callback>, fn: Callback, done: nat): nat
    requires done <= |before|
  {
    |Without(before[..done], fn)|
  }

  ghost function ListAt(before: seq<Callback>, fn: Callback, done: nat): (list: seq<Callback>)
    requires done <= |before|
    ensures |list| == KeptAt(before, fn, done) + |before| - done
  {
    Without(before[..done], fn) + before[done..]
  }

  ghost function IndexAt(before: seq<Callback>, passed: int, fn: Callback, done: nat): int
    requires 0 <= passed <= |before| && done <= |before|
  {
    if done <= passed then KeptAt(before, fn, done) + passed - done - 1 else KeptAt(before, fn, passed) - 1
  }

  lemma SearchStarts(before: seq<Callback>, passed: int, fn: Callback)
    requires 0 <= passed <= |before|
    ensures ListAt(before, fn, 0) == before && IndexAt(before, passed, fn, 0) == passed - 1
    ensures KeptAt(before, fn, 0) == 0
  {
    assert before[..0] == [];
  }

  lemma SpliceStep(before: seq<Callback>, passed: int, fn: Callback, done: nat, n: nat, list: seq<Callback>, from: nat)
    returns (next: nat)
    requires 0 <= passed <= |before| && done <= |before|
    requires from == KeptAt(before, fn, done) && list == ListAt(before, fn, done)
    requires from <= n < |list| && list[n] == fn && fn !in list[from..n]
    ensures done < next <= |before| && KeptAt(before, fn, next) == n
    ensures ListAt(before, fn, next) == list[..n] + list[n + 1..]
    ensures var index := IndexAt(before, passed, fn, done);
            IndexAt(before, passed, fn, next) == if n <= index then index - 1 else index
  {
    var last := done + (n - from);
    next := last + 1;
    assert list[from..n] == before[done..last];
    assert list[n] == before[last];
    Untouched(before, done, last, fn);
    assert before[..next][..last] == before[..last];
    assert list[n + 1..] == before[next..];
    if done <= passed <= last {
      assert forall x :: x in before[done..passed] ==> x in before[done..last];
      Untouched(before, done, passed, fn);
    } else if passed < done {
      WithoutSplits(before[..done], passed, fn);
      assert before[..done][..passed] == before[..passed];
    }
  }

  lemma SearchEnds(before: seq<Callback>, passed: int, fn: Callback, done: nat)
    requires 0 <= passed <= |before| && done <= |before|
    requires fn !in ListAt(before, fn, done)[KeptAt(before, fn, done)..]
    ensures ListAt(before, fn, done) == Without(before, fn)
    ensures IndexAt(before, passed, fn, done) == |Without(before[..passed], fn)| - 1
  {
    assert ListAt(before, fn, done)[KeptAt(before, fn, done)..] == before[done..|before|];
    Untouched(before, done, |before|, fn);
    assert before[..|before|] == before;
    if done <= passed {
      assert forall x :: x in before[done..passed] ==> x in before[done..|before|];
      Untouched(before, done, passed, fn);
    }
  }

  lemma {:induction false} Untouched(list: seq<Callback>, done: nat, next: nat, fn: Callback)
    requires done <= next <= |list| && fn !in list[done..next]
    ensures Without(list[..next], fn) == Without(list[..done], fn) + list[done..next]
  {
    if done < next {
      assert list[next - 1] == list[done..next][next - 1 - done];
      assert forall x :: x in list[done..next - 1] ==> x in list[done..next];
      Untouched(list, done, next - 1, fn);
      assert list[..next][..next - 1] == list[..next - 1];
    }
  }
}
