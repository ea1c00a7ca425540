/** The Deferred as an object: six callback lists, the state, and the tasks scheduled by `then`. */
module DeferredObject {
  import opened Options
  import opened Callbacks
  import opened Deferred

  /** The loop is in a later firing, or further on in the same one. */
  ghost predicate Comes(s: State, after: State) {
    |s.queue| < |after.queue| || s == after.(index := after.index + 1)
  }

  class DeferredObject {
    const progress: CallbackList
    const done: CallbackList
    const fail: CallbackList
    const progressHandled: CallbackList
    const doneHandled: CallbackList
    const failHandled: CallbackList
    var status: Status
    var tasks: seq<Event>
    /** The calls of user callbacks so far. */
    ghost var log: seq<Event>

    ghost function Owned(): set<CallbackList> {
      {progress, done, fail, progressHandled, doneHandled, failHandled}
    }

    ghost function View(): Wiring
      reads this, Owned()
    {
      Wiring(status, Lists(progress.View(), done.View(), fail.View()),
             Lists(progressHandled.View(), doneHandled.View(), failHandled.View()), log, tasks)
    }

    ghost predicate Apart() {
      && progress != done && progress != fail && progress != progressHandled && progress != doneHandled
      && progress != failHandled && done != fail && done != progressHandled && done != doneHandled
      && done != failHandled && fail != progressHandled && fail != doneHandled && fail != failHandled
      && progressHandled != doneHandled && progressHandled != failHandled && doneHandled != failHandled
      && progress.flags == FlagsOf(Progress) && progressHandled.flags == FlagsOf(Progress)
      && done.flags == FlagsOf(Done) && doneHandled.flags == FlagsOf(Done)
      && fail.flags == FlagsOf(Fail) && failHandled.flags == FlagsOf(Fail)
    }

    ghost predicate Valid()
      reads this, Owned()
    {
      Apart() && View().Valid()
    }

    function Main(k: Kind): CallbackList {
      match k case Progress => progress case Done => done case Fail => fail
    }

    function Handled(k: Kind): CallbackList {
      match k case Progress => progressHandled case Done => doneHandled case Fail => failHandled
    }

    constructor ()
      ensures Valid() && View() == START
      ensures fresh(progress) && fresh(done) && fresh(fail)
      ensures fresh(progressHandled) && fresh(doneHandled) && fresh(failHandled)
    {
      progress := new CallbackList(FlagsOf(Progress));
      progressHandled := new CallbackList(FlagsOf(Progress));
      done := new CallbackList(FlagsOf(Done));
      doneHandled := new CallbackList(FlagsOf(Done));
      fail := new CallbackList(FlagsOf(Fail));
      failHandled := new CallbackList(FlagsOf(Fail));
      status, tasks, log := Pending, [], [];
      new;
      Wire(progress, Progress);
      Wire(done, Done);
      Wire(fail, Fail);
      StartsPending();
    }

    lemma StartsPending()
      requires Apart() && status == Pending && log == [] && tasks == []
      requires progress.View() == InitialList(Progress)
      requires done.View() == InitialList(Done) && fail.View() == InitialList(Fail)
      requires progressHandled.View() == INITIAL && doneHandled.View() == INITIAL && failHandled.View() == INITIAL
      ensures Valid() && View() == START
    {
    }

    /** Give a fresh main list its wired callbacks. */
    static method Wire(list: CallbackList, k: Kind)
      requires list.View() == INITIAL && list.flags == FlagsOf(k)
      modifies list
      ensures list.View() == InitialList(k)
    {
      if k == Progress {
        PushedPlain([], [Wired(5)]);
        assert [] + [Wired(5)] == [Wired(5)];
        var _ := list.Add([Wired(5)]);
      } else {
        var first := [Wired(0), Wired(1), Wired(2), Wired(3), Wired(4)];
        PushedPlain([], first);
        var _ := list.Add(first);
        assert [] + first == first;
        PushedPlain(first, [Wired(5)]);
        var _ := list.Add([Wired(5)]);
        assert first + [Wired(5)] == WIRED;
      }
    }

    /** The effect of a wired callback of main list `k`. */
    method RunWired(k: Kind, index: nat, args: Args)
      requires Valid()
      modifies this`status, this`tasks, Owned()
      ensures Valid() && View() == Effect(old(View()), k, index, args)
    {
      if k == Progress || index == 5 {
        BeginStops(FlagsOf(k), Handled(k).View(), args);
        var call := Handled(k).FireWith(args);
        Schedule(k, call);
      } else if index == 0 {
        status := if k == Done then Resolved else Rejected;
      } else {
        SwitchOff(k, index);
      }
    }

    /** The wired callbacks that switch off other lists. */
    method SwitchOff(k: Kind, index: nat)
      requires Valid() && k != Progress && index !in {0, 5}
      modifies Owned()
      ensures Valid() && forall args :: View() == Effect(old(View()), k, index, args)
    {
      if index == 1 {
        Main(Opposite(k)).Disable();
      } else if index == 2 {
        Handled(Opposite(k)).Disable();
      } else if index == 3 {
        progress.Lock();
      } else {
        progressHandled.Lock();
      }
    }

    /** Run the handlers of list `k` from the one it has stopped at: each schedules its task. */
    method Schedule(k: Kind, first: Option<Call>)
      requires Apart() && Stopped(Outcome(Handled(k).View(), first))
      modifies this`tasks, Handled(k)
      ensures Handled(k).View() == DrainHandled(FlagsOf(k), Outcome(old(Handled(k).View()), first)).state
      ensures tasks == old(tasks) + Tagged(k, DrainHandled(FlagsOf(k), Outcome(old(Handled(k).View()), first)).calls)
    {
      var calls := RunHandlers(Handled(k), k, first);
      tasks := tasks + Tagged(k, calls);
    }

    /** The handlers that a list calls from the one it has stopped at. */
    static method RunHandlers(list: CallbackList, k: Kind, first: Option<Call>) returns (calls: seq<Call>)
      requires list.flags == FlagsOf(k) && Stopped(Outcome(list.View(), first))
      modifies list
      ensures Drained(list.View(), calls) == DrainHandled(FlagsOf(k), Outcome(old(list.View()), first))
    {
      var call := first;
      ghost var all := DrainHandled(FlagsOf(k), Outcome(list.View(), first));
      ghost var rest := all;
      calls := [];
      while call.Some?
        invariant Stopped(Outcome(list.View(), call))
        invariant rest == DrainHandled(FlagsOf(k), Outcome(list.View(), call))
        invariant rest.state == all.state && calls + rest.calls == all.calls
        decreases call.Some?, |list.queue|, list.View().Length() - list.index
      {
        ContinueMoves(FlagsOf(k), list.View());
        calls, rest := calls + [call.value], Drained(rest.state, rest.calls[1..]);
        call := list.Resume(false);
      }
      assert calls == all.calls;
    }

    /** Run the wired callback at which main list `k` has stopped, and move the list on. */
    method Turn(k: Kind, index: nat, args: Args) returns (next: Option<Call>)
      requires Valid() && Main(k).firing && Main(k).list.Some?
      modifies this`status, this`tasks, Owned()
      ensures Valid() && (next.Some? ==> Main(k).firing && Main(k).list.Some?) && log == old(log)
      ensures Drain(View(), k, next) == Drain(old(View()), k, Some(Call(Wired(index), args)))
      ensures next.Some? ==> Comes(Main(k).View(), old(Main(k).View()))
    {
      ghost var v := Effect(View(), k, index, args);
      DrainWired(View(), k, index, args);
      ContinueMoves(FlagsOf(k), Main(k).View());
      RunWired(k, index, args);
      next := Main(k).Resume(false);
      assert View() == v.(main := v.main.Set(k, Main(k).View()));
    }

    /** Run wired callbacks of main list `k` until a user's callback gets control. */
    method DrainMain(k: Kind, first: Option<Call>) returns (user: Option<Call>)
      requires Valid() && (first.Some? ==> Main(k).firing && Main(k).list.Some?)
      modifies this, Owned()
      ensures Valid() && View() == Drain(old(View()), k, first)
      ensures log == if user.Some? then old(log) + [Event(k, user.value)] else old(log)
    {
      user := first;
      ghost var end := Drain(View(), k, first);
      while user.Some? && user.value.fn.Wired?
        invariant Valid() && (user.Some? ==> Main(k).firing && Main(k).list.Some?)
        invariant Drain(View(), k, user) == end && log == old(log)
        decreases user.Some?, |Main(k).queue|, Main(k).View().Length() - Main(k).index
      {
        assert user == Some(Call(Wired(user.value.fn.index), user.value.args));
        user := Turn(k, user.value.fn.index, user.value.args);
      }
      Record(k, user);
    }

    /** The user's callback at which list `k` has stopped, if any, gets control. */
    ghost method Record(k: Kind, user: Option<Call>)
      requires Valid() && (user.Some? ==> Main(k).firing && Main(k).list.Some? && user.value.fn.User?)
      modifies this`log
      ensures Valid() && View() == Drain(old(View()), k, user)
      ensures log == if user.Some? then old(log) + [Event(k, user.value)] else old(log)
    {
      if user.Some? { log := log + [Event(k, user.value)]; }
    }

    /** `notify`, `resolve` and `reject`. */
    method Settle(k: Kind, args: Args) returns (user: Option<Call>)
      requires Valid()
      modifies this, Owned()
      ensures Valid() && View() == Step(old(View()), Deferred.Settle(k, args))
      ensures log == if user.Some? then old(log) + [Event(k, user.value)] else old(log)
    {
      var call := Main(k).FireWith(args);
      user := DrainMain(k, call);
    }

    /** `progress`, `done` and `fail`. */
    method Register(k: Kind, id: nat) returns (user: Option<Call>)
      requires Valid()
      modifies this, Owned()
      ensures Valid() && View() == Step(old(View()), Deferred.Register(k, id))
      ensures log == if user.Some? then old(log) + [Event(k, user.value)] else old(log)
    {
      var call := Main(k).Add([User(id)]);
      user := DrainMain(k, call);
    }

    /** What `then` does to the list of handlers for one outcome. */
    method Then(k: Kind, id: nat)
      requires Valid()
      modifies this`tasks, Owned()
      ensures Valid() && View() == Step(old(View()), Deferred.Then(k, id))
    {
      AddStops(FlagsOf(k), Handled(k).View(), [User(id)]);
      var call := Handled(k).Add([User(id)]);
      Schedule(k, call);
    }

    /** The user's callback that runs in list `k` returns. */
    method Return(k: Kind) returns (user: Option<Call>)
      requires Valid()
      modifies this, Owned()
      ensures Valid() && View() == Step(old(View()), Deferred.Return(k))
      ensures log == if user.Some? then old(log) + [Event(k, user.value)] else old(log)
    {
      user := None;
      if Main(k).firing {
        var call := Main(k).Resume(false);
        user := DrainMain(k, call);
      }
    }
  }
}
