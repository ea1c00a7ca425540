/** The `fx` queue of an element: functions run one after another, each of which gets a continuation
    that starts the next one.  A sentinel at the head of the queue marks that one is running. */
module FxQueue {
  import opened Options

  datatype Slot = InProgress | Item(id: nat)

  function Items(ids: seq<nat>): (slots: seq<Slot>)
    ensures |slots| == |ids| && forall i | 0 <= i < |ids| :: slots[i] == Item(ids[i])
  {
    seq(|ids|, i requires 0 <= i < |ids| => Item(ids[i]))
  }

  lemma ItemsMore(ids: seq<nat>, n: nat, id: nat)
    requires n <= |ids|
    ensures Items((ids + [id])[n..]) == Items(ids[n..]) + [Item(id)]
  {
    assert (ids + [id])[n..] == ids[n..] + [id];
  }

  class FxQueue {
    var queue: seq<Slot>
    /** How often the hooks for an empty queue have been fired. */
    var emptied: nat

    /** All functions enqueued, and those of them started, in order. */
    ghost var enqueued: seq<nat>
    ghost var started: seq<nat>
    /** The functions started (by index) that have not yet called their continuation. */
    ghost var running: set<nat>

    ghost predicate Busy()
      reads this
    {
      queue != [] && queue[0] == InProgress
    }

    /** The sentinel stands only at the head, and then the function started last is in flight;
        everything enqueued has been started or waits behind the sentinel, in order. */
    ghost predicate Valid()
      reads this
    {
      && started <= enqueued
      && queue == (if Busy() then [InProgress] else []) + Items(enqueued[|started|..])
      && (forall k <- running :: k < |started|)
      && (if Busy() then started != [] && |started| - 1 in running else started == enqueued)
    }

    /** One after another: only the function that the sentinel stands for is in flight. */
    ghost predicate Alone()
      reads this
    {
      running == if Busy() then {|started| - 1} else {}
    }

    constructor ()
      ensures Valid() && Alone() && enqueued == [] && emptied == 0
    {
      queue, emptied, enqueued, started, running := [], 0, [], [], {};
    }

    /** `dequeue`: take the next function and answer it for being called, the sentinel in front of
        the rest; when there is none the queue has become empty.  Anybody may call it.  If functions
        have run one after another so far, they go on so exactly if none was in flight. */
    method Dequeue() returns (call: Option<nat>)
      requires Valid()
      modifies this
      ensures Valid() && enqueued == old(enqueued)
      ensures if old(started) == old(enqueued) then call == None && started == old(started) && !Busy()
              else call == Some(enqueued[|old(started)|]) && started == old(started) + [call.value] && Busy()
      ensures running == old(running) + if call.Some? then {|old(started)|} else {}
      ensures emptied == old(emptied) + if old(started) == old(enqueued) then 1 else 0
      ensures old(Alone()) ==> (Alone() <==> old(running) == {})
    {
      call := Next();
    }

    /** The same from a state where the function with the sentinel may just have ended. */
    method Next() returns (call: Option<nat>)
      requires started <= enqueued && (forall k <- running :: k < |started|)
      requires queue == (if Busy() then [InProgress] else []) + Items(enqueued[|started|..])
      modifies this
      ensures Valid() && enqueued == old(enqueued)
      ensures if old(started) == old(enqueued) then call == None && started == old(started) && !Busy()
              else call == Some(enqueued[|old(started)|]) && started == old(started) + [call.value] && Busy()
      ensures running == old(running) + if call.Some? then {|old(started)|} else {}
      ensures emptied == old(emptied) + if old(started) == old(enqueued) then 1 else 0
    {
      ghost var waiting := Items(enqueued[|started|..]);
      var r := |queue|;
      call := None;
      var i: Option<Slot> := None;
      if queue != [] { i, queue := Some(queue[0]), queue[1..]; }
      if i == Some(InProgress) {
        i := None;
        if queue != [] { i, queue := Some(queue[0]), queue[1..]; }
        r := r - 1;
      }
      assert if waiting == [] then i == None && queue == [] && r == 0
             else i == Some(waiting[0]) && queue == waiting[1..] && r > 0;
      if i.Some? {
        queue := [InProgress] + queue;
        call := Some(i.value.id);
        assert enqueued[|started|..][1..] == enqueued[|started| + 1..];
        started, running := started + [i.value.id], running + {|started|};
        assert Items(enqueued[|started|..]) == waiting[1..];
      }
      if r == 0 { emptied := emptied + 1; }
    }

    method Append(id: nat)
      requires Valid()
      modifies this`queue, this`enqueued
      ensures enqueued == old(enqueued) + [id] && queue != [] && (Busy() <==> old(Busy()))
      ensures queue == (if Busy() then [InProgress] else []) + Items(enqueued[|started|..])
    {
      ItemsMore(enqueued, |started|, id);
      queue := queue + [Item(id)];
      enqueued := enqueued + [id];
    }

    /** `queue(fn)`: append, and start the function at once if nothing is in progress. */
    method Enqueue(id: nat) returns (call: Option<nat>)
      requires Valid()
      modifies this
      ensures Valid() && enqueued == old(enqueued) + [id]
      ensures if old(Busy()) then call == None && started == old(started) && running == old(running)
              else call == Some(id) && started == enqueued && running == old(running) + {|old(started)|}
      ensures emptied == old(emptied)
      ensures old(Alone()) ==> Alone()
    {
      Append(id);
      call := None;
      if queue[0] != InProgress {
        call := Next();
      }
    }

    /** The function started as number `k` calls its continuation for the first time; a further call
        is a `Dequeue`. */
    method Continue(ghost k: nat) returns (call: Option<nat>)
      requires Valid() && k in running
      modifies this
      ensures Valid() && enqueued == old(enqueued)
      ensures if old(started) == old(enqueued) then call == None && started == old(started) && !Busy()
              else call == Some(enqueued[|old(started)|]) && started == old(started) + [call.value] && Busy()
      ensures running == old(running) - {k} + if call.Some? then {|old(started)|} else {}
      ensures emptied == old(emptied) + if old(started) == old(enqueued) then 1 else 0
      ensures old(Alone()) ==> Alone()
    {
      running := running - {k};
      call := Next();
    }
  }
}
