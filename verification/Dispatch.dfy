/** `event.handlers`: which handlers of the bound element an event runs, and in which order. */
module Dispatch {
  import opened Dom
  import EventStore
  import Namespace

  type Handler = EventStore.Handler

  datatype Event = Event(target: Node, click: bool, button: int)

  /** What the page answers: which nodes are elements, which are disabled, and whether a selector
      selects a node in the context of the bound element. */
  datatype Surroundings = Surroundings(isElement: Node -> bool, disabled: Node -> bool,
                                       selects: (Namespace.Name, Node) -> bool)

  datatype Entry = Entry(elem: Node, handlers: seq<Handler>)

  /** Delegated handlers are never run for disabled elements on a click. */
  predicate Eligible(page: Surroundings, e: Event, p: Node) {
    page.isElement(p) && !(e.click && page.disabled(p))
  }

  function Matching(page: Surroundings, handlers: seq<Handler>, p: Node): seq<Handler> {
    if handlers == [] then []
    else
      var rest := Matching(page, handlers[..|handlers| - 1], p);
      var h := handlers[|handlers| - 1];
      if page.selects(h.selector, p) then rest + [h] else rest
  }

  /** The nodes from the target upwards, up to the bound element, which is not among them. */
  function Path(from: Node, bound: Node): seq<Node>
    decreases |from|
  {
    if from == bound then []
    else if from == [] then [from]
    else [from] + Path(Parent(from), bound)
  }

  /** The delegated part: for each node of the path the handlers that match it. */
  function Delegations(page: Surroundings, e: Event, delegated: seq<Handler>, path: seq<Node>): seq<Entry> {
    if path == [] then []
    else
      var rest := Delegations(page, e, delegated, path[..|path| - 1]);
      var p := path[|path| - 1];
      if Eligible(page, e, p) && Matching(page, delegated, p) != [] then rest + [Entry(p, Matching(page, delegated, p))]
      else rest
  }

  /** For a target at or below the bound element the path is made of the prefixes of the target that
      are longer than the bound element, the longest first. */
  lemma {:induction false} PathUpwards(target: Node, bound: Node)
    requires bound <= target
    ensures |Path(target, bound)| == |target| - |bound|
    ensures forall i | 0 <= i < |Path(target, bound)| :: Path(target, bound)[i] == target[..|target| - i]
    decreases |target|
  {
    if target != bound {
      PathUpwards(Parent(target), bound);
      var path := Path(target, bound);
      forall i | 0 <= i < |path|
        ensures path[i] == target[..|target| - i]
      {
        if i > 0 {
          assert path[i] == Path(Parent(target), bound)[i - 1] == Parent(target)[..|target| - i];
        }
      }
    }
  }

  /** The delegated entries are exactly those for the eligible nodes of the path that some handler
      matches, each with the handlers that match. */
  lemma {:induction false} DelegationsMeaning(page: Surroundings, e: Event, delegated: seq<Handler>, path: seq<Node>,
                                              i: nat)
    requires i < |path|
    ensures var p := path[i];
            Eligible(page, e, p) && Matching(page, delegated, p) != [] ==>
              Entry(p, Matching(page, delegated, p)) in Delegations(page, e, delegated, path)
    ensures forall x <- Delegations(page, e, delegated, path) ::
              x.elem in path && Eligible(page, e, x.elem) && x.handlers == Matching(page, delegated, x.elem) != []
  {
    var init := path[..|path| - 1];
    if i < |init| {
      DelegationsMeaning(page, e, delegated, init, i);
    } else if init != [] {
      DelegationsMeaning(page, e, delegated, init, 0);
    }
  }

  lemma {:induction false} MatchingMeans(page: Surroundings, handlers: seq<Handler>, p: Node)
    ensures forall h :: h in Matching(page, handlers, p) <==> h in handlers && page.selects(h.selector, p)
  {
    if handlers != [] {
      MatchingMeans(page, handlers[..|handlers| - 1], p);
      assert handlers == handlers[..|handlers| - 1] + [handlers[|handlers| - 1]];
    }
  }

  lemma {:induction false} DelegationsOrder(page: Surroundings, e: Event, delegated: seq<Handler>, path: seq<Node>)
    requires forall i, j | 0 <= i < j < |path| :: |path[i]| > |path[j]|
    ensures var q := Delegations(page, e, delegated, path);
            && (forall i, j | 0 <= i < j < |q| :: |q[i].elem| > |q[j].elem|)
            && forall x <- q :: x.elem in path
  {
    if path != [] {
      var init := path[..|path| - 1];
      DelegationsOrder(page, e, delegated, init);
      assert forall p <- init :: |p| > |path[|path| - 1]|;
    }
  }

  /** What `handlers` answers for a list whose first `count` handlers are delegated: the delegated
      entries from the target upwards, then the direct handlers on the bound element. */
  function Queue(page: Surroundings, e: Event, list: seq<Handler>, count: nat, bound: Node): seq<Entry>
    requires count <= |list|
  {
    (if Ignored(e) then [] else Delegations(page, e, list[..count], Path(e.target, bound))) +
    (if count < |list| then [Entry(bound, list[count..])] else [])
  }

  /** Clicks of other buttons do not reach delegated handlers. */
  predicate Ignored(e: Event) { e.click && 1 <= e.button }

  /** The handler is to run for node `p`. */
  predicate Runs(page: Surroundings, e: Event, bound: Node, h: Handler, p: Node) {
    if h.selector == [] then p == bound
    else !Ignored(e) && bound < p <= e.target && Eligible(page, e, p) && page.selects(h.selector, p)
  }

  /** The stored handlers that are to run for the node, in their order. */
  function Running(page: Surroundings, e: Event, bound: Node, list: seq<Handler>, p: Node): seq<Handler> {
    if list == [] then []
    else
      var rest := Running(page, e, bound, list[..|list| - 1], p);
      var h := list[|list| - 1];
      if Runs(page, e, bound, h, p) then rest + [h] else rest
  }

  lemma {:induction false} RunningSum(page: Surroundings, e: Event, bound: Node, a: seq<Handler>, b: seq<Handler>,
                                      p: Node)
    ensures Running(page, e, bound, a + b, p) == Running(page, e, bound, a, p) + Running(page, e, bound, b, p)
  {
    if b == [] {
      assert a + b == a;
    } else {
      assert (a + b)[..|a + b| - 1] == a + b[..|b| - 1];
      RunningSum(page, e, bound, a, b[..|b| - 1], p);
    }
  }

  lemma {:induction false} RunningDelegated(page: Surroundings, e: Event, bound: Node, list: seq<Handler>, p: Node)
    requires forall h <- list :: h.selector != []
    requires p == bound || (!Ignored(e) && bound < p <= e.target && Eligible(page, e, p))
    ensures Running(page, e, bound, list, p) == if p == bound then [] else Matching(page, list, p)
  {
    if list != [] {
      var init := list[..|list| - 1];
      assert forall h <- init :: h in list;
      RunningDelegated(page, e, bound, init, p);
    }
  }

  lemma {:induction false} RunningDirect(page: Surroundings, e: Event, bound: Node, list: seq<Handler>, p: Node)
    requires forall h <- list :: h.selector == []
    ensures Running(page, e, bound, list, p) == if p == bound then list else []
  {
    if list != [] {
      var init := list[..|list| - 1];
      assert forall h <- init :: h in list;
      RunningDirect(page, e, bound, init, p);
      assert list == init + [list[|list| - 1]];
    }
  }

  lemma {:induction false} RunningSome(page: Surroundings, e: Event, bound: Node, list: seq<Handler>, p: Node)
    requires Running(page, e, bound, list, p) != []
    ensures exists h <- list :: Runs(page, e, bound, h, p)
  {
    var init, h := list[..|list| - 1], list[|list| - 1];
    if !Runs(page, e, bound, h, p) { RunningSome(page, e, bound, init, p); }
  }

  /** Every entry holds what is to run for its node. */
  lemma EntryHolds(page: Surroundings, e: Event, list: seq<Handler>, count: nat, bound: Node, x: Entry)
    requires count <= |list| && bound <= e.target && x in Queue(page, e, list, count, bound)
    requires forall i | 0 <= i < |list| :: list[i].selector != [] <==> i < count
    ensures x.handlers == Running(page, e, bound, list, x.elem) != []
  {
    var path, p := Path(e.target, bound), x.elem;
    PathUpwards(e.target, bound);
    assert list == list[..count] + list[count..];
    if !Ignored(e) && x in Delegations(page, e, list[..count], path) {
      if path != [] { DelegationsMeaning(page, e, list[..count], path, 0); }
    } else {
      assert x == Entry(bound, list[count..]);
    }
    RunningSum(page, e, bound, list[..count], list[count..], p);
    RunningDelegated(page, e, bound, list[..count], p);
    RunningDirect(page, e, bound, list[count..], p);
  }

  /** The handler is in the entry of the node. */
  ghost predicate Listed(q: seq<Entry>, p: Node, h: Handler) {
    exists x <- q :: x.elem == p && h in x.handlers
  }

  /** For a list of the store and a target at or below the bound element: entries come from inner nodes
      to outer ones, the bound element last; there is one for a node exactly if something is to run for
      it, and it holds all of that, in the order of the store. */
  lemma QueueMeans(page: Surroundings, e: Event, list: seq<Handler>, count: nat, bound: Node)
    requires EventStore.ValidList(list, count) && bound <= e.target
    ensures count <= |list|
    ensures var q := Queue(page, e, list, count, bound);
            && (forall i, j | 0 <= i < j < |q| :: |q[i].elem| > |q[j].elem|)
            && forall p, hs :: Entry(p, hs) in q <==> hs == Running(page, e, bound, list, p) != []
    ensures forall p, h :: Listed(Queue(page, e, list, count, bound), p, h) <==> h in list && Runs(page, e, bound, h, p)
  {
    EventStore.PartitionedMeans(list);
    QueueOrder(page, e, list, count, bound);
    var q := Queue(page, e, list, count, bound);
    forall p, h
      ensures Listed(q, p, h) <==> h in list && Runs(page, e, bound, h, p)
    {
      ListedMeans(page, e, list, count, bound, p, h);
    }
    forall p, hs
      ensures Entry(p, hs) in q <==> hs == Running(page, e, bound, list, p) != []
    {
      if Entry(p, hs) in q { EntryHolds(page, e, list, count, bound, Entry(p, hs)); }
      if hs == Running(page, e, bound, list, p) != [] { EntryThere(page, e, list, count, bound, p); }
    }
  }

  /** Which handlers run for a node: the direct ones on the bound element; the delegated ones on elements
      below it that their selector selects, but on a click only with the main button, and never on
      disabled elements. */
  lemma HandlersOf(page: Surroundings, e: Event, list: seq<Handler>, count: nat, bound: Node, p: Node, h: Handler)
    requires EventStore.ValidList(list, count) && bound <= e.target
    ensures count <= |list|
    ensures Listed(Queue(page, e, list, count, bound), p, h) <==>
            h in list && if h.selector == [] then p == bound
                         else && bound < p <= e.target && page.isElement(p) && page.selects(h.selector, p)
                              && !(e.click && (e.button >= 1 || page.disabled(p)))
  {
    EventStore.PartitionedMeans(list);
    ListedMeans(page, e, list, count, bound, p, h);
  }

  lemma EntryThere(page: Surroundings, e: Event, list: seq<Handler>, count: nat, bound: Node, p: Node)
    requires count <= |list| && bound <= e.target && Running(page, e, bound, list, p) != []
    requires forall i | 0 <= i < |list| :: list[i].selector != [] <==> i < count
    ensures Entry(p, Running(page, e, bound, list, p)) in Queue(page, e, list, count, bound)
  {
    var q := Queue(page, e, list, count, bound);
    RunningSome(page, e, bound, list, p);
    var h :| h in list && Runs(page, e, bound, h, p);
    ListedMeans(page, e, list, count, bound, p, h);
    var x :| x in q && x.elem == p && h in x.handlers;
    EntryHolds(page, e, list, count, bound, x);
  }

  lemma QueueOrder(page: Surroundings, e: Event, list: seq<Handler>, count: nat, bound: Node)
    requires count <= |list| && bound <= e.target
    ensures var q := Queue(page, e, list, count, bound); forall i, j | 0 <= i < j < |q| :: |q[i].elem| > |q[j].elem|
  {
    var path, q := Path(e.target, bound), Queue(page, e, list, count, bound);
    var inner := if Ignored(e) then [] else Delegations(page, e, list[..count], path);
    PathUpwards(e.target, bound);
    DelegationsOrder(page, e, list[..count], path);
    assert forall x <- inner :: |x.elem| > |bound|;
    forall i, j | 0 <= i < j < |q|
      ensures |q[i].elem| > |q[j].elem|
    {
      if j < |inner| { assert q[i] == inner[i] && q[j] == inner[j]; } else { assert q[i] in inner; }
    }
  }

  lemma ListedMeans(page: Surroundings, e: Event, list: seq<Handler>, count: nat, bound: Node, p: Node, h: Handler)
    requires count <= |list| && bound <= e.target
    requires forall i | 0 <= i < |list| :: list[i].selector != [] <==> i < count
    ensures Listed(Queue(page, e, list, count, bound), p, h) <==> h in list && Runs(page, e, bound, h, p)
  {
    var inner := if Ignored(e) then [] else Delegations(page, e, list[..count], Path(e.target, bound));
    var last := if count < |list| then [Entry(bound, list[count..])] else [];
    InnerMeans(page, e, list[..count], bound, p, h);
    SplitEntries(inner, last, p, h);
    assert list == list[..count] + list[count..];
    assert h in list[..count] ==> h.selector != [];
    assert h in list[count..] ==> h.selector == [];
    assert Listed(last, p, h) <==> h in list[count..] && p == bound by {
      if h in list[count..] { assert last[0] in last; }
    }
  }

  lemma SplitEntries(a: seq<Entry>, b: seq<Entry>, p: Node, h: Handler)
    ensures Listed(a + b, p, h) <==> Listed(a, p, h) || Listed(b, p, h)
  {
    assert forall x :: x in a + b <==> x in a || x in b;
  }

  lemma InnerMeans(page: Surroundings, e: Event, delegated: seq<Handler>, bound: Node, p: Node, h: Handler)
    requires bound <= e.target
    ensures Listed(Delegations(page, e, delegated, Path(e.target, bound)), p, h) <==>
            h in delegated && bound < p <= e.target && Eligible(page, e, p) && page.selects(h.selector, p)
  {
    var path := Path(e.target, bound);
    PathUpwards(e.target, bound);
    MatchingMeans(page, delegated, p);
    if bound < p <= e.target {
      var i := |e.target| - |p|;
      assert path[i] == p;
      DelegationsMeaning(page, e, delegated, path, i);
    } else if path != [] {
      DelegationsMeaning(page, e, delegated, path, 0);
    }
  }

  /** The delegated handlers that match one node, asking about each selector only once. */
  method MatchNode(page: Surroundings, delegated: seq<Handler>, p: Node) returns (o: seq<Handler>)
    ensures o == Matching(page, delegated, p)
  {
    o := [];
    var memo: map<Namespace.Name, bool> := map[];
    for n := 0 to |delegated|
      invariant o == Matching(page, delegated[..n], p)
      invariant forall s <- memo :: memo[s] == page.selects(s, p)
    {
      var r := delegated[n];
      if r.selector !in memo {
        memo := memo[r.selector := page.selects(r.selector, p)];
      }
      assert delegated[..n + 1][..n] == delegated[..n];
      if memo[r.selector] { o := o + [r]; }
    }
    assert delegated[..|delegated|] == delegated;
  }

  /** `handlers`, for a store list whose first `count` handlers are delegated. */
  method Handlers(page: Surroundings, e: Event, list: seq<Handler>, count: nat, bound: Node) returns (queue: seq<Entry>)
    requires count <= |list|
    ensures queue == Queue(page, e, list, count, bound)
  {
    queue := [];
    ghost var path := Path(e.target, bound);
    if count != 0 && !(e.click && 1 <= e.button) {
      var l := e.target;
      ghost var done := 0;
      assert path[0..] == path;
      while l != bound
        invariant done <= |path| && Path(l, bound) == path[done..]
        invariant queue == Delegations(page, e, list[..count], path[..done])
        decreases if l == bound then 0 else |l| + 1
      {
        assert path[done] == l && path[..done + 1][..done] == path[..done];
        if Eligible(page, e, l) {
          var o := MatchNode(page, list[..count], l);
          if o != [] { queue := queue + [Entry(l, o)]; }
        }
        assert path[done..][1..] == path[done + 1..];
        l := if l == [] then bound else Parent(l);
        done := done + 1;
      }
      assert path[..done] == path;
    } else {
      NoDelegations(page, e, path);
    }
    if count < |list| { queue := queue + [Entry(bound, list[count..])]; }
  }

  lemma {:induction false} NoDelegations(page: Surroundings, e: Event, path: seq<Node>)
    ensures Delegations(page, e, [], path) == []
  {
    if path != [] { NoDelegations(page, e, path[..|path| - 1]); }
  }
}
