/** The handlers stored for one element by `event.add` and `event.remove`: for every event type a
    list with the delegated handlers (those with a selector) in front, and their number. */
module EventStore {
  import opened Options
  import opened Namespace

  /** An empty selector stands for none; the namespace is the join of the names. */
  datatype Handler = Handler(origType: Name, guid: nat, selector: Name, namespace: Name)

  const ANY_SELECTOR: Name := [0x2A, 0x2A]

  /** What `event.remove` looks for: the type (none when all types are searched) and the names of a
      word, a guid, a selector. */
  datatype Query = Query(origType: Option<Name>, names: seq<Name>, guid: Option<nat>, selector: Name)

  /** The tests of `event.remove` other than that of the namespace. */
  predicate Fits(q: Query, h: Handler) {
    && (q.origType.Some? ==> q.origType.value == h.origType)
    && (q.guid.Some? ==> q.guid.value == h.guid)
    && (q.selector == [] || q.selector == h.selector || (q.selector == ANY_SELECTOR && h.selector != []))
  }

  /** Does `event.remove` remove the handler?  If the word has names, the regular expression built from
      them must match the namespace. */
  ghost predicate Removes(q: Query, h: Handler) {
    Fits(q, h) && (q.names != [] ==> Test(q.names, h.namespace))
  }

  ghost function Criterion(q: Query): Handler -> bool {
    h => Removes(q, h)
  }

  /** The same on split names, without running a regular expression. */
  function BySubsequence(q: Query): Handler -> bool {
    h => Fits(q, h) && Subsequence(q.names, Split(h.namespace))
  }

  /** For words and stored namespaces, the expression removes the handlers that have all the names of
      the word, and these are the ones found by subsequence. */
  lemma RemovesMeans(q: Query, h: Handler)
    requires WellNamed(q.names) && Stored(h.namespace)
    ensures Removes(q, h) <==> Fits(q, h) && multiset(q.names) <= multiset(Split(h.namespace))
    ensures Removes(q, h) <==> BySubsequence(q)(h)
  {
    if q.names != [] { WordFilterMeans(q.names, h.namespace); }
  }

  /** A handler added with the word `t.as` and a removal with the word `t.bs`: it goes exactly if it has
      all the names asked for, with multiplicities, and the other tests are met. */
  lemma RemovalByNames(t: Name, as_: seq<Name>, bs: seq<Name>, guid: nat, selector: Name, asked: Option<nat>, r: Name)
    requires DOT !in t && as_ != [] && DotFree(as_) && OneLine(Join(as_)) && Join(as_) != []
    requires bs != [] && DotFree(bs) && OneLine(Join(bs)) && Join(bs) != []
    ensures var added, removed := ParseWord(t + [DOT] + Join(as_)), ParseWord(t + [DOT] + Join(bs));
            var h := Handler(added.eventType, guid, selector, Join(added.names));
            Removes(Query(Some(removed.eventType), removed.names, asked, r), h) <==>
              && multiset(bs) <= multiset(as_) && (asked.None? || asked == Some(guid))
              && (r == [] || r == selector || (r == [0x2A, 0x2A] && selector != []))
  {
    var added, removed := ParseWord(t + [DOT] + Join(as_)), ParseWord(t + [DOT] + Join(bs));
    var h := Handler(added.eventType, guid, selector, Join(added.names));
    var q := Query(Some(removed.eventType), removed.names, asked, r);
    WordNames(t, as_);
    WordNames(t, bs);
    WordsAreWellNamed(t + [DOT] + Join(as_));
    WordsAreWellNamed(t + [DOT] + Join(bs));
    assert |multiset(added.names)| == |multiset(as_)| > 0;
    JoinIsStored(added.names);
    SplitOfJoin(added.names);
    RemovesMeans(q, h);
  }

  /** What a removal leaves alone. */
  lemma LeftAlone(q: Query, h: Handler)
    ensures q.origType.Some? && h.origType != q.origType.value ==> !Removes(q, h)
    ensures q.guid.Some? && h.guid != q.guid.value ==> !Removes(q, h)
    ensures q.selector == [0x2A, 0x2A] && h.selector == [] ==> !Removes(q, h)
    ensures q.selector !in {[], [0x2A, 0x2A]} && h.selector != q.selector ==> !Removes(q, h)
    ensures q.names == [] && !Removes(q, h) ==>
              || (q.origType.Some? && h.origType != q.origType.value) || (q.guid.Some? && h.guid != q.guid.value)
              || (q.selector != [] && h.selector != q.selector && (q.selector != [0x2A, 0x2A] || h.selector == []))
  {
  }

  ghost predicate AllStored(list: seq<Handler>) {
    forall h <- list :: Stored(h.namespace)
  }

  /** The handlers that stay, in their order. */
  function Kept(list: seq<Handler>, removes: Handler -> bool): seq<Handler> {
    if list == [] then []
    else
      var rest := Kept(list[1..], removes);
      if removes(list[0]) then rest else [list[0]] + rest
  }

  function Delegated(list: seq<Handler>): nat {
    if list == [] then 0 else (if list[0].selector != [] then 1 else 0) + Delegated(list[1..])
  }

  /** No direct handler comes before a delegated one. */
  predicate Partitioned(list: seq<Handler>) {
    list == [] || if list[0].selector != [] then Partitioned(list[1..]) else Delegated(list) == 0
  }

  /** So the delegated handlers are those before the index `Delegated(list)`. */
  lemma {:induction false} PartitionedMeans(list: seq<Handler>)
    ensures Delegated(list) <= |list|
    ensures Partitioned(list) <==> forall i | 0 <= i < |list| :: list[i].selector != [] <==> i < Delegated(list)
  {
    if list != [] {
      var rest := list[1..];
      PartitionedMeans(rest);
      assert forall i | 0 < i < |list| :: list[i] == rest[i - 1];
      if list[0].selector == [] && Delegated(list) == 0 { NoneDelegated(rest); }
    }
  }

  lemma {:induction false} NoneDelegated(list: seq<Handler>)
    requires Delegated(list) == 0
    ensures forall i | 0 <= i < |list| :: list[i].selector == []
  {
    if list != [] { NoneDelegated(list[1..]); }
  }

  lemma {:induction false} DelegatedSum(a: seq<Handler>, b: seq<Handler>)
    ensures Delegated(a + b) == Delegated(a) + Delegated(b)
  {
    if a == [] { assert a + b == b; } else { DelegatedSum(a[1..], b); assert (a + b)[1..] == a[1..] + b; }
  }

  lemma {:induction false} KeptSum(a: seq<Handler>, b: seq<Handler>, removes: Handler -> bool)
    ensures Kept(a + b, removes) == Kept(a, removes) + Kept(b, removes)
  {
    if a == [] {
      assert a + b == b;
    } else {
      KeptSum(a[1..], b, removes);
      assert (a + b)[1..] == a[1..] + b && (a + b)[0] == a[0];
      var rest, last := Kept(a[1..], removes), Kept(b, removes);
      assert [a[0]] + (rest + last) == [a[0]] + rest + last;
    }
  }

  /** A list of the store with its count. */
  ghost predicate ValidList(list: seq<Handler>, delegates: int) {
    list != [] && Partitioned(list) && delegates == Delegated(list) && AllStored(list)
  }

  /** Where a handler is inserted: at the end of the delegated ones, or at the end. */
  function Inserted(list: seq<Handler>, h: Handler): seq<Handler> {
    PartitionedMeans(list);
    if h.selector != [] then list[..Delegated(list)] + [h] + list[Delegated(list)..] else list + [h]
  }

  /** A direct handler comes last, a delegated one behind the other delegated ones; the rest keep their
      order around it. */
  lemma {:induction false} InsertedMeans(list: seq<Handler>, h: Handler)
    requires Partitioned(list)
    ensures exists a, b ::
      && list == a + b && Inserted(list, h) == a + [h] + b
      && if h.selector == [] then b == []
         else (forall g <- a :: g.selector != []) && forall g <- b :: g.selector == []
  {
    PartitionedMeans(list);
    var d := if h.selector == [] then |list| else Delegated(list);
    var a, b := list[..d], list[d..];
    assert list == a + b && Inserted(list, h) == a + [h] + b;
  }

  lemma {:induction false} InsertPartitions(list: seq<Handler>, h: Handler)
    requires Partitioned(list)
    ensures Partitioned(Inserted(list, h))
    ensures Delegated(Inserted(list, h)) == Delegated(list) + if h.selector != [] then 1 else 0
  {
    PartitionedMeans(list);
    var d := Delegated(list);
    if list != [] && list[0].selector != [] {
      InsertPartitions(list[1..], h);
      InsertedBehind(list, h);
    } else if h.selector != [] {
      assert Inserted(list, h) == [h] + list;
    } else {
      DelegatedSum(list, [h]);
    }
  }

  lemma InsertedBehind(list: seq<Handler>, h: Handler)
    requires list != [] && list[0].selector != []
    ensures Inserted(list, h) == [list[0]] + Inserted(list[1..], h)
    ensures ([list[0]] + Inserted(list[1..], h))[1..] == Inserted(list[1..], h)
  {
    PartitionedMeans(list[1..]);
    if h.selector != [] {
      var d := Delegated(list);
      assert list[..d] == [list[0]] + list[1..][..d - 1] && list[d..] == list[1..][d - 1..];
    }
  }

  /** Exactly the matching handlers go; the others stay as often as they were there. */
  lemma {:induction false} KeptExactly(list: seq<Handler>, removes: Handler -> bool, h: Handler)
    ensures multiset(Kept(list, removes))[h] ==
      if removes(h) then 0 else multiset(list)[h]
  {
    if list != [] {
      KeptExactly(list[1..], removes, h);
      assert list == [list[0]] + list[1..];
    }
  }

  lemma {:induction false} RemovePartitions(list: seq<Handler>, removes: Handler -> bool)
    requires Partitioned(list)
    ensures Partitioned(Kept(list, removes))
    ensures Delegated(Kept(list, removes)) <= Delegated(list)
  {
    if list != [] {
      if list[0].selector == [] { NoneDelegated(list[1..]); StillPartitioned(list[1..]); }
      RemovePartitions(list[1..], removes);
      var rest := Kept(list[1..], removes);
      assert Kept(list, removes) == rest || Kept(list, removes) == [list[0]] + rest;
      assert ([list[0]] + rest)[1..] == rest;
    }
  }

  lemma StillPartitioned(list: seq<Handler>)
    requires Delegated(list) == 0
    ensures Partitioned(list)
  {
    if list != [] { NoneDelegated(list); }
  }

  lemma {:induction false} KeptAll(list: seq<Handler>, removes: Handler -> bool)
    requires forall h <- list :: !removes(h)
    ensures Kept(list, removes) == list
  {
    if list != [] { KeptAll(list[1..], removes); }
  }

  /** Two criteria that agree on the list keep the same handlers. */
  lemma {:induction false} KeptSame(list: seq<Handler>, f: Handler -> bool, g: Handler -> bool)
    requires forall h <- list :: f(h) == g(h)
    ensures Kept(list, f) == Kept(list, g)
    ensures forall h <- Kept(list, f) :: h in list
  {
    if list != [] { KeptSame(list[1..], f, g); }
  }

  lemma {:induction false} KeptTwice(list: seq<Handler>, removes: Handler -> bool)
    ensures Kept(Kept(list, removes), removes) == Kept(list, removes)
  {
    if list != [] {
      KeptTwice(list[1..], removes);
      var rest := Kept(list[1..], removes);
      assert ([list[0]] + rest)[1..] == rest;
    }
  }

  lemma KeptAround(a: seq<Handler>, h: Handler, b: seq<Handler>, removes: Handler -> bool)
    requires removes(h) && forall g | g in a || g in b :: !removes(g)
    ensures Kept(a + [h] + b, removes) == a + b
  {
    KeptSum(a + [h], b, removes);
    KeptSum(a, [h], removes);
    KeptAll(a, removes);
    KeptAll(b, removes);
    assert Kept([h], removes) == [];
  }

  /** Removing the handler that was just added, by its guid, restores the list. */
  lemma RemoveUndoesAdd(list: seq<Handler>, h: Handler)
    requires forall g <- list :: g.guid != h.guid
    ensures Kept(Inserted(list, h), Criterion(Query(Some(h.origType), [], Some(h.guid), []))) == list
  {
    PartitionedMeans(list);
    var d := if h.selector != [] then Delegated(list) else |list|;
    assert list == list[..d] + list[d..];
    KeptAround(list[..d], h, list[d..], Criterion(Query(Some(h.origType), [], Some(h.guid), [])));
    assert Inserted(list, h) == list[..d] + [h] + list[d..];
  }

  /** An event type as words give it. */
  predicate IsType(t: Name) { t != [] && DOT !in t }

  /** Types are stored under types. */
  ghost predicate GivesTypes(stored: (bool, Name) -> Name) {
    forall delegated, t | IsType(t) :: IsType(stored(delegated, t))
  }

  type Lists = map<Name, seq<Handler>>

  function ListOf(lists: Lists, t: Name): seq<Handler> {
    if t in lists then lists[t] else []
  }

  /** The store with another list for the type; no empty list is kept. */
  function Put(lists: Lists, t: Name, list: seq<Handler>): Lists {
    if list == [] then lists - {t} else lists[t := list]
  }

  /** The store after types have been searched one after another, each in the list under which it is
      stored, but only if it still has a list of its own. */
  function Searched(was: Lists, removes: Handler -> bool, under: Name -> Name, types: seq<Name>): Lists {
    if types == [] then was
    else
      SearchedOne(Searched(was, removes, under, types[..|types| - 1]), removes, under, types[|types| - 1])
  }

  function SearchedOne(now: Lists, removes: Handler -> bool, under: Name -> Name, t: Name): Lists {
    if t in now then Put(now, under(t), Kept(ListOf(now, under(t)), removes)) else now
  }

  /** Every list loses what is asked for or nothing, only lists under which types are stored can lose it,
      and those of types stored under themselves do. */
  lemma {:induction false} SearchedMeans(was: Lists, removes: Handler -> bool, under: Name -> Name, types: seq<Name>)
    requires forall t <- types :: t in was && was[t] != []
    ensures var now := Searched(was, removes, under, types);
            && (forall u :: ListOf(now, u) == ListOf(was, u) || ListOf(now, u) == Kept(ListOf(was, u), removes))
            && (forall u :: ListOf(now, u) != ListOf(was, u) ==> exists t <- types :: under(t) == u)
            && (forall t <- types :: under(t) == t ==> ListOf(now, t) == Kept(ListOf(was, t), removes))
  {
    if types != [] {
      var init, t := types[..|types| - 1], types[|types| - 1];
      assert forall s <- init :: s in types;
      SearchedMeans(was, removes, under, init);
      PutMeans(Searched(was, removes, under, init), under(t), removes);
      KeptTwice(ListOf(was, under(t)), removes);
      assert forall s <- types :: s in init || s == t;
    }
  }

  lemma PutMeans(lists: Lists, t: Name, removes: Handler -> bool)
    ensures forall u :: ListOf(Put(lists, t, Kept(ListOf(lists, t), removes)), u) ==
                        if u == t then Kept(ListOf(lists, t), removes) else ListOf(lists, u)
  {
  }

  /** When types are stored under types that are stored under themselves, the order does not matter:
      exactly the lists under which a type in store is stored lose what is asked for. */
  lemma {:induction false} SearchedExactly(was: Lists, removes: Handler -> bool, under: Name -> Name, types: seq<Name>)
    requires forall t <- types :: t in was && was[t] != [] && under(under(t)) == under(t)
    ensures var now := Searched(was, removes, under, types);
            forall u :: ListOf(now, u) ==
              if exists t <- types :: under(t) == u then Kept(ListOf(was, u), removes) else ListOf(was, u)
  {
    if types != [] {
      var init, t := types[..|types| - 1], types[|types| - 1];
      var now := Searched(was, removes, under, init);
      assert forall s <- init :: s in types;
      SearchedExactly(was, removes, under, init);
      PutMeans(now, under(t), removes);
      KeptTwice(ListOf(was, under(t)), removes);
      assert forall s <- types :: s in init || s == t;
      if t !in now {
        assert ListOf(now, t) != ListOf(was, t);
        var s :| s in init && under(s) == t;
        assert under(t) == t;
      }
    }
  }

  lemma SearchedThree(was: Lists, removes: Handler -> bool, under: Name -> Name, a: Name, b: Name, c: Name)
    ensures Searched(was, removes, under, [a, b, c]) ==
            SearchedOne(SearchedOne(SearchedOne(was, removes, under, a), removes, under, b), removes, under, c)
  {
    SearchedMore(was, removes, under, [], a);
    SearchedMore(was, removes, under, [a], b);
    SearchedMore(was, removes, under, [a, b], c);
    assert [] + [a] == [a] && [a] + [b] == [a, b] && [a, b] + [c] == [a, b, c];
  }

  lemma SearchedMore(was: Lists, removes: Handler -> bool, under: Name -> Name, types: seq<Name>, t: Name)
    ensures Searched(was, removes, under, types + [t]) ==
            SearchedOne(Searched(was, removes, under, types), removes, under, t)
  {
    assert (types + [t])[..|types|] == types;
  }

  /** Otherwise it can matter: three types, each stored under the next. */
  lemma OrderMatters(h: Handler)
    ensures var a, b, c: Name := [0x61], [0x62], [0x63];
            var was: Lists := map[a := [h], b := [h], c := [h]];
            var under := (t: Name) => if t == a then b else if t == b then c else a;
            var all := (g: Handler) => true;
            && Searched(was, all, under, [a, b, c]) == map[c := [h]]
            && Searched(was, all, under, [b, a, c]) == map[a := [h]]
  {
    var a, b, c: Name := [0x61], [0x62], [0x63];
    var was: Lists := map[a := [h], b := [h], c := [h]];
    var under := (t: Name) => if t == a then b else if t == b then c else a;
    var all := (g: Handler) => true;
    assert Kept([h], all) == [];
    SearchedThree(was, all, under, a, b, c);
    SearchedThree(was, all, under, b, a, c);
  }

  class EventStore {
    /** Which type an event is stored under; the first argument says whether a selector is given. */
    const stored: (bool, Name) -> Name
    var lists: map<Name, seq<Handler>>
    var delegateCount: map<Name, int>

    ghost predicate Valid()
      reads this
    {
      && GivesTypes(stored) && lists.Keys == delegateCount.Keys
      && forall t <- lists :: IsType(t) && ValidList(lists[t], delegateCount[t])
    }

    function Handlers(t: Name): seq<Handler>
      reads this
    {
      ListOf(lists, t)
    }

    constructor (stored: (bool, Name) -> Name)
      requires GivesTypes(stored)
      ensures Valid() && lists == map[] && this.stored == stored
    {
      this.stored := stored;
      lists, delegateCount := map[], map[];
    }

    /** `event.add` for one word of the type list; a word without a type is skipped. */
    method AddOne(word: Name, guid: nat, selector: Name)
      requires Valid()
      modifies this
      ensures Valid()
      ensures ParseWord(word).eventType == [] ==> lists == old(lists)
      ensures ParseWord(word).eventType != [] ==>
        var spec := ParseWord(word);
        var h := Handler(spec.eventType, guid, selector, Join(spec.names));
        var t := stored(selector != [], spec.eventType);
        lists == old(lists)[t := Inserted(old(Handlers(t)), h)]
    {
      var spec := ParseWord(word);
      if spec.eventType == [] { return; }
      WordsAreWellNamed(word);
      JoinIsStored(spec.names);
      var t := stored(selector != [], spec.eventType);
      var h := Handler(spec.eventType, guid, selector, Join(spec.names));
      var list, count := Add(Handlers(t), if t in lists then delegateCount[t] else 0, h);
      lists, delegateCount := lists[t := list], delegateCount[t := count];
    }

    /** The insertion into one list with its count. */
    static method Add(list: seq<Handler>, delegates: int, h: Handler) returns (p: seq<Handler>, count: int)
      requires delegates == Delegated(list) && Partitioned(list) && AllStored(list) && Stored(h.namespace)
      ensures p == Inserted(list, h) && ValidList(p, count)
    {
      InsertPartitions(list, h);
      PartitionedMeans(list);
      if h.selector != [] {
        p, count := list[..delegates] + [h] + list[delegates..], delegates + 1;
      } else {
        p, count := list + [h], delegates;
      }
    }

    /** Which type the type is stored under, for queries with this selector. */
    function Under(selector: Name): Name -> Name {
      t => stored(selector != [], t)
    }

    /** `event.remove` for one word.  A word without a type is tried with every type in store, in the
        order of their enumeration, unless its list has gone by then. */
    method RemoveOne(word: Name, guid: Option<nat>, selector: Name, order: seq<Name>)
      requires Valid() && forall t :: t in order <==> t in lists
      modifies this
      ensures Valid()
      ensures var spec := ParseWord(word);
              if spec.eventType != [] then
                var q := Query(Some(spec.eventType), spec.names, guid, selector);
                var t := stored(selector != [], spec.eventType);
                lists == Put(old(lists), t, Kept(old(Handlers(t)), Criterion(q)))
              else
                var q := Query(None, spec.names, guid, selector);
                lists == Searched(old(lists), Criterion(q), Under(selector), order)
    {
      WordsAreWellNamed(word);
      var spec := ParseWord(word);
      if spec.eventType != [] {
        RemoveTyped(spec.eventType, Query(Some(spec.eventType), spec.names, guid, selector));
      } else {
        RemoveEverywhere(word, guid, selector, order);
      }
    }

    /** The calls with every type in front of the word. */
    method RemoveEverywhere(word: Name, guid: Option<nat>, selector: Name, order: seq<Name>)
      requires Valid() && ParseWord(word).eventType == [] && forall t :: t in order <==> t in lists
      modifies this
      ensures Valid()
      ensures var c := Criterion(Query(None, ParseWord(word).names, guid, selector));
              lists == Searched(old(lists), c, Under(selector), order)
    {
      WordsAreWellNamed(word);
      ghost var was, c := lists, Criterion(Query(None, ParseWord(word).names, guid, selector));
      for i := 0 to |order|
        invariant Valid() && lists == Searched(was, c, Under(selector), order[..i])
      {
        assert order[..i + 1][..i] == order[..i];
        if order[i] in lists {
          TypeInFront(order[i], word);
          var spec := ParseWord(order[i] + word);
          RemoveTyped(spec.eventType, Query(None, spec.names, guid, selector));
        }
      }
      assert order[..|order|] == order;
    }

    /** The removal from the list of one type. */
    method RemoveTyped(eventType: Name, q: Query)
      requires Valid() && IsType(eventType) && WellNamed(q.names)
      modifies this
      ensures Valid()
      ensures var t := stored(q.selector != [], eventType);
              lists == Put(old(lists), t, Kept(old(Handlers(t)), Criterion(q)))
    {
      var t := stored(q.selector != [], eventType);
      if t !in lists {
        assert lists - {t} == lists;
        return;
      }
      var p, count := Remove(lists[t], delegateCount[t], q);
      if p == [] {
        lists, delegateCount := lists - {t}, delegateCount - {t};
      } else {
        lists, delegateCount := lists[t := p], delegateCount[t := count];
      }
    }

    /** The removal from one list with its count. */
    static method Remove(list: seq<Handler>, delegates: int, q: Query) returns (p: seq<Handler>, count: int)
      requires ValidList(list, delegates) && WellNamed(q.names)
      ensures p == Kept(list, Criterion(q))
      ensures p != [] ==> ValidList(p, count)
    {
      var removes := BySubsequence(q);
      forall h | h in list
        ensures Criterion(q)(h) == removes(h)
      {
        RemovesMeans(q, h);
      }
      KeptSame(list, Criterion(q), removes);
      RemovePartitions(list, removes);
      p, count := Filter(list, delegates, removes);
    }

    /** The backward walk over one list with its count. */
    static method Filter(list: seq<Handler>, delegates: int, removes: Handler -> bool)
      returns (p: seq<Handler>, count: int)
      requires delegates == Delegated(list)
      ensures p == Kept(list, removes) && count == Delegated(p)
    {
      p, count := list, delegates;
      var o := |p|;
      assert list[|list|..] == [];
      while o > 0
        invariant 0 <= o <= |list|
        invariant p == list[..o] + Kept(list[o..], removes)
        invariant count == Delegated(p)
      {
        o := o - 1;
        FilterStep(list, o, removes);
        if removes(p[o]) {
          SpliceCount(p, o);
          if p[o].selector != [] { count := count - 1; }
          p := p[..o] + p[o + 1..];
        }
      }
      assert list[0..] == list;
    }
  }

  lemma FilterStep(list: seq<Handler>, o: nat, removes: Handler -> bool)
    requires o < |list|
    ensures var p, q := list[..o + 1] + Kept(list[o + 1..], removes), Kept(list[o..], removes);
            if removes(list[o]) then p[..o] + p[o + 1..] == list[..o] + q else p == list[..o] + q
  {
    assert list[o..][0] == list[o] && list[o..][1..] == list[o + 1..];
    assert list[..o + 1] == list[..o] + [list[o]];
  }

  lemma SpliceCount(p: seq<Handler>, o: nat)
    requires o < |p|
    ensures Delegated(p[..o] + p[o + 1..]) == Delegated(p) - if p[o].selector != [] then 1 else 0
  {
    assert p == p[..o] + ([p[o]] + p[o + 1..]);
    DelegatedSum(p[..o], [p[o]] + p[o + 1..]);
    DelegatedSum(p[..o], p[o + 1..]);
    assert ([p[o]] + p[o + 1..])[1..] == p[o + 1..];
  }
}
