/** The cached evaluation of compiled closures.  A walk of `be` stores one shared mutable cell on
    every node it visits; a later walk that meets a cell of the same run and the same closure stops
    there.  Cells of enclosing, still unfinished walks may be seen (and overwritten) meanwhile. */
module MatchCache {
  import opened Dom
  import opened Selector

  /** The array `a = [S, p, result]`. */
  class Cell {
    const run: nat
    const id: nat
    var result: bool

    constructor (run: nat, id: nat)
      ensures this.run == run && this.id == id
    {
      this.run, this.id := run, id;
      result := false;
    }
  }

  /** What a finished cell on `p` has to say: some node from `p` on along the walk satisfies the
      inner closure. */
  ghost predicate FromHere(page: Page, run: Run, w: Matcher, p: Node)
    requires w.Walk?
  {
    (Visits(page, w, p) && Accepts(page, run, w.inner, p)) || AnyAlong(page, run, w, p)
  }

  ghost function Ids(m: Matcher): set<nat> {
    set w | w in Walks(m) && w.Walk? :: w.id
  }

  lemma {:induction false} PartWalks(parts: seq<Matcher>, i: nat)
    requires i < |parts|
    ensures Walks(parts[i]) <= WalksOf(parts)
  {
    var k := |parts| - 1;
    if i < k {
      PartWalks(parts[..k], i);
    }
  }

  ghost function Size(m: Matcher): nat {
    match m
    case Leading(_, single, many) => 1 + Size(single) + Size(many)
    case All(parts) => 1 + SizeOf(parts)
    case Walk(_, inner, _, _) => 1 + Size(inner)
    case _ => 1
  }

  ghost function SizeOf(parts: seq<Matcher>): nat {
    if parts == [] then 0 else SizeOf(parts[..|parts| - 1]) + Size(parts[|parts| - 1])
  }

  lemma {:induction false} WalksAreParts(m: Matcher, w: Matcher)
    requires w in Walks(m)
    ensures w.Walk? && Size(w) <= Size(m)
    decreases m, 1
  {
    match m
    case Leading(_, single, many) =>
      if w in Walks(single) { WalksAreParts(single, w); } else { WalksAreParts(many, w); }
    case All(parts) =>
      assert parts[..|parts|] == parts;
      WalksOfAreParts(m, |parts|, w);
    case Walk(_, inner, _, _) => if w != m { WalksAreParts(inner, w); }
  }

  lemma {:induction false} WalksOfAreParts(m: Matcher, n: nat, w: Matcher)
    requires m.All? && n <= |m.parts| && w in WalksOf(m.parts[..n])
    ensures w.Walk? && Size(w) <= SizeOf(m.parts[..n]) <= SizeOf(m.parts)
    decreases m, 0, n
  {
    var ps := m.parts[..n];
    assert ps[..n - 1] == m.parts[..n - 1];
    PrefixSize(m.parts, n);
    if w in WalksOf(ps[..n - 1]) { WalksOfAreParts(m, n - 1, w); } else { WalksAreParts(m.parts[n - 1], w); }
  }

  lemma {:induction false} PrefixSize(parts: seq<Matcher>, n: nat)
    requires n <= |parts|
    ensures SizeOf(parts[..n]) <= SizeOf(parts)
    decreases |parts|
  {
    if n < |parts| {
      assert parts[..|parts| - 1][..n] == parts[..n];
      PrefixSize(parts[..|parts| - 1], n);
    } else {
      assert parts[..n] == parts;
    }
  }

  /** A walk does not occur inside its own inner closure, so its number is not used there. */
  lemma InnerIdsDiffer(w: Matcher, known: set<Matcher>, limit: nat)
    requires w.Walk? && Walks(w) <= known && NumberedWithin(known, 0, limit)
    ensures w.id !in Ids(w.inner)
  {
    if w.id in Ids(w.inner) {
      var v :| v in Walks(w.inner) && v.Walk? && v.id == w.id;
      WalksAreParts(w.inner, v);
    }
  }

  class MatchCache {
    /** The page, `S` in the source, and what the run is called with. */
    var page: Page
    var tag: nat
    var run: Run
    /** The per-node caches; a walk uses its direction as key. */
    var cells: map<(Node, Direction), Cell>
    /** The walking closures that have been compiled. */
    ghost var known: set<Matcher>
    ghost var limit: nat

    /** Every cell of this run that no unfinished walk owns holds the truth about its node. */
    ghost predicate Valid(unfinished: set<nat>)
      reads this, cells.Values
    {
      && NumberedWithin(known, 0, limit)
      && (forall k <- cells :: cells[k].run <= tag && cells[k].id < limit)
      && (forall k <- cells, w <- known ::
           cells[k].run == tag && cells[k].id == w.id && w.id !in unfinished && Dir(w.comb) == k.1 ==>
             (cells[k].result <==> FromHere(page, run, w, k.0)))
    }

    constructor (page: Page)
      ensures Valid({}) && known == {} && limit == 0
    {
      this.page := page;
      tag, run, cells, known, limit := 0, Run(Many([]), false, false), map[], {}, 0;
    }

    /** Newly compiled closures have numbers that no cell carries. */
    ghost method Learn(walks: set<Matcher>, from: nat, to: nat)
      requires Valid({}) && NumberedWithin(walks, from, to)
      requires limit <= from <= to
      modifies this`known, this`limit
      ensures Valid({}) && known == old(known) + walks && limit == to
    {
      known, limit := known + walks, to;
    }

    /** A new run of a compiled selector: all older cells become stale at once. */
    method Begin(p: Page, r: Run)
      requires Valid({})
      modifies this`page, this`tag, this`run
      ensures Valid({}) && page == p && run == r && tag == old(tag) + 1
    {
      page, tag, run := p, tag + 1, r;
    }

    /** Cells change only where inner walks put cells of their own. */
    twostate predicate OnlyAdds(ids: set<nat>)
      reads this
    {
      && old(cells.Keys) <= cells.Keys
      && forall k <- cells :: (k in old(cells) && cells[k] == old(cells[k])) ||
                              (fresh(cells[k]) && cells[k].id in ids)
    }

    /** The node carries the walk's cell, or that of a walk inside it that has come by since. */
    ghost predicate Carries(m: Matcher, a: Cell, e: Node)
      requires m.Walk?
      reads this, cells.Values
    {
      var k := (e, Dir(m.comb));
      k in cells && (cells[k] == a || cells[k].id in Ids(m.inner))
    }

    /** Call a compiled closure on a node.  The answer is that of the uncached closure, whatever
        earlier calls of the same run left in the cache. */
    method Call(m: Matcher, p: Node, ghost unfinished: set<nat>) returns (r: bool)
      requires Valid(unfinished) && Walks(m) <= known && unfinished !! Ids(m)
      modifies this`cells
      ensures r <==> Accepts(page, run, m, p)
      ensures Valid(unfinished) && OnlyAdds(Ids(m))
      decreases m, 1, 0
    {
      match m
      case Filter(f) => r := page.accepts(f, p);
      case IsContext => r := run.scope.One? && p == run.scope.node;
      case IsInContext => r := run.scope.Many? && p in run.scope.nodes;
      case Leading(relative, single, many) =>
        if !relative && (run.xml || !run.outermost) {
          r := true;
        } else if run.scope.One? {
          r := Call(single, p, unfinished);
        } else {
          r := Call(many, p, unfinished);
        }
      case All(parts) => r := CallAll(m, p, unfinished);
      case Walk(comb, _, _, _) =>
        if FirstOnly(comb) { r := CallFirst(m, p, unfinished); }
        else if run.xml { r := CallUncached(m, p, unfinished); }
        else { r := CallCached(m, p, unfinished); }
    }

    /** `we`: from the last closure to the first, until one of them refuses. */
    method CallAll(m: Matcher, p: Node, ghost unfinished: set<nat>) returns (r: bool)
      requires m.All? && Valid(unfinished) && Walks(m) <= known && unfinished !! Ids(m)
      modifies this`cells
      ensures r <==> Accepts(page, run, m, p)
      ensures Valid(unfinished) && OnlyAdds(Ids(m))
      decreases m, 0, 0
    {
      var i := |m.parts|;
      while i > 0
        invariant 0 <= i <= |m.parts|
        invariant forall j | i <= j < |m.parts| :: Accepts(page, run, m.parts[j], p)
        invariant Valid(unfinished) && OnlyAdds(Ids(m))
      {
        i := i - 1;
        PartWalks(m.parts, i);
        var ok := Call(m.parts[i], p, unfinished);
        if !ok { return false; }
      }
      return true;
    }

    method CallFirst(m: Matcher, p: Node, ghost unfinished: set<nat>) returns (r: bool)
      requires m.Walk? && FirstOnly(m.comb) && Valid(unfinished) && Walks(m) <= known && unfinished !! Ids(m)
      modifies this`cells
      ensures r <==> Accepts(page, run, m, p)
      ensures Valid(unfinished) && OnlyAdds(Ids(m))
      decreases m, 0, 0
    {
      var e := p;
      while true
        invariant FirstAlong(page, run, m, e) == FirstAlong(page, run, m, p)
        invariant Valid(unfinished) && OnlyAdds(Ids(m))
        decreases Rank(Dir(m.comb), e)
      {
        var next := Follow(Dir(m.comb), e);
        if next.None? { return false; }
        FollowDescends(Dir(m.comb), e);
        e := next.value;
        if Visits(page, m, e) {
          r := Call(m.inner, e, unfinished);
          return;
        }
      }
    }

    method CallUncached(m: Matcher, p: Node, ghost unfinished: set<nat>) returns (r: bool)
      requires m.Walk? && !FirstOnly(m.comb) && Valid(unfinished) && Walks(m) <= known && unfinished !! Ids(m)
      modifies this`cells
      ensures r <==> Accepts(page, run, m, p)
      ensures Valid(unfinished) && OnlyAdds(Ids(m))
      decreases m, 0, 0
    {
      var e := p;
      while true
        invariant AnyAlong(page, run, m, e) == AnyAlong(page, run, m, p)
        invariant Valid(unfinished) && OnlyAdds(Ids(m))
        decreases Rank(Dir(m.comb), e)
      {
        var next := Follow(Dir(m.comb), e);
        if next.None? { return false; }
        FollowDescends(Dir(m.comb), e);
        e := next.value;
        if Visits(page, m, e) {
          var ok := Call(m.inner, e, unfinished);
          if ok { return true; }
        }
      }
    }

    method CallCached(m: Matcher, p: Node, ghost unfinished: set<nat>) returns (r: bool)
      requires m.Walk? && !FirstOnly(m.comb) && Valid(unfinished) && Walks(m) <= known && unfinished !! Ids(m)
      modifies this`cells
      ensures r <==> Accepts(page, run, m, p)
      ensures Valid(unfinished) && OnlyAdds(Ids(m))
      decreases m, 0, 2
    {
      assert m.id in Ids(m);
      var a := new Cell(tag, m.id);
      ghost var visited;
      r, visited := CachedWalk(m, p, a, unfinished);
    }

    /** The cached loop of `be`; every visited node ends up sharing the cell with the answer. */
    method CachedWalk(m: Matcher, p: Node, a: Cell, ghost unfinished: set<nat>)
      returns (r: bool, ghost visited: set<Node>)
      requires m.Walk? && !FirstOnly(m.comb) && Walks(m) <= known && unfinished !! Ids(m)
      requires Valid(unfinished + {m.id}) && OthersTruthful(m, a, {}) && a.run == tag && a.id == m.id
      modifies this`cells, a
      ensures r <==> AnyAlong(page, run, m, p)
      ensures Valid(unfinished + {m.id}) && OthersTruthful(m, a, visited)
      ensures visited != {} ==> a.result == r
      ensures forall v <- visited :: Carries(m, a, v) && (FromHere(page, run, m, v) <==> r)
      ensures old(cells.Keys) <= cells.Keys
      ensures forall k <- cells :: (k in old(cells) && cells[k] == old(cells[k])) || cells[k] == a ||
                                   (fresh(cells[k]) && cells[k].id in Ids(m))
      decreases m, 0, 1
    {
      var dir := Dir(m.comb);
      visited := {};
      var e := p;
      while true
        invariant AnyAlong(page, run, m, e) == AnyAlong(page, run, m, p)
        invariant Valid(unfinished + {m.id}) && OthersTruthful(m, a, visited)
        invariant forall v <- visited :: Carries(m, a, v) && FromHere(page, run, m, v) == AnyAlong(page, run, m, p)
        invariant old(cells.Keys) <= cells.Keys
        invariant forall v <- visited :: Rank(dir, v) >= Rank(dir, e)
        invariant visited != {} ==> !a.result
        invariant forall k <- cells :: (k in old(cells) && cells[k] == old(cells[k])) || cells[k] == a ||
                                       (fresh(cells[k]) && cells[k].id in Ids(m))
        decreases Rank(dir, e)
      {
        var next := Follow(dir, e);
        if next.None? { return false, visited; }
        FollowDescends(dir, e);
        e := next.value;
        if Visits(page, m, e) {
          if (e, dir) in cells && cells[(e, dir)].run == tag && cells[(e, dir)].id == m.id {
            a.result := cells[(e, dir)].result;
            return a.result, visited;
          }
          r := Try(m, e, a, visited, unfinished);
          visited := visited + {e};
          if r { return; }
        }
      }
    }

    /** The cells of `m` in this run: those of the walk at hand lie on the nodes it has visited, all
        others are truthful. */
    ghost predicate OthersTruthful(m: Matcher, a: Cell, visited: set<Node>)
      requires m.Walk?
      reads this, cells.Values
    {
      forall k <- cells :: cells[k].run == tag && cells[k].id == m.id && k.1 == Dir(m.comb) ==>
        if cells[k] == a then k.0 in visited else cells[k].result <==> FromHere(page, run, m, k.0)
    }

    /** Put the walk's cell on `e` and ask the inner closure. */
    method Try(m: Matcher, e: Node, a: Cell, ghost visited: set<Node>, ghost unfinished: set<nat>) returns (ok: bool)
      requires m.Walk? && Walks(m) <= known && unfinished !! Ids(m)
      requires Valid(unfinished + {m.id}) && OthersTruthful(m, a, visited)
      requires a.run == tag && a.id == m.id && forall v <- visited :: Carries(m, a, v)
      modifies this`cells, a
      ensures ok <==> Accepts(page, run, m.inner, e)
      ensures a.result == ok && old(cells.Keys) <= cells.Keys
      ensures forall v <- visited + {e} :: Carries(m, a, v)
      ensures Valid(unfinished + {m.id}) && OthersTruthful(m, a, visited + {e})
      ensures forall k <- cells :: (k in old(cells) && cells[k] == old(cells[k])) || cells[k] == a ||
                                   (fresh(cells[k]) && cells[k].id in Ids(m))
      decreases m, 0, 0
    {
      InnerIdsDiffer(m, known, limit);
      cells := cells[(e, Dir(m.comb)) := a];
      ok := Call(m.inner, e, unfinished + {m.id});
      a.result := ok;
    }
  }
}
