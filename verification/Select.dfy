/** The entry of Sizzle: compile every comma-separated group of a selector, then run the compiled
    matchers over the seed elements, with one match cache for all of it. */
module Select {
  import opened Options
  import opened Dom
  import opened Selector
  import opened MatchCache

  function LeadOf(group: seq<Token>): Option<Combinator> {
    if group != [] && group[0].Relative? then Some(group[0].comb) else None
  }

  function BodyOf(group: seq<Token>): seq<Token> {
    if group != [] && group[0].Relative? then group[1..] else group
  }

  /** Some group of the selector selects `p`. */
  ghost predicate Chosen(page: Page, run: Run, groups: seq<seq<Token>>, p: Node) {
    exists g <- groups :: Matches(page, run, LeadOf(g), BodyOf(g), p)
  }

  /** `found` has the seeds at the indices `at`, in order. */
  ghost predicate Picked(seeds: seq<Node>, at: seq<nat>, found: seq<Node>) {
    && (forall i, j | 0 <= i < j < |at| :: at[i] < at[j])
    && |found| == |at| && forall i | 0 <= i < |at| :: at[i] < |seeds| && found[i] == seeds[at[i]]
  }

  lemma PickOne(seeds: seq<Node>, at: seq<nat>, found: seq<Node>, l: nat)
    requires Picked(seeds, at, found) && l < |seeds| && forall j <- at :: j < l
    ensures Picked(seeds, at + [l], found + [seeds[l]])
  {
    assert forall i | 0 <= i < |at| :: at[i] in at;
  }

  /** The matcher accepts what the group selects, on any page. */
  ghost predicate Compiled(m: Matcher, group: seq<Token>) {
    Denotes([m], LeadOf(group), BodyOf(group))
  }

  class Sizzle {
    const compiler: Compiler
    const cache: MatchCache

    ghost predicate Valid()
      reads this, compiler, cache, cache.cells.Values
    {
      cache.Valid({}) && cache.limit <= compiler.done
    }

    constructor (page: Page)
      ensures Valid() && fresh(compiler) && fresh(cache)
    {
      compiler := new Compiler();
      cache := new MatchCache(page);
    }

    /** The element matchers of a selector, its last group first. */
    method Compile(groups: seq<seq<Token>>) returns (ms: seq<Matcher>)
      requires Valid() && forall g <- groups :: g != []
      modifies compiler, cache`known, cache`limit
      ensures Valid() && old(cache.known) <= cache.known
      ensures |ms| == |groups|
      ensures forall i | 0 <= i < |ms| :: Compiled(ms[i], groups[|ms| - 1 - i]) && Walks(ms[i]) <= cache.known
    {
      ms := [];
      var n := |groups|;
      while n > 0
        invariant 0 <= n <= |groups| && |ms| == |groups| - n
        invariant Valid() && old(cache.known) <= cache.known
        invariant forall i | 0 <= i < |ms| ::
          Compiled(ms[i], groups[|groups| - 1 - i]) && Walks(ms[i]) <= cache.known
      {
        n := n - 1;
        assert groups[n] in groups;
        ghost var from := compiler.done;
        var m := compiler.MatcherFromTokens(groups[n]);
        cache.Learn(Walks(m), from, compiler.done);
        ms := ms + [m];
      }
    }

    /** Try the element matchers in turn until one accepts. */
    method Matched(ms: seq<Matcher>, ghost groups: seq<seq<Token>>, p: Node) returns (matched: bool)
      requires Valid() && DomShaped(cache.page.tree) && IsNode(cache.page.tree, p)
      requires |ms| == |groups|
      requires forall i | 0 <= i < |ms| :: Compiled(ms[i], groups[|ms| - 1 - i]) && Walks(ms[i]) <= cache.known
      modifies cache`cells
      ensures Valid()
      ensures matched <==> Chosen(cache.page, cache.run, groups, p)
    {
      ghost var page, run := cache.page, cache.run;
      matched := false;
      var a := 0;
      while a < |ms| && !matched
        invariant 0 <= a <= |ms| && Valid()
        invariant matched ==> Chosen(page, run, groups, p)
        invariant !matched ==> forall j | |ms| - a <= j < |ms| ::
          !Matches(page, run, LeadOf(groups[j]), BodyOf(groups[j]), p)
      {
        matched := cache.Call(ms[a], p, {});
        CompiledAccepts(ms[a], groups[|ms| - 1 - a], page, run, p);
        a := a + 1;
      }
    }

    /** One run: the seeds that some group selects, in the order of the seeds and as often as they are
        there; `at` says where.  The cells that the matchers of this and of earlier runs left behind
        make no difference. */
    method Run(ms: seq<Matcher>, ghost groups: seq<seq<Token>>, page: Page, run: Selector.Run, seeds: seq<Node>)
      returns (found: seq<Node>, ghost at: seq<nat>)
      requires Valid() && DomShaped(page.tree) && forall p <- seeds :: IsNode(page.tree, p)
      requires |ms| == |groups|
      requires forall i | 0 <= i < |ms| :: Compiled(ms[i], groups[|ms| - 1 - i]) && Walks(ms[i]) <= cache.known
      modifies cache
      ensures Valid() && cache.known == old(cache.known)
      ensures Picked(seeds, at, found)
      ensures forall j: nat | j < |seeds| :: j in at <==> Chosen(page, run, groups, seeds[j])
    {
      cache.Begin(page, run);
      found, at := [], [];
      for l := 0 to |seeds|
        invariant Valid() && cache.known == old(cache.known) && cache.page == page && cache.run == run
        invariant Picked(seeds, at, found) && forall j <- at :: j < l
        invariant forall j: nat | j < l :: j in at <==> Chosen(page, run, groups, seeds[j])
      {
        var matched := Matched(ms, groups, seeds[l]);
        if matched {
          PickOne(seeds, at, found, l);
          found, at := found + [seeds[l]], at + [l];
        }
      }
    }
  }

  lemma CompiledAccepts(m: Matcher, group: seq<Token>, page: Page, run: Selector.Run, p: Node)
    requires Compiled(m, group) && DomShaped(page.tree) && IsNode(page.tree, p)
    ensures Accepts(page, run, m, p) <==> Matches(page, run, LeadOf(group), BodyOf(group), p)
  {
    assert Accepts(page, run, All([m]), p) <==> Accepts(page, run, [m][0], p);
  }
}
