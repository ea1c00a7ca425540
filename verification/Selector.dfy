/** Sizzle's compiled selectors: the closures built by `be` (one combinator), `we` (a conjunction)
    and `Ee` (a whole token list), what they answer without any cache, and the declarative meaning
    of the token list that they must agree with (section 8 of Selectors Level 3). */
module Selector {
  import opened Options
  import opened Dom

  // ------------------------------------------------------------------ syntax and surroundings

  datatype Combinator = Descendant | Child | Adjacent | General

  function Dir(c: Combinator): Direction {
    if c.Descendant? || c.Child? then ParentNode else PreviousSibling
  }

  predicate FirstOnly(c: Combinator) {
    c.Child? || c.Adjacent?
  }

  /** A token of a selector group; `Simple(f)` stands for an ordinary filter (TAG, CLASS, ...). */
  datatype Token = Relative(comb: Combinator) | Simple(filter: nat)

  /** The page: its tree, and which nodes each ordinary filter accepts. */
  datatype Page = Page(tree: Tree, accepts: (nat, Node) -> bool)

  /** The context argument of a matcher: one node, or an array of nodes. */
  datatype Scope = One(node: Node) | Many(nodes: seq<Node>)

  /** What a matcher is called with besides the element.  `outermost` says whether the context is
      the one recorded as the outermost context of the run. */
  datatype Run = Run(scope: Scope, xml: bool, outermost: bool)

  predicate InScope(s: Scope, p: Node) {
    match s
    case One(node) => p == node
    case Many(nodes) => p in nodes
  }

  // ------------------------------------------------------------------ compiled closures

  datatype Matcher =
    | Filter(filter: nat)
    | IsContext
    | IsInContext
    | Leading(relative: bool, single: Matcher, many: Matcher)
    | All(parts: seq<Matcher>)
    | Walk(comb: Combinator, inner: Matcher, base: bool, id: nat)

  /** Does a walk stop at this node?  Base walks towards the parent also look at non-elements. */
  predicate Visits(page: Page, m: Matcher, p: Node)
    requires m.Walk?
  {
    IsElement(page.tree, p) || (m.base && Dir(m.comb) == ParentNode)
  }

  /** The answer of a compiled closure when nothing is cached (the XML branch of `be`). */
  predicate Accepts(page: Page, run: Run, m: Matcher, p: Node)
    decreases m, 1, 0
  {
    match m
    case Filter(f) => page.accepts(f, p)
    case IsContext => run.scope.One? && p == run.scope.node
    case IsInContext => run.scope.Many? && p in run.scope.nodes
    case Leading(relative, single, many) =>
      (!relative && (run.xml || !run.outermost)) ||
      (if run.scope.One? then Accepts(page, run, single, p) else Accepts(page, run, many, p))
    case All(parts) => forall i | 0 <= i < |parts| :: Accepts(page, run, parts[i], p)
    case Walk(comb, _, _, _) =>
      if FirstOnly(comb) then FirstAlong(page, run, m, p) else AnyAlong(page, run, m, p)
  }

  predicate FirstAlong(page: Page, run: Run, m: Matcher, p: Node)
    requires m.Walk?
    decreases m, 0, Rank(Dir(m.comb), p)
  {
    match Follow(Dir(m.comb), p)
    case None => false
    case Some(q) =>
      FollowDescends(Dir(m.comb), p);
      if Visits(page, m, q) then Accepts(page, run, m.inner, q) else FirstAlong(page, run, m, q)
  }

  predicate AnyAlong(page: Page, run: Run, m: Matcher, p: Node)
    requires m.Walk?
    decreases m, 0, Rank(Dir(m.comb), p)
  {
    match Follow(Dir(m.comb), p)
    case None => false
    case Some(q) =>
      FollowDescends(Dir(m.comb), p);
      (Visits(page, m, q) && Accepts(page, run, m.inner, q)) || AnyAlong(page, run, m, q)
  }

  // ------------------------------------------------------------------ declarative meaning

  ghost predicate Ancestor(y: Node, x: Node) {
    y < x
  }

  /** `y` stands to `x` as the combinator demands. */
  ghost predicate Related(t: Tree, c: Combinator, y: Node, x: Node) {
    match c
    case Descendant => IsElement(t, y) && Ancestor(y, x)
    case Child => IsElement(t, y) && x != [] && y == Parent(x)
    case General => IsElement(t, y) && Siblings(y, x) && Last(y) < Last(x)
    case Adjacent =>
      && IsElement(t, y) && Siblings(y, x) && Last(y) < Last(x)
      && forall i :: Last(y) < i < Last(x) ==> !IsElement(t, Parent(x) + [i])
  }

  /** The same for the context of a query, which may be a document or a fragment. */
  ghost predicate RelatedToContext(t: Tree, c: Combinator, y: Node, x: Node) {
    match c
    case Descendant => Ancestor(y, x)
    case Child => x != [] && y == Parent(x)
    case _ => Related(t, c, y, x)
  }

  /** A complex selector: compound selectors (lists of filters) joined by combinators. */
  datatype Complex = Complex(compounds: seq<seq<nat>>, combs: seq<Combinator>)

  function Parse(tokens: seq<Token>): (s: Complex)
    ensures |s.compounds| == |s.combs| + 1
  {
    if tokens == [] then Complex([[]], [])
    else
      var s := Parse(tokens[..|tokens| - 1]);
      var k := |s.combs|;
      match tokens[|tokens| - 1]
      case Simple(f) => Complex(s.compounds[k := s.compounds[k] + [f]], s.combs)
      case Relative(c) => Complex(s.compounds + [[]], s.combs + [c])
  }

  predicate Satisfies(page: Page, compound: seq<nat>, p: Node) {
    forall i | 0 <= i < |compound| :: page.accepts(compound[i], p)
  }

  /** The requirement on the node that the first compound selects. */
  ghost predicate InContext(page: Page, run: Run, lead: Option<Combinator>, p: Node) {
    || (lead.None? && (run.xml || !run.outermost))
    || exists y :: InScope(run.scope, y) &&
         RelatedToContext(page.tree, if lead.None? then Descendant else lead.value, y, p)
  }

  /** One node for every compound, each satisfying its compound and standing in the required
      relation to the next; the last one is the subject. */
  ghost predicate Selects(page: Page, run: Run, lead: Option<Combinator>, s: Complex, nodes: seq<Node>, p: Node)
    requires |s.compounds| == |s.combs| + 1
  {
    && |nodes| == |s.compounds| && nodes[|s.combs|] == p
    && InContext(page, run, lead, nodes[0])
    && (forall i | 0 <= i < |nodes| :: Satisfies(page, s.compounds[i], nodes[i]))
    && (forall i | 0 <= i < |s.combs| :: Related(page.tree, s.combs[i], nodes[i], nodes[i + 1]))
  }

  ghost predicate Matches(page: Page, run: Run, lead: Option<Combinator>, tokens: seq<Token>, p: Node) {
    exists nodes :: Selects(page, run, lead, Parse(tokens), nodes, p)
  }

  // ------------------------------------------------------------------ one combinator

  lemma {:induction false} AnyAncestor(page: Page, run: Run, m: Matcher, p: Node)
    requires m.Walk? && Dir(m.comb) == ParentNode
    ensures AnyAlong(page, run, m, p) <==>
      exists y :: Ancestor(y, p) && Visits(page, m, y) && Accepts(page, run, m.inner, y)
    decreases |p|
  {
    if p != [] {
      var q := Parent(p);
      AnyAncestor(page, run, m, q);
      assert forall y :: Ancestor(y, p) <==> Ancestor(y, q) || y == q;
    }
  }

  lemma {:induction false} AnyEarlierSibling(page: Page, run: Run, m: Matcher, p: Node)
    requires m.Walk? && Dir(m.comb) == PreviousSibling
    ensures AnyAlong(page, run, m, p) <==>
      exists y :: Siblings(y, p) && Last(y) < Last(p) && Visits(page, m, y) && Accepts(page, run, m.inner, y)
    decreases Rank(PreviousSibling, p)
  {
    if p != [] && Last(p) > 0 {
      var q := Parent(p) + [Last(p) - 1];
      assert Parent(q) == Parent(p) && Last(q) == Last(p) - 1;
      AnyEarlierSibling(page, run, m, q);
      forall y | Siblings(y, p) && Last(y) < Last(p)
        ensures y == q || (Siblings(y, q) && Last(y) < Last(q))
      {
        assert y == Parent(y) + [Last(y)];
      }
    }
  }

  lemma {:induction false} FirstSibling(page: Page, run: Run, m: Matcher, p: Node)
    requires m.Walk? && m.comb == Adjacent
    ensures FirstAlong(page, run, m, p) <==>
      exists y :: Related(page.tree, Adjacent, y, p) && Accepts(page, run, m.inner, y)
    decreases Rank(PreviousSibling, p)
  {
    if p != [] && Last(p) > 0 {
      var q := Parent(p) + [Last(p) - 1];
      assert Parent(q) == Parent(p) && Last(q) == Last(p) - 1;
      FirstSibling(page, run, m, q);
      forall y | Siblings(y, p) && Last(y) < Last(p)
        ensures if IsElement(page.tree, q) then Related(page.tree, Adjacent, y, p) <==> y == q
                else Related(page.tree, Adjacent, y, p) <==> Related(page.tree, Adjacent, y, q)
      {
        assert y == Parent(y) + [Last(y)];
      }
    }
  }

  lemma {:induction false} FirstAncestorBelowRoot(page: Page, run: Run, m: Matcher, p: Node)
    requires m.Walk? && m.comb == Child && DomShaped(page.tree) && IsNode(page.tree, p)
    ensures FirstAlong(page, run, m, p) <==>
      p != [] && Visits(page, m, Parent(p)) && Accepts(page, run, m.inner, Parent(p))
  {
    if p != [] {
      ParentIsNode(page.tree, p);
    }
  }

  lemma WalkMeans(page: Page, run: Run, m: Matcher, p: Node)
    requires m.Walk? && DomShaped(page.tree) && IsNode(page.tree, p)
    ensures Accepts(page, run, m, p) <==>
      exists y :: (if m.base then RelatedToContext(page.tree, m.comb, y, p) else Related(page.tree, m.comb, y, p))
        && Accepts(page, run, m.inner, y)
  {
    match m.comb
    case Descendant => AnyAncestor(page, run, m, p);
    case Child => FirstAncestorBelowRoot(page, run, m, p);
    case Adjacent => FirstSibling(page, run, m, p);
    case General => AnyEarlierSibling(page, run, m, p);
  }

  // ------------------------------------------------------------------ compiling a token list

  /** Every subject that the conjunction of `closures` accepts is one that the tokens select. */
  ghost predicate Denotes(closures: seq<Matcher>, lead: Option<Combinator>, tokens: seq<Token>) {
    forall page: Page, run: Run, p: Node :: DomShaped(page.tree) && IsNode(page.tree, p) ==>
      (Accepts(page, run, All(closures), p) <==> Matches(page, run, lead, tokens, p))
  }

  function We(parts: seq<Matcher>): (m: Matcher)
    requires parts != []
    ensures forall page, run, p :: Accepts(page, run, m, p) <==> Accepts(page, run, All(parts), p)
    ensures Walks(m) == WalksOf(parts)
  {
    assert |parts| == 1 ==> parts == [parts[0]];
    WalksOfOne(parts[0]);
    if |parts| > 1 then All(parts) else parts[0]
  }

  lemma WalksOfOne(m: Matcher)
    ensures WalksOf([m]) == Walks(m)
  {
    assert [m][..0] == [];
  }

  /** All walking closures inside a closure. */
  ghost function Walks(m: Matcher): set<Matcher> {
    match m
    case Leading(_, single, many) => Walks(single) + Walks(many)
    case All(parts) => WalksOf(parts)
    case Walk(_, inner, _, _) => {m} + Walks(inner)
    case _ => {}
  }

  ghost function WalksOf(parts: seq<Matcher>): set<Matcher> {
    if parts == [] then {} else WalksOf(parts[..|parts| - 1]) + Walks(parts[|parts| - 1])
  }

  /** The numbers given to walking closures tell them apart. */
  ghost predicate NumberedWithin(walks: set<Matcher>, from: nat, to: nat) {
    && (forall w <- walks :: w.Walk? && from <= w.id < to)
    && (forall v <- walks, w <- walks :: v.id == w.id ==> v == w)
  }

  ghost predicate IsLeading(m: Matcher, lead: Option<Combinator>) {
    && m.Leading? && m.relative == lead.Some?
    && m.single.Walk? && m.single.inner == IsContext && m.single.base
    && m.many.Walk? && m.many.inner == IsInContext && m.many.base
    && m.single.comb == m.many.comb == if lead.None? then Descendant else lead.value
  }

  lemma LeadingAccepts(m: Matcher, lead: Option<Combinator>, page: Page, run: Run, p: Node)
    requires IsLeading(m, lead) && DomShaped(page.tree) && IsNode(page.tree, p)
    ensures Accepts(page, run, m, p) <==> InContext(page, run, lead, p)
  {
    var comb := if lead.None? then Descendant else lead.value;
    var w := if run.scope.One? then m.single else m.many;
    WalkMeans(page, run, w, p);
    forall y
      ensures Accepts(page, run, w.inner, y) <==> InScope(run.scope, y)
    {
    }
    assert Accepts(page, run, w, p) <==>
      exists y :: InScope(run.scope, y) && RelatedToContext(page.tree, comb, y, p);
  }

  lemma {:induction false} LeadingMeans(m: Matcher, lead: Option<Combinator>)
    requires IsLeading(m, lead)
    ensures Denotes([m], lead, [])
  {
    forall page: Page, run, p | DomShaped(page.tree) && IsNode(page.tree, p)
      ensures Accepts(page, run, All([m]), p) <==> Matches(page, run, lead, [], p)
    {
      LeadingAccepts(m, lead, page, run, p);
      assert Accepts(page, run, All([m]), p) <==> Accepts(page, run, [m][0], p);
      assert Parse([]) == Complex([[]], []);
      if InContext(page, run, lead, p) {
        assert Selects(page, run, lead, Parse([]), [p], p);
      }
      if Matches(page, run, lead, [], p) {
        var nodes :| Selects(page, run, lead, Parse([]), nodes, p);
        assert nodes[0] == p;
      }
    }
  }

  lemma {:induction false} FilterMeans(closures: seq<Matcher>, f: nat, lead: Option<Combinator>, tokens: seq<Token>)
    requires Denotes(closures, lead, tokens)
    ensures Denotes(closures + [Filter(f)], lead, tokens + [Simple(f)])
  {
    var longer := tokens + [Simple(f)];
    assert longer[..|longer| - 1] == tokens;
    var s, s' := Parse(tokens), Parse(longer);
    var k := |s.combs|;
    assert s'.compounds == s.compounds[k := s.compounds[k] + [f]] && s'.combs == s.combs;
    forall page: Page, run, p | DomShaped(page.tree) && IsNode(page.tree, p)
      ensures Accepts(page, run, All(closures + [Filter(f)]), p) <==> Matches(page, run, lead, longer, p)
    {
      assert Accepts(page, run, All(closures + [Filter(f)]), p) <==>
        Accepts(page, run, All(closures), p) && page.accepts(f, p) by {
        var both := closures + [Filter(f)];
        assert both[|closures|] == Filter(f);
        assert forall i | 0 <= i < |closures| :: both[i] == closures[i];
      }
      assert Satisfies(page, s'.compounds[k], p) <==> Satisfies(page, s.compounds[k], p) && page.accepts(f, p) by {
        var c, c' := s.compounds[k], s'.compounds[k];
        assert c'[|c|] == f;
        assert forall i | 0 <= i < |c| :: c'[i] == c[i];
      }
      forall nodes
        ensures Selects(page, run, lead, s', nodes, p) <==>
          Selects(page, run, lead, s, nodes, p) && page.accepts(f, p)
      {
      }
    }
  }

  lemma {:induction false} CombinatorMeans(closures: seq<Matcher>, m: Matcher, lead: Option<Combinator>,
                                           tokens: seq<Token>)
    requires Denotes(closures, lead, tokens)
    requires m.Walk? && !m.base
    requires forall page, run, p :: Accepts(page, run, m.inner, p) <==> Accepts(page, run, All(closures), p)
    ensures Denotes([m], lead, tokens + [Relative(m.comb)])
  {
    var longer := tokens + [Relative(m.comb)];
    assert longer[..|longer| - 1] == tokens;
    var s, s' := Parse(tokens), Parse(longer);
    assert s'.compounds == s.compounds + [[]] && s'.combs == s.combs + [m.comb];
    forall page: Page, run, p | DomShaped(page.tree) && IsNode(page.tree, p)
      ensures Accepts(page, run, All([m]), p) <==> Matches(page, run, lead, longer, p)
    {
      WalkMeans(page, run, m, p);
      assert Accepts(page, run, All([m]), p) <==> Accepts(page, run, [m][0], p);
      if Accepts(page, run, m, p) {
        var y :| Related(page.tree, m.comb, y, p) && Accepts(page, run, m.inner, y);
        var nodes :| Selects(page, run, lead, s, nodes, y);
        SelectsExtended(page, run, lead, s, nodes, y, m.comb, p);
      }
      if Matches(page, run, lead, longer, p) {
        var nodes :| Selects(page, run, lead, s', nodes, p);
        SelectsShortened(page, run, lead, s, nodes, m.comb, p);
        var y := nodes[|s.combs|];
        assert Matches(page, run, lead, tokens, y);
        assert Accepts(page, run, m.inner, y);
      }
    }
  }

  lemma SelectsExtended(page: Page, run: Run, lead: Option<Combinator>, s: Complex, nodes: seq<Node>, y: Node,
                        c: Combinator, p: Node)
    requires |s.compounds| == |s.combs| + 1
    requires Selects(page, run, lead, s, nodes, y) && Related(page.tree, c, y, p)
    ensures Selects(page, run, lead, Complex(s.compounds + [[]], s.combs + [c]), nodes + [p], p)
  {
    assert (nodes + [p])[0] == nodes[0];
  }

  lemma SelectsShortened(page: Page, run: Run, lead: Option<Combinator>, s: Complex, nodes: seq<Node>,
                         c: Combinator, p: Node)
    requires |s.compounds| == |s.combs| + 1
    requires Selects(page, run, lead, Complex(s.compounds + [[]], s.combs + [c]), nodes, p)
    ensures Selects(page, run, lead, s, nodes[..|s.compounds|], nodes[|s.combs|])
    ensures Related(page.tree, c, nodes[|s.combs|], p)
  {
    var s' := Complex(s.compounds + [[]], s.combs + [c]);
    assert s'.combs[|s.combs|] == c;
    assert forall i | 0 <= i < |s.combs| :: s'.combs[i] == s.combs[i];
    assert forall i | 0 <= i < |s.compounds| :: s'.compounds[i] == s.compounds[i];
  }

  class Compiler {
    /** `r` in the source: the number of closures that `be` has built so far. */
    var done: nat

    constructor ()
      ensures done == 0
    {
      done := 0;
    }

    method Be(inner: Matcher, comb: Combinator, base: bool) returns (m: Matcher)
      modifies this
      ensures m == Walk(comb, inner, base, old(done)) && done == old(done) + 1
    {
      m := Walk(comb, inner, base, done);
      done := done + 1;
    }

    /** One token more: a combinator wraps the closures so far into a walk, a filter joins them. */
    method Extend(c: seq<Matcher>, token: Token, ghost lead: Option<Combinator>, ghost tokens: seq<Token>,
                  ghost from: nat)
      returns (c': seq<Matcher>)
      requires c != [] && Denotes(c, lead, tokens) && from <= done && NumberedWithin(WalksOf(c), from, done)
      modifies this
      ensures c' != [] && Denotes(c', lead, tokens + [token])
      ensures old(done) <= done && NumberedWithin(WalksOf(c'), from, done)
    {
      match token
      case Relative(comb) =>
        var inner := We(c);
        var w := Be(inner, comb, false);
        CombinatorMeans(c, w, lead, tokens);
        WalksOfOne(w);
        c' := [w];
      case Simple(f) =>
        FilterMeans(c, f, lead, tokens);
        assert (c + [Filter(f)])[..|c|] == c;
        c' := c + [Filter(f)];
    }

    /** `Ee`: compile one token list.  The closure accepts exactly what the tokens select, and the
        walking closures inside it get numbers not used before. */
    method MatcherFromTokens(tokens: seq<Token>) returns (m: Matcher)
      requires tokens != []
      modifies this
      ensures var lead := if tokens[0].Relative? then Some(tokens[0].comb) else None;
              Denotes([m], lead, if tokens[0].Relative? then tokens[1..] else tokens)
      ensures done >= old(done) && NumberedWithin(Walks(m), old(done), done)
    {
      var relative := tokens[0].Relative?;
      ghost var lead := if relative then Some(tokens[0].comb) else None;
      var implicit := if relative then tokens[0].comb else Descendant;
      ghost var rest := if relative then tokens[1..] else tokens;
      var single := Be(IsContext, implicit, true);
      var many := Be(IsInContext, implicit, true);
      var c := [Leading(relative, single, many)];
      LeadingMeans(c[0], lead);
      WalksOfOne(c[0]);
      assert Walks(IsContext) == Walks(IsInContext) == {};
      assert Walks(c[0]) == Walks(single) + Walks(many) == {single, many};
      var first: nat := if relative then 1 else 0;
      assert rest[..0] == [];
      for s := first to |tokens|
        invariant c != []
        invariant Denotes(c, lead, rest[..s - first])
        invariant done >= old(done) && NumberedWithin(WalksOf(c), old(done), done)
      {
        assert rest[..s + 1 - first] == rest[..s - first] + [tokens[s]];
        c := Extend(c, tokens[s], lead, rest[..s - first], old(done));
      }
      m := We(c);
      assert rest[..|rest|] == rest;
      assert Denotes([m], lead, rest) by { OneDenotes(m, c, lead, rest); }
    }
  }

  lemma OneDenotes(m: Matcher, c: seq<Matcher>, lead: Option<Combinator>, tokens: seq<Token>)
    requires Denotes(c, lead, tokens)
    requires forall page, run, p :: Accepts(page, run, m, p) <==> Accepts(page, run, All(c), p)
    ensures Denotes([m], lead, tokens)
  {
    forall page: Page, run, p
      ensures Accepts(page, run, All([m]), p) <==> Accepts(page, run, All(c), p)
    {
      assert Accepts(page, run, All([m]), p) <==> Accepts(page, run, [m][0], p);
    }
  }
}
