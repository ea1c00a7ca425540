/** Sizzle's `CHILD` filter: the position of an element among its siblings, found with the help of
    two different caches, and the An+B test on that position (section 6.6.5.2 of Selectors Level 3).

    The siblings are given in walking order: from the first child for `:nth-child`, from the last
    child for `:nth-last-child`; each is flagged as counted (an element, or one of the right type)
    or not. */
module ChildFilter {
  import opened Options

  function Counted(siblings: seq<bool>): nat {
    if siblings == [] then 0
    else Counted(siblings[..|siblings| - 1]) + if siblings[|siblings| - 1] then 1 else 0
  }

  /** The one-based position of sibling `i` in walking order. */
  function PositionOf(siblings: seq<bool>, i: nat): nat
    requires i < |siblings|
  {
    Counted(siblings[..i + 1])
  }

  lemma PositionStep(siblings: seq<bool>, i: nat)
    requires i < |siblings|
    ensures PositionOf(siblings, i) == Counted(siblings[..i]) + if siblings[i] then 1 else 0
  {
    assert siblings[..i + 1][..i] == siblings[..i];
  }

  // ------------------------------------------------------------------ the An+B test

  /** The test as the source computes it: division by zero never satisfies it, and the quotient of
      the sign test is a real number. */
  predicate PassesTest(position: int, a: int, b: int) {
    var d := position - b;
    d == a || (a != 0 && d % a == 0 && 0.0 <= d as real / a as real)
  }

  lemma {:induction false} TestMeansAnB(position: int, a: int, b: int)
    ensures PassesTest(position, a, b) <==> exists n: nat :: position == a * n + b
  {
    var d := position - b;
    if d == a {
      assert position == a * 1 + b;
    } else if a != 0 {
      var q := d / a;
      if d % a == 0 {
        assert d == a * q;
        QuotientSign(d, a, q);
        if q >= 0 { assert position == a * q + b; }
      }
      forall n: nat | position == a * n + b
        ensures d % a == 0 && q == n
      {
        MultipleOf(d, a, n);
      }
    } else {
      forall n: nat
        ensures a * n == 0
      {
      }
    }
  }

  lemma QuotientSign(d: int, a: int, q: int)
    requires a != 0 && d == a * q
    ensures 0.0 <= d as real / a as real <==> 0 <= q
  {
    var r := q as real;
    assert d as real == a as real * r;
    assert d as real / a as real == r;
  }

  lemma {:induction false} ProductAtLeast(x: nat, k: nat)
    requires k >= 1
    ensures x * k >= x
  {
    if k > 1 { ProductAtLeast(x, k - 1); }
  }

  lemma {:induction false} MultipleOf(d: int, a: int, n: int)
    requires a != 0 && d == a * n
    ensures d % a == 0 && d / a == n
  {
    var m := n - d / a;
    assert a * m == d % a;
    if m != 0 {
      var x, k := if a > 0 then a else -a, if m > 0 then m else -m;
      ProductAtLeast(x, k);
    }
  }

  // ------------------------------------------------------------------ :nth-child

  /** The cache on the parent: the run, the index of the element found last, and its position. */
  datatype Entry = Entry(run: nat, index: nat, position: nat)

  class ForwardCache {
    const kids: seq<bool>
    var run: nat
    var entry: Option<Entry>

    ghost predicate Valid()
      reads this
    {
      entry.Some? && entry.value.run == run ==>
        entry.value.index < |kids| && kids[entry.value.index] &&
        entry.value.position == PositionOf(kids, entry.value.index)
    }

    /** Position of the target, walking on from the cached element and, when that walk ends without
        the target, once more from the first child. */
    method Position(target: nat) returns (d: nat)
      requires Valid() && target < |kids| && kids[target]
      modifies this`entry
      ensures Valid() && d == PositionOf(kids, target)
      ensures entry == Some(Entry(run, target, d))
    {
      var s := 0;
      d := 0;
      var node: Option<nat> := None;
      if entry.Some? && entry.value.run == run && entry.value.index != 0 {
        s, d := entry.value.index, entry.value.position;
        node := Some(s);
      }
      var start := [0];
      while true
        invariant node.Some? ==> s == node.value < |kids| && d == Counted(kids[..s + 1])
        invariant |start| <= 1 && (start != [] ==> start == [0])
        invariant start == [] ==> node.Some? && node.value < target
        decreases |start|, |kids| - if node.Some? then node.value else -1
      {
        s := s + 1;
        if node.Some? && node.value + 1 < |kids| {
          node := Some(node.value + 1);
        } else {
          d, s := 0, 0;
          node := Some(start[|start| - 1]);
          start := start[..|start| - 1];
        }
        PositionStep(kids, node.value);
        if kids[node.value] {
          d := d + 1;
          if node.value == target {
            entry := Some(Entry(run, s, d));
            return;
          }
        }
      }
    }

    /** `:nth-child(an+b)`. */
    method NthChild(target: nat, a: int, b: int) returns (matches: bool)
      requires Valid() && target < |kids| && kids[target]
      modifies this`entry
      ensures Valid()
      ensures matches <==> exists n: nat :: PositionOf(kids, target) == a * n + b
    {
      TestMeansAnB(PositionOf(kids, target), a, b);
      if a == 1 && b == 0 {
        assert PositionOf(kids, target) == a * PositionOf(kids, target) + b;
        return true;
      }
      var d := Position(target);
      matches := PassesTest(d, a, b);
    }
  }

  // ------------------------------------------------------------------ :nth-last-child, -of-type

  /** The caches on the elements: for each the run and the count stored there. */
  type Counts = map<nat, (nat, nat)>

  predicate Cached(counts: Counts, run: nat, i: nat) {
    i in counts && counts[i].0 == run
  }

  /** What one query answers: the stored count if there is one, else the true position. */
  function Answer(siblings: seq<bool>, counts: Counts, run: nat, target: nat): nat
    requires target < |siblings|
  {
    if Cached(counts, run, target) then counts[target].1 else PositionOf(siblings, target)
  }

  function StoredFor(siblings: seq<bool>, target: nat, i: nat): nat
    requires target < |siblings| && i < |siblings|
  {
    if i <= target then PositionOf(siblings, i) else Counted(siblings[target + 1..i + 1])
  }

  /** What one query leaves in the caches: counted siblings up to the target hold their position,
      but those beyond it hold their distance from the target. */
  function CountsAfter(siblings: seq<bool>, counts: Counts, run: nat, target: nat): Counts
    requires target < |siblings|
  {
    if Cached(counts, run, target) then counts
    else counts + (map i: nat | i < |siblings| && siblings[i] :: (run, StoredFor(siblings, target, i)))
  }

  /** Has sibling `i` been counted when the walk stands on `node`, in its first or second leg? */
  predicate Seen(siblings: seq<bool>, i: nat, target: nat, node: nat, second: bool) {
    i < |siblings| && siblings[i] && if second then i <= node || target < i else target < i <= node
  }

  /** The caches as they were, except that the siblings counted so far hold their counts. */
  ghost predicate Overlaid(siblings: seq<bool>, before: Counts, after: Counts, run: nat, target: nat, node: nat,
                           second: bool)
    requires target < |siblings|
  {
    forall i: nat ::
      if Seen(siblings, i, target, node, second) then
        i in after && after[i] == (run, StoredFor(siblings, target, i))
      else (i in after <==> i in before) && (i in after ==> after[i] == before[i])
  }

  /** One step of the walk: to the next sibling, or from the last one to the first. */
  lemma OverlaidStep(siblings: seq<bool>, before: Counts, after: Counts, run: nat, target: nat, node: nat, second: bool,
                     node': nat, second': bool)
    requires target < |siblings| && node < |siblings| && node' < |siblings| && (second || target <= node)
    requires if second' == second then node' == node + 1 else !second && node' == 0 && node == |siblings| - 1
    requires Overlaid(siblings, before, after, run, target, node, second)
    ensures var stored := if siblings[node'] then after[node' := (run, StoredFor(siblings, target, node'))] else after;
            Overlaid(siblings, before, stored, run, target, node', second')
  {
    var stored := if siblings[node'] then after[node' := (run, StoredFor(siblings, target, node'))] else after;
    forall i: nat
      ensures if Seen(siblings, i, target, node', second') then
                i in stored && stored[i] == (run, StoredFor(siblings, target, i))
              else (i in stored <==> i in before) && (i in stored ==> stored[i] == before[i])
    {
      assert Seen(siblings, i, target, node, second) ==> Seen(siblings, i, target, node', second');
    }
  }

  lemma OverlaidAll(siblings: seq<bool>, before: Counts, after: Counts, run: nat, target: nat)
    requires target < |siblings| && !Cached(before, run, target)
    requires Overlaid(siblings, before, after, run, target, target, true)
    ensures after == CountsAfter(siblings, before, run, target)
  {
    var all := CountsAfter(siblings, before, run, target);
    forall i: nat
      ensures i in after <==> i in all
      ensures i in after ==> after[i] == all[i]
    {
      assert Seen(siblings, i, target, target, true) <==> i < |siblings| && siblings[i];
    }
  }

  class BackwardCache {
    const siblings: seq<bool>
    var run: nat
    var counts: Counts

    /** Position of the target.  With `useCache` the first walk starts at the target itself, so the
        siblings beyond it are counted first, from one; without it nothing is read or stored. */
    method Position(target: nat, useCache: bool) returns (d: nat)
      requires target < |siblings| && siblings[target]
      modifies this`counts
      ensures !useCache ==> d == PositionOf(siblings, target) && counts == old(counts)
      ensures useCache ==> d == Answer(siblings, old(counts), run, target)
      ensures useCache ==> counts == CountsAfter(siblings, old(counts), run, target)
    {
      var node: Option<nat> := None;
      if useCache {
        node := Some(target);
        if Cached(counts, run, target) { return counts[target].1; }
      }
      d := 0;
      var start := [0];
      while true
        invariant |start| <= 1 && (start != [] ==> start == [0])
        invariant node.Some? ==> node.value < |siblings|
        invariant start == [] ==> node.Some? && node.value < target && d == PositionOf(siblings, node.value)
        invariant start != [] && useCache ==> node.Some? && node.value >= target &&
                                              d == Counted(siblings[target + 1..node.value + 1])
        invariant start != [] && !useCache ==> node.None?
        invariant !useCache ==> counts == old(counts)
        invariant useCache ==> Overlaid(siblings, old(counts), counts, run, target, node.value, start == [])
        decreases |start|, |siblings| - if node.Some? then node.value else -1
      {
        ghost var from, second := node, start == [];
        if node.Some? && node.value + 1 < |siblings| {
          node := Some(node.value + 1);
          if start != [] {
            assert siblings[target + 1..node.value + 1][..node.value - target - 1] == siblings[target + 1..node.value];
          }
        } else {
          d := 0;
          node := Some(start[|start| - 1]);
          start := start[..|start| - 1];
        }
        PositionStep(siblings, node.value);
        if useCache {
          OverlaidStep(siblings, old(counts), counts, run, target, from.value, second, node.value, start == []);
        }
        if siblings[node.value] {
          d := d + 1;
          if useCache {
            counts := counts[node.value := (run, d)];
          }
          if node.value == target {
            if useCache { OverlaidAll(siblings, old(counts), counts, run, target); }
            return;
          }
        }
      }
    }
  }

  predicate AreCounted(siblings: seq<bool>, targets: seq<nat>) {
    forall i | 0 <= i < |targets| :: targets[i] < |siblings| && siblings[targets[i]]
  }

  /** The answers to a sequence of cached queries about siblings of one parent. */
  function Answers(siblings: seq<bool>, counts: Counts, run: nat, targets: seq<nat>): (answers: seq<nat>)
    requires AreCounted(siblings, targets)
    ensures |answers| == |targets|
    decreases |targets|
  {
    if targets == [] then []
    else
      [Answer(siblings, counts, run, targets[0])] +
      Answers(siblings, CountsAfter(siblings, counts, run, targets[0]), run, targets[1..])
  }

  ghost predicate AllRight(siblings: seq<bool>, targets: seq<nat>, answers: seq<nat>)
    requires |answers| == |targets| && AreCounted(siblings, targets)
  {
    forall i | 0 <= i < |targets| :: answers[i] == PositionOf(siblings, targets[i])
  }

  /** Once every counted sibling has a stored count, the answers are those counts. */
  lemma {:induction false} CachedAnswers(siblings: seq<bool>, counts: Counts, run: nat, targets: seq<nat>)
    requires AreCounted(siblings, targets) && forall i | 0 <= i < |targets| :: Cached(counts, run, targets[i])
    ensures forall i | 0 <= i < |targets| ::
      targets[i] in counts && Answers(siblings, counts, run, targets)[i] == counts[targets[i]].1
  {
    if targets != [] {
      CachedAnswers(siblings, counts, run, targets[1..]);
    }
  }

  lemma {:induction false} CountedSplits(s: seq<bool>, k: nat)
    requires k <= |s|
    ensures Counted(s) == Counted(s[..k]) + Counted(s[k..])
  {
    if k < |s| {
      CountedSplits(s[..|s| - 1], k);
      assert s[..|s| - 1][..k] == s[..k] && s[..|s| - 1][k..] == s[k..][..|s| - 1 - k];
    } else {
      assert s[..k] == s;
    }
  }

  /** The count stored for a sibling beyond the target is wrong, the others are right. */
  lemma StoredRight(siblings: seq<bool>, target: nat, i: nat)
    requires target < |siblings| && siblings[target] && i < |siblings|
    ensures StoredFor(siblings, target, i) == PositionOf(siblings, i) <==> i <= target
  {
    if i > target {
      CountedSplits(siblings[..i + 1], target + 1);
      assert siblings[..i + 1][..target + 1] == siblings[..target + 1];
      assert siblings[..i + 1][target + 1..] == siblings[target + 1..i + 1];
      PositionStep(siblings, target);
    }
  }

  /** Starting without cached counts, the backward cache answers a sequence of queries correctly
      exactly when no query is about a sibling further along the walk than the first query's. */
  lemma {:induction false} BackwardCacheRight(siblings: seq<bool>, counts: Counts, run: nat, targets: seq<nat>)
    requires AreCounted(siblings, targets)
    requires forall i <- counts :: counts[i].0 != run
    ensures AllRight(siblings, targets, Answers(siblings, counts, run, targets)) <==>
      forall i | 0 <= i < |targets| :: targets[i] <= targets[0]
  {
    if targets != [] {
      var after := CountsAfter(siblings, counts, run, targets[0]);
      CachedAnswers(siblings, after, run, targets[1..]);
      forall i | 0 <= i < |targets|
        ensures Answers(siblings, counts, run, targets)[i] == PositionOf(siblings, targets[i]) <==>
          targets[i] <= targets[0]
      {
        StoredRight(siblings, targets[0], targets[i]);
        if i > 0 { assert targets[i] == targets[1..][i - 1]; }
      }
    }
  }

  /** Two element children, the last one queried first: the first child is then also taken for the
      last one. */
  lemma BackwardCacheWrong(run: nat)
    ensures Answers([true, true], map[], run, [0, 1]) == [1, 1]
    ensures PositionOf([true, true], 1) == 2
    ensures PassesTest(1, 0, 1) && !PassesTest(2, 0, 1)
  {
    BackwardCacheRight([true, true], map[], run, [0, 1]);
    PositionStep([true, true], 1);
    var after := CountsAfter([true, true], map[], run, 0);
    assert [0, 1][1..] == [1] && [true, true][1..2] == [true];
    assert Answer([true, true], map[], run, 0) == 1;
    assert Answer([true, true], after, run, 1) == StoredFor([true, true], 0, 1) == Counted([true]) == 1;
    assert Answers([true, true], after, run, [1]) == [1] + Answers([true, true], after, run, []);
  }
}
