/** Document order: Sizzle's comparator for browsers without `compareDocumentPosition`, and
    `uniqueSort`, which sorts by it and removes duplicates. */
module DocumentOrder {
  import opened Options
  import opened Dom

  // ------------------------------------------------------------------ preorder

  /** `p` comes before `q` in a depth-first traversal that visits a node before its children. */
  predicate Precedes(p: Node, q: Node) {
    q != [] && (p == [] || p[0] < q[0] || (p[0] == q[0] && Precedes(p[1..], q[1..])))
  }

  function Under(i: nat, ps: seq<Node>): (qs: seq<Node>)
    ensures |qs| == |ps| && forall j | 0 <= j < |ps| :: qs[j] == [i] + ps[j]
  {
    seq(|ps|, j requires 0 <= j < |ps| => [i] + ps[j])
  }

  /** The traversal itself. */
  function Preorder(t: Tree): seq<Node>
    decreases t, |t.kids| + 1
  {
    [[]] + PreorderOfKids(t, |t.kids|)
  }

  function PreorderOfKids(t: Tree, k: nat): seq<Node>
    requires k <= |t.kids|
    decreases t, k
  {
    if k == 0 then [] else PreorderOfKids(t, k - 1) + Under(k - 1, Preorder(t.kids[k - 1]))
  }

  /** The order in which `D` puts two different nodes.  `current` says whether the root of the tree is
      the document that Sizzle works on; a root that is not comes last. */
  predicate Before(current: bool, p: Node, q: Node) {
    if current || (p != [] && q != []) then Precedes(p, q) else p != [] && q == []
  }

  ghost predicate Increasing(current: bool, ps: seq<Node>) {
    forall i, j | 0 <= i < j < |ps| :: Before(current, ps[i], ps[j])
  }

  lemma {:induction false} PreorderLists(t: Tree)
    ensures Increasing(true, Preorder(t))
    ensures forall p :: p in Preorder(t) <==> IsNode(t, p)
    decreases t, |t.kids| + 1
  {
    KidsLists(t, |t.kids|);
  }

  lemma {:induction false} KidsLists(t: Tree, k: nat)
    requires k <= |t.kids|
    ensures Increasing(true, PreorderOfKids(t, k))
    ensures forall p :: p in PreorderOfKids(t, k) <==> p != [] && p[0] < k && IsNode(t, p)
    decreases t, k
  {
    if k > 0 {
      KidsLists(t, k - 1);
      PreorderLists(t.kids[k - 1]);
      var before, sub := PreorderOfKids(t, k - 1), Preorder(t.kids[k - 1]);
      var last := Under(k - 1, sub);
      forall p
        ensures p in last <==> p != [] && p[0] == k - 1 && IsNode(t, p)
      {
        if p != [] && p[0] == k - 1 && IsNode(t, p) {
          assert p[1..] in sub;
          var j :| 0 <= j < |sub| && sub[j] == p[1..];
          assert last[j] == p;
        }
      }
      forall i, j | 0 <= i < j < |last|
        ensures Precedes(last[i], last[j])
      {
        assert last[i][1..] == sub[i] && last[j][1..] == sub[j];
      }
      forall p, q | p in before && q in last
        ensures Precedes(p, q)
      {
      }
    }
  }

  lemma {:induction false} PrecedesStrict(p: Node, q: Node)
    ensures Precedes(p, q) ==> !Precedes(q, p) && p != q
    ensures p != q ==> Precedes(p, q) || Precedes(q, p)
  {
    if p != [] && q != [] && p[0] == q[0] {
      PrecedesStrict(p[1..], q[1..]);
      assert p == [p[0]] + p[1..] && q == [q[0]] + q[1..];
    }
  }

  lemma {:induction false} PrecedesTransitive(p: Node, q: Node, r: Node)
    requires Precedes(p, q) && Precedes(q, r)
    ensures Precedes(p, r)
  {
    if p != [] && p[0] == q[0] == r[0] {
      PrecedesTransitive(p[1..], q[1..], r[1..]);
    }
  }

  /** `Precedes` compares preorder positions. */
  lemma PreorderPosition(t: Tree, i: nat, j: nat)
    requires i < |Preorder(t)| && j < |Preorder(t)|
    ensures Precedes(Preorder(t)[i], Preorder(t)[j]) <==> i < j
  {
    PreorderLists(t);
    PrecedesStrict(Preorder(t)[i], Preorder(t)[j]);
  }

  lemma {:induction false} AncestorsFirst(p: Node, q: Node)
    requires p < q
    ensures Precedes(p, q)
  {
    if p != [] {
      assert p[1..] < q[1..];
      AncestorsFirst(p[1..], q[1..]);
    }
  }

  // ------------------------------------------------------------------ the order of the comparator

  lemma BeforeStrict(current: bool, p: Node, q: Node)
    ensures Before(current, p, q) ==> !Before(current, q, p) && p != q
    ensures p != q ==> Before(current, p, q) || Before(current, q, p)
  {
    PrecedesStrict(p, q);
  }

  lemma BeforeTransitive(current: bool, p: Node, q: Node, r: Node)
    requires Before(current, p, q) && Before(current, q, r)
    ensures Before(current, p, r)
  {
    if Precedes(p, q) && Precedes(q, r) { PrecedesTransitive(p, q, r); }
  }

  /** Exactly when two nodes are ordered as in the document. */
  lemma {:induction false} OrderedAsDocument(current: bool, p: Node, q: Node)
    ensures (Before(current, p, q) <==> Precedes(p, q)) <==> current || p == q || (p != [] && q != [])
  {
    PrecedesStrict(p, q);
  }

  /** A list without repetitions that is ordered by the comparator is in document order exactly when
      the root is the current document, is not on the list, or is alone on it. */
  lemma ListedAsDocument(current: bool, ps: seq<Node>)
    requires Increasing(current, ps)
    ensures Increasing(true, ps) <==> current || [] !in ps || |ps| == 1
  {
    if !current && |ps| > 1 {
      forall i | 0 <= i < |ps| && ps[i] == []
        ensures !Increasing(true, ps)
      {
        assert i == |ps| - 1 by {
          assert i < |ps| - 1 ==> Before(current, ps[i], ps[|ps| - 1]);
        }
        assert !Before(true, ps[0], ps[i]);
      }
    }
    if current || [] !in ps {
      forall i, j | 0 <= i < j < |ps|
        ensures Before(true, ps[i], ps[j])
      {
        assert Before(current, ps[i], ps[j]);
      }
    }
  }

  const ONE_CHILD := Tree(false, [Tree(true, [])])

  /** A root with one child, not the current document: the child comes first. */
  lemma RootLast()
    ensures IsNode(ONE_CHILD, [0]) && Precedes([], [0]) && Before(false, [0], [])
    ensures Preorder(ONE_CHILD) == [[], [0]] && !Increasing(false, Preorder(ONE_CHILD))
  {
    var leaf := ONE_CHILD.kids[0];
    assert PreorderOfKids(leaf, 0) == [] && Preorder(leaf) == [[]];
    var below := Under(0, Preorder(leaf));
    assert below[0] == [0] + [] == [0] && below == [[0]];
    assert PreorderOfKids(ONE_CHILD, 1) == PreorderOfKids(ONE_CHILD, 0) + below;
    assert !Before(false, Preorder(ONE_CHILD)[0], Preorder(ONE_CHILD)[1]);
  }

  /** Two nodes whose paths part after a common prefix are ordered where they part. */
  lemma {:induction false} PartedAt(p: Node, q: Node, k: nat)
    requires k < |p| && k < |q| && p[..k] == q[..k] && p[k] != q[k]
    ensures Precedes(p, q) <==> p[k] < q[k]
  {
    if k > 0 {
      assert p[0] == p[..k][0] == q[..k][0] == q[0];
      assert p[1..][..k - 1] == p[..k][1..] && q[1..][..k - 1] == q[..k][1..];
      PartedAt(p[1..], q[1..], k - 1);
    }
  }

  // ------------------------------------------------------------------ the comparator

  function NextSibling(t: Tree, p: Node): Option<Node>
    requires IsNode(t, p)
  {
    if p == [] then None
    else
      ParentIsNode(t, p);
      if Last(p) + 1 < |At(t, Parent(p)).kids| then Some(Parent(p) + [Last(p) + 1]) else None
  }

  /** `pe`: the order of two siblings, either of which may be missing. */
  method SiblingCheck(t: Tree, a: Option<Node>, b: Option<Node>) returns (r: int)
    requires a.Some? || b.Some?
    requires a.Some? ==> IsNode(t, a.value)
    requires a.Some? && b.Some? ==> IsNode(t, b.value) && Siblings(a.value, b.value) && a != b
    ensures r != 0
    ensures r < 0 <==> a.None? || (b.Some? && Last(a.value) < Last(b.value))
  {
    if a.Some? && b.Some? {
      var p, q := a.value, b.value;
      ParentIsNode(t, q);
      assert q == Parent(p) + [Last(q)] && p == Parent(p) + [Last(p)];
      var n := p;
      while true
        invariant IsNode(t, n) && Siblings(n, p) && Last(p) <= Last(n)
        invariant Last(q) < Last(p) || Last(n) < Last(q)
        decreases |At(t, Parent(q)).kids| - Last(n)
      {
        ParentIsNode(t, n);
        var next := NextSibling(t, n);
        if next.None? { break; }
        ChildIsNode(t, Parent(n), Last(n) + 1);
        n := next.value;
        assert n == Parent(p) + [Last(n)];
        if n == q { return -1; }
      }
    }
    return if a.Some? then 1 else -1;
  }

  method RootPath(e: Node) returns (path: seq<Node>)
    ensures IsRootPath(path, e)
  {
    path := [e];
    var n := e;
    while n != []
      invariant |n| <= |e| && n == e[..|n|] && |path| == |e| - |n| + 1
      invariant forall i | |n| <= i <= |e| :: path[i - |n|] == e[..i]
    {
      n := Parent(n);
      path := [n] + path;
    }
  }

  function Item(path: seq<Node>, i: nat): Option<Node> {
    if i < |path| then Some(path[i]) else None
  }

  /** `D` for two nodes of one tree. */
  method Compare(t: Tree, current: bool, e: Node, f: Node) returns (r: int)
    requires IsNode(t, e) && IsNode(t, f)
    ensures r == 0 <==> e == f
    ensures r < 0 <==> Before(current, e, f)
  {
    PrecedesStrict(e, f);
    if e == f { return 0; }
    if e == [] || f == [] {
      return if e == [] && current then -1
        else if f == [] && current then 1
        else if e != [] then -1 else 1;
    }
    ParentIsNode(t, e);
    ParentIsNode(t, f);
    if Parent(e) == Parent(f) {
      assert e == Parent(e) + [Last(e)] && f == Parent(e) + [Last(f)];
      r := SiblingCheck(t, Some(e), Some(f));
      PartedAt(e, f, |e| - 1);
      return;
    }
    var a := RootPath(e);
    var s := RootPath(f);
    var k := Part(a, s, e, f);
    PartedPaths(t, a, s, e, f, k);
    r := SiblingCheck(t, Item(a, k), Item(s, k));
  }

  ghost predicate IsRootPath(path: seq<Node>, e: Node) {
    |path| == |e| + 1 && forall i | 0 <= i <= |e| :: path[i] == e[..i]
  }

  /** The first index at which two root paths differ; there is one unless the nodes are the same. */
  method Part(a: seq<Node>, s: seq<Node>, ghost e: Node, ghost f: Node) returns (k: nat)
    requires IsRootPath(a, e) && IsRootPath(s, f) && e != f
    ensures 0 < k <= |a| && k <= |s| && e[..k - 1] == f[..k - 1]
    ensures Item(a, k) != Item(s, k)
  {
    assert a[0] == s[0] && a[|e|] == e && s[|f|] == f;
    k := 0;
    while Item(a, k) == Item(s, k)
      invariant k <= |a| && k <= |s| && (k > 0 ==> a[k - 1] == s[k - 1])
      decreases |a| - k
    {
      k := k + 1;
    }
  }

  lemma PartedPaths(t: Tree, a: seq<Node>, s: seq<Node>, e: Node, f: Node, k: nat)
    requires IsNode(t, e) && IsNode(t, f) && IsRootPath(a, e) && IsRootPath(s, f)
    requires 0 < k <= |a| && k <= |s| && e[..k - 1] == f[..k - 1] && Item(a, k) != Item(s, k)
    ensures k < |a| ==> IsNode(t, a[k])
    ensures k < |s| ==> IsNode(t, s[k])
    ensures k < |a| && k < |s| ==> Siblings(a[k], s[k])
    ensures Precedes(e, f) <==> k == |a| || (k < |s| && Last(a[k]) < Last(s[k]))
  {
    PrefixIsNode(t, e, k);
    PrefixIsNode(t, f, k);
    PrecedesStrict(e, f);
    if k < |a| && k < |s| {
      assert Parent(a[k]) == e[..k - 1] && Parent(s[k]) == f[..k - 1];
      assert a[k] == Parent(a[k]) + [Last(a[k])] && s[k] == Parent(a[k]) + [Last(s[k])];
      PartedAt(e, f, k - 1);
    } else if k == |a| {
      assert e == f[..|e|];
      AncestorsFirst(e, f);
    } else {
      assert f == e[..|f|];
      AncestorsFirst(f, e);
    }
  }

  lemma {:induction false} PrefixIsNode(t: Tree, p: Node, k: nat)
    requires IsNode(t, p)
    ensures k <= |p| ==> IsNode(t, p[..k])
    decreases |p|
  {
    if k < |p| {
      ParentIsNode(t, p);
      PrefixIsNode(t, Parent(p), k);
      assert Parent(p)[..k] == p[..k];
    } else if k == |p| {
      assert p[..k] == p;
    }
  }

  // ------------------------------------------------------------------ uniqueSort

  /** What a sort by the comparator leaves: equal nodes side by side, the others in order. */
  ghost predicate Sorted(current: bool, ps: seq<Node>) {
    forall i, j | 0 <= i < j < |ps| :: ps[i] == ps[j] || Before(current, ps[i], ps[j])
  }

  /** It is enough that the comparator never puts a neighbour in front. */
  lemma {:induction false} NeighboursSort(current: bool, ps: seq<Node>)
    requires forall i | 0 < i < |ps| :: ps[i - 1] == ps[i] || Before(current, ps[i - 1], ps[i])
    ensures Sorted(current, ps)
  {
    if |ps| > 1 {
      var init, last := ps[..|ps| - 1], ps[|ps| - 1];
      NeighboursSort(current, init);
      forall i | 0 <= i < |init|
        ensures ps[i] == last || Before(current, ps[i], last)
      {
        var p, q := init[i], init[|init| - 1];
        assert p == q || Before(current, p, q);
        if Before(current, p, q) && Before(current, q, last) { BeforeTransitive(current, p, q, last); }
      }
      assert forall i | 0 <= i < |init| :: ps[i] == init[i];
    }
  }

  /** Every sort by the comparator gives the same list. */
  lemma {:induction false} OneSorting(current: bool, ps: seq<Node>, qs: seq<Node>)
    requires Sorted(current, ps) && Sorted(current, qs) && multiset(ps) == multiset(qs)
    ensures ps == qs
  {
    if |ps| > 0 {
      assert |qs| == |multiset(qs)| == |ps|;
      assert ps[0] in multiset(qs) && qs[0] in multiset(ps);
      BeforeStrict(current, ps[0], qs[0]);
      Rest(ps);
      Rest(qs);
      OneSorting(current, ps[1..], qs[1..]);
    } else {
      assert |multiset(qs)| == 0;
    }
  }

  lemma Rest(ps: seq<Node>)
    requires ps != []
    ensures multiset(ps[1..]) == multiset(ps) - multiset{ps[0]}
  {
    assert ps == [ps[0]] + ps[1..];
  }

  ghost predicate HasRepeat(ps: seq<Node>) {
    exists i | 0 < i < |ps| :: ps[i] == ps[i - 1]
  }

  /** Positions of the sorted list whose nodes the sort has handed to the comparator. */
  ghost predicate Positions(ps: seq<Node>, compared: set<(nat, nat)>) {
    forall c <- compared :: c.0 < c.1 < |ps|
  }

  /** The comparator has met two equal nodes. */
  predicate Met(ps: seq<Node>, compared: set<(nat, nat)>)
    requires Positions(ps, compared)
  {
    exists c <- compared :: ps[c.0] == ps[c.1]
  }

  /** No comparison sort can leave out a pair of neighbours. */
  ghost predicate NeighboursCompared(ps: seq<Node>, compared: set<(nat, nat)>) {
    forall i: nat, j: nat | j == i + 1 < |ps| :: (i, j) in compared
  }

  /** A sort that has compared all neighbours has met two equal nodes exactly when there are some. */
  lemma {:induction false} ComparedNeighbours(current: bool, ps: seq<Node>, compared: set<(nat, nat)>)
    requires Sorted(current, ps) && Positions(ps, compared) && NeighboursCompared(ps, compared)
    ensures HasRepeat(ps) <==> Met(ps, compared)
  {
    if HasRepeat(ps) {
      var i :| 0 < i < |ps| && ps[i] == ps[i - 1];
      assert (i - 1, i) in compared;
    }
    forall c | c in compared && ps[c.0] == ps[c.1]
      ensures HasRepeat(ps)
    {
      BeforeStrict(current, ps[c.0], ps[c.0 + 1]);
      assert ps[c.0 + 1] == ps[c.0];
    }
  }

  /** The sequence from index `k` on, without the elements that equal their predecessor. */
  function Compact(ps: seq<Node>, k: nat): seq<Node>
    requires k <= |ps|
    decreases |ps| - k
  {
    if k == |ps| then []
    else
      var rest := Compact(ps, k + 1);
      if k > 0 && ps[k] == ps[k - 1] then rest else [ps[k]] + rest
  }

  lemma Prepend(p: Node, a: seq<Node>, b: seq<Node>)
    ensures [p] + (a + b) == [p] + a + b
  {
  }

  lemma {:induction false} CompactGap(ps: seq<Node>, k: nat, m: nat)
    requires k <= m <= |ps|
    requires forall i | k <= i < m :: i == 0 || ps[i] != ps[i - 1]
    ensures Compact(ps, k) == ps[k..m] + Compact(ps, m)
    decreases m - k
  {
    if k < m {
      CompactGap(ps, k + 1, m);
      Prepend(ps[k], ps[k + 1..m], Compact(ps, m));
      assert ps[k..m] == [ps[k]] + ps[k + 1..m];
    }
  }

  lemma {:induction false} CompactKeeps(ps: seq<Node>, k: nat, i: nat)
    requires k <= i < |ps|
    ensures ps[i] in Compact(ps, k) || (k > 0 && ps[i] == ps[k - 1])
    decreases |ps| - k
  {
    if k < i { CompactKeeps(ps, k + 1, i); }
  }

  lemma IncreasingFrom(current: bool, p: Node, ps: seq<Node>)
    requires Increasing(current, ps) && forall q <- ps :: Before(current, p, q)
    ensures Increasing(current, [p] + ps)
  {
    var all := [p] + ps;
    forall i, j | 0 <= i < j < |all|
      ensures Before(current, all[i], all[j])
    {
      assert all[j] == ps[j - 1];
    }
  }

  lemma {:induction false} CompactIncreases(current: bool, ps: seq<Node>, k: nat)
    requires k <= |ps| && Sorted(current, ps)
    ensures Increasing(current, Compact(ps, k))
    ensures forall p <- Compact(ps, k) :: p in ps && (k > 0 ==> Before(current, ps[k - 1], p))
    decreases |ps| - k
  {
    if k < |ps| {
      var rest := Compact(ps, k + 1);
      CompactIncreases(current, ps, k + 1);
      IncreasingFrom(current, ps[k], rest);
      if k > 0 && ps[k] != ps[k - 1] {
        forall p | p in rest
          ensures Before(current, ps[k - 1], p)
        {
          BeforeTransitive(current, ps[k - 1], ps[k], p);
        }
      }
    }
  }

  /** Dropping the repetitions of a sorted sequence leaves its nodes, once each and in order. */
  lemma CompactLists(current: bool, ps: seq<Node>)
    requires Sorted(current, ps)
    ensures Increasing(current, Compact(ps, 0))
    ensures forall p :: p in Compact(ps, 0) <==> p in ps
  {
    CompactIncreases(current, ps, 0);
    forall i | 0 <= i < |ps|
      ensures ps[i] in Compact(ps, 0)
    {
      CompactKeeps(ps, 0, i);
    }
  }

  lemma {:induction false} OnlyRepeats(current: bool, ps: seq<Node>)
    requires Sorted(current, ps)
    ensures Increasing(current, ps) <==> !HasRepeat(ps)
  {
    forall i, j | 0 <= i < j < |ps| && ps[i] == ps[j]
      ensures HasRepeat(ps)
    {
      BeforeStrict(current, ps[i], ps[i + 1]);
      assert ps[i + 1] == ps[i];
    }
    forall i | 0 < i < |ps| && ps[i] == ps[i - 1]
      ensures !Before(current, ps[i - 1], ps[i])
    {
      BeforeStrict(current, ps[i - 1], ps[i]);
    }
  }

  lemma NothingToCompact(ps: seq<Node>)
    requires !HasRepeat(ps)
    ensures Compact(ps, 0) == ps
  {
    CompactGap(ps, 0, |ps|);
    assert ps[0..|ps|] == ps;
  }

  class ResultList {
    var items: seq<Node>

    /** `uniqueSort`.  `sorted` is what the native sort makes of the items (there is only one such
        list, by `OneSorting`) and `compared` says which of them it has compared.  The comparator sets
        the flag when it meets two equal nodes; `assumed` is its value before.  Only with the flag does
        the duplicate pass run. */
    method UniqueSort(current: bool, sorted: seq<Node>, compared: set<(nat, nat)>, assumed: bool)
      requires multiset(sorted) == multiset(items) && Sorted(current, sorted) && Positions(sorted, compared)
      modifies this
      ensures forall p :: p in items <==> p in old(items)
      ensures items == if assumed || Met(sorted, compared) then Compact(sorted, 0) else sorted
      ensures Increasing(current, items) <==> assumed || Met(sorted, compared) || !HasRepeat(sorted)
      ensures NeighboursCompared(sorted, compared) ==> Increasing(current, items) && items == Compact(sorted, 0)
    {
      assert forall p :: p in sorted <==> p in multiset(sorted);
      assert forall p :: p in items <==> p in multiset(items);
      items := sorted;
      var hasDuplicate := assumed || Met(sorted, compared);
      if hasDuplicate {
        RemoveDuplicates();
        CompactLists(current, sorted);
      } else {
        OnlyRepeats(current, sorted);
        if NeighboursCompared(sorted, compared) {
          ComparedNeighbours(current, sorted, compared);
          NothingToCompact(sorted);
        }
      }
    }

    method RemoveDuplicates()
      modifies this
      ensures items == Compact(old(items), 0)
    {
      ghost var before := items;
      var duplicates := CollectDuplicates();
      ghost var end := |items|;
      var r := |duplicates|;
      while r > 0
        invariant 0 <= r <= |duplicates|
        invariant end == (if r < |duplicates| then duplicates[r] else |before|) <= |before|
        invariant items == before[..end] + Compact(before, end)
      {
        r := r - 1;
        SpliceStep(before, duplicates, r, end, items);
        end := duplicates[r];
        items := items[..duplicates[r]] + items[duplicates[r] + 1..];
      }
      AllSpliced(before, duplicates, end);
    }

    /** The indices of the items that equal the item before them. */
    method CollectDuplicates() returns (duplicates: seq<nat>)
      ensures Repeats(items, duplicates)
    {
      duplicates := [];
      var i := 0;
      while i < |items|
        invariant 0 <= i <= |items|
        invariant forall k | 0 <= k < |duplicates| ::
          0 < duplicates[k] < |items| && duplicates[k] <= i && items[duplicates[k]] == items[duplicates[k] - 1]
        invariant forall k, l | 0 <= k < l < |duplicates| :: duplicates[k] < duplicates[l]
        invariant forall d: nat | 0 < d < |items| && d <= i && items[d] == items[d - 1] :: d in duplicates
      {
        var t := items[i];
        i := i + 1;
        if i < |items| && t == items[i] { duplicates := duplicates + [i]; }
      }
    }
  }

  ghost predicate Repeats(ps: seq<Node>, ds: seq<nat>) {
    && (forall k, l | 0 <= k < l < |ds| :: ds[k] < ds[l])
    && (forall k | 0 <= k < |ds| :: 0 < ds[k] < |ps| && ps[ds[k]] == ps[ds[k] - 1])
    && (forall d: nat | 0 < d < |ps| && ps[d] == ps[d - 1] :: d in ds)
  }

  /** Splicing out the last repetition not yet removed. */
  lemma SpliceStep(ps: seq<Node>, ds: seq<nat>, r: nat, end: nat, items: seq<Node>)
    requires Repeats(ps, ds) && r < |ds| && end == (if r + 1 < |ds| then ds[r + 1] else |ps|) <= |ps|
    requires items == ps[..end] + Compact(ps, end)
    ensures ds[r] < |items| && items[..ds[r]] + items[ds[r] + 1..] == ps[..ds[r]] + Compact(ps, ds[r])
  {
    var d := ds[r];
    NoneBetween(ps, ds, r, end);
    CompactGap(ps, d + 1, end);
    assert items[..d] == ps[..d];
    assert items[d + 1..] == ps[d + 1..end] + Compact(ps, end);
  }

  lemma AllSpliced(ps: seq<Node>, ds: seq<nat>, end: nat)
    requires Repeats(ps, ds) && end == (if 0 < |ds| then ds[0] else |ps|) <= |ps|
    ensures ps[..end] + Compact(ps, end) == Compact(ps, 0)
  {
    NoneBefore(ps, ds, end);
    CompactGap(ps, 0, end);
    assert ps[0..end] == ps[..end];
  }

  lemma NoneBetween(ps: seq<Node>, ds: seq<nat>, r: nat, end: nat)
    requires Repeats(ps, ds) && r < |ds| && end == if r + 1 < |ds| then ds[r + 1] else |ps|
    ensures forall i | ds[r] < i < end :: ps[i] != ps[i - 1]
  {
    forall k | 0 <= k < |ds|
      ensures !(ds[r] < ds[k] < end)
    {
      if k <= r { assert ds[k] <= ds[r]; } else { assert ds[k] >= end; }
    }
  }

  lemma NoneBefore(ps: seq<Node>, ds: seq<nat>, end: nat)
    requires Repeats(ps, ds) && end == if 0 < |ds| then ds[0] else |ps|
    ensures forall i | 0 < i < end :: ps[i] != ps[i - 1]
  {
    assert forall k | 0 <= k < |ds| :: ds[k] >= end;
  }
}
