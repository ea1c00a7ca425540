/** Event namespaces: the regular expression that `event.remove` (and dispatch) builds from the
    sorted names it is asked for, run on the sorted, dot-joined names of a handler. */
module Namespace {
  import opened Units

  type Name = Text

  const DOT: Unit := 0x2E

  ghost predicate NoLineEnd(s: Name) {
    forall i | 0 <= i < |s| :: !IsLineEnd(s[i])
  }

  ghost predicate DotFree(names: seq<Name>) {
    forall i | 0 <= i < |names| :: DOT !in names[i]
  }

  function Join(parts: seq<Name>): Name {
    if parts == [] then [] else if |parts| == 1 then parts[0] else parts[0] + [DOT] + Join(parts[1..])
  }

  // ------------------------------------------------------------------ regular expressions

  datatype Regex = Literal(text: Name) | End | AnyRun | Either(a: Regex, b: Regex) | Then(a: Regex, b: Regex)

  /** `re` matches a prefix of `t` and leaves `u`. */
  ghost predicate Takes(re: Regex, t: Name, u: Name) {
    match re
    case Literal(x) => t == x + u
    case End => t == [] && u == []
    case AnyRun => exists x: Name :: t == x + u && NoLineEnd(x)
    case Either(a, b) => Takes(a, t, u) || Takes(b, t, u)
    case Then(a, b) => exists v :: Takes(a, t, v) && Takes(b, v, u)
  }

  const SEPARATOR := Then(Literal([DOT]), Either(Then(AnyRun, Literal([DOT])), Literal([])))

  const TAIL := Either(Literal([DOT]), End)

  /** The names joined by the separator, for names without characters that mean something else. */
  function Body(names: seq<Name>): Regex
    requires names != []
  {
    if |names| == 1 then Literal(names[0]) else Then(Literal(names[0]), Then(SEPARATOR, Body(names[1..])))
  }

  /** A place where the group that opens the expression, start or dot, has just matched. */
  ghost predicate Opens(s: Name, t: Name) {
    t == s || exists x: Name :: s == x + [DOT] + t
  }

  /** `test` of the whole expression. */
  ghost predicate Test(names: seq<Name>, s: Name)
    requires names != []
  {
    exists t, u :: Opens(s, t) && Takes(Then(Body(names), TAIL), t, u)
  }

  // ------------------------------------------------------------------ what it matches

  /** The names occur among the parts in this order, starting with the first part, and the parts
      skipped in between have no line terminators. */
  ghost predicate EmbedsFirst(names: seq<Name>, parts: seq<Name>)
    requires names != []
  {
    && parts != [] && parts[0] == names[0]
    && (|names| > 1 ==>
         exists k: nat :: 1 <= k <= |parts| && NoLineEnd(Skipped(parts, k)) && EmbedsFirst(names[1..], parts[k..]))
  }

  function Skipped(parts: seq<Name>, k: nat): Name
    requires 1 <= k <= |parts|
  {
    Join(parts[1..k])
  }

  ghost predicate Embeds(names: seq<Name>, parts: seq<Name>)
    requires names != []
  {
    exists k: nat :: k <= |parts| && EmbedsFirst(names, parts[k..])
  }

  /** After a dot of the joined parts comes the join of some of the last parts. */
  lemma {:induction false} AfterDot(parts: seq<Name>, x: Name, t: Name)
    requires parts != [] && DotFree(parts) && Join(parts) == x + [DOT] + t
    ensures exists k: nat :: 1 <= k < |parts| && t == Join(parts[k..]) && x == Join(parts[..k])
  {
    var s := Join(parts);
    assert s[|x|] == DOT;
    NoDotInFirst(parts);
    if |parts| > 1 {
      var p, rest := parts[0], Join(parts[1..]);
      if |x| == |p| {
        assert x == s[..|p|] == p && t == s[|p| + 1..] == rest;
        assert parts[..1] == [p] && Join(parts[..1]) == p;
      } else {
        var y := x[|p| + 1..];
        assert s[|p| + 1..] == rest == y + [DOT] + t;
        AfterDot(parts[1..], y, t);
        var k: nat :| 1 <= k < |parts[1..]| && t == Join(parts[1..][k..]) && y == Join(parts[1..][..k]);
        assert parts[1..][k..] == parts[k + 1..] && parts[1..][..k] == parts[..k + 1][1..];
        assert x == p + [DOT] + y by { assert x[..|p| + 1] == s[..|p| + 1]; }
      }
    }
  }

  lemma NoDotInFirst(parts: seq<Name>)
    requires parts != [] && DotFree(parts)
    ensures var s, p := Join(parts), parts[0];
            && |p| <= |s| && s[..|p|] == p && (forall i | 0 <= i < |p| :: s[i] != DOT)
            && (if |parts| == 1 then s == p else |p| < |s| && s[|p|] == DOT && s[|p| + 1..] == Join(parts[1..]))
  {
  }

  /** The join splits before every later part. */
  lemma {:induction false} JoinSplits(parts: seq<Name>, k: nat)
    requires 1 <= k < |parts|
    ensures Join(parts) == Join(parts[..k]) + [DOT] + Join(parts[k..])
  {
    if k == 1 {
      assert parts[..1] == [parts[0]];
    } else {
      JoinSplits(parts[1..], k - 1);
      assert parts[1..][..k - 1] == parts[..k][1..] && parts[1..][k - 1..] == parts[k..];
      assert parts[0] + [DOT] + (Join(parts[..k][1..]) + [DOT] + Join(parts[k..])) ==
        parts[0] + [DOT] + Join(parts[..k][1..]) + [DOT] + Join(parts[k..]);
    }
  }

  /** A dot-free name that ends at a dot or at the end is the first part. */
  lemma NameIsFirst(name: Name, parts: seq<Name>, u: Name)
    requires parts != [] && DotFree(parts) && DOT !in name
    requires Join(parts) == name + u && (u == [] || u[0] == DOT)
    ensures parts[0] == name
    ensures if |parts| == 1 then u == [] else u == [DOT] + Join(parts[1..])
  {
    var s, p := Join(parts), parts[0];
    NoDotInFirst(parts);
    FirstDot(s, name, u);
    OneFirstDot(s, |name|, |p|);
  }

  lemma OneFirstDot(s: Name, i: nat, j: nat)
    requires i <= |s| && (i == |s| || s[i] == DOT) && forall k | 0 <= k < i :: s[k] != DOT
    requires j <= |s| && (j == |s| || s[j] == DOT) && forall k | 0 <= k < j :: s[k] != DOT
    ensures i == j && (i < |s| ==> s[i..] == [DOT] + s[i + 1..])
  {
  }

  /** A dot-free name followed by a dot or the end: where it ends in the string. */
  lemma FirstDot(s: Name, name: Name, u: Name)
    requires s == name + u && DOT !in name && (u == [] || u[0] == DOT)
    ensures |name| <= |s| && s[..|name|] == name && s[|name|..] == u && (forall i | 0 <= i < |name| :: s[i] != DOT)
    ensures |name| == |s| || s[|name|] == DOT
  {
    assert forall i | 0 <= i < |name| :: s[i] == name[i];
  }

  lemma {:induction false} OpensAtParts(parts: seq<Name>, t: Name)
    requires parts != [] && DotFree(parts)
    ensures Opens(Join(parts), t) <==> exists k: nat :: k < |parts| && t == Join(parts[k..])
  {
    var s := Join(parts);
    assert parts[0..] == parts;
    if t != s && Opens(s, t) {
      var x: Name :| s == x + [DOT] + t;
      AfterDot(parts, x, t);
    }
    forall k: nat | 1 <= k < |parts|
      ensures Opens(s, Join(parts[k..]))
    {
      JoinSplits(parts, k);
    }
  }

  lemma ThenTakes(a: Regex, b: Regex, t: Name, u: Name) returns (v: Name)
    requires Takes(Then(a, b), t, u)
    ensures Takes(a, t, v) && Takes(b, v, u)
  {
    v :| Takes(a, t, v) && Takes(b, v, u);
  }

  lemma SeparatorSplits(w: Name, v: Name) returns (m: Name)
    requires Takes(SEPARATOR, w, v)
    ensures w == [DOT] + m && (m == v || exists x: Name :: m == x + [DOT] + v && NoLineEnd(x))
  {
    m := ThenTakes(Literal([DOT]), Either(Then(AnyRun, Literal([DOT])), Literal([])), w, v);
    if Takes(Literal([]), m, v) {
      assert m == v;
    } else {
      var z := ThenTakes(AnyRun, Literal([DOT]), m, v);
      var x: Name :| m == x + z && NoLineEnd(x);
      assert m == x + [DOT] + v;
    }
  }

  lemma SeparatorJoins(v: Name, x: Name)
    requires NoLineEnd(x)
    ensures Takes(SEPARATOR, [DOT] + v, v)
    ensures Takes(SEPARATOR, [DOT] + (x + [DOT] + v), v)
  {
    assert v == [] + v;
    assert Takes(Either(Then(AnyRun, Literal([DOT])), Literal([])), v, v) by { assert Takes(Literal([]), v, v); }
    assert Takes(Literal([DOT]), [DOT] + v, v);
    var m, z := x + [DOT] + v, [DOT] + v;
    assert m == x + z;
    assert Takes(AnyRun, m, z) && Takes(Literal([DOT]), z, v);
    assert Takes(Then(AnyRun, Literal([DOT])), m, v);
    assert Takes(Either(Then(AnyRun, Literal([DOT])), Literal([])), m, v);
    assert Takes(Literal([DOT]), [DOT] + m, m);
  }

  /** What the separator takes after a name: a dot, and perhaps some whole parts. */
  lemma SeparatorTakes(parts: seq<Name>, w: Name, v: Name)
    requires |parts| > 1 && DotFree(parts) && w == [DOT] + Join(parts[1..]) && Takes(SEPARATOR, w, v)
    ensures exists k: nat :: 1 <= k < |parts| && NoLineEnd(Skipped(parts, k)) && v == Join(parts[k..])
  {
    var rest := Join(parts[1..]);
    var m := SeparatorSplits(w, v);
    assert m == w[1..] == rest;
    if m == v {
      assert parts[1..1] == [] && NoLineEnd(Skipped(parts, 1));
    } else {
      var x: Name :| m == x + [DOT] + v && NoLineEnd(x);
      AfterDot(parts[1..], x, v);
      var k: nat :| 1 <= k < |parts[1..]| && v == Join(parts[1..][k..]) && x == Join(parts[1..][..k]);
      assert parts[1..][k..] == parts[k + 1..] && parts[1..][..k] == parts[1..k + 1];
      assert NoLineEnd(Skipped(parts, k + 1));
    }
  }

  lemma SeparatorSkips(parts: seq<Name>, k: nat)
    requires 1 <= k < |parts| && NoLineEnd(Skipped(parts, k))
    ensures Takes(SEPARATOR, [DOT] + Join(parts[1..]), Join(parts[k..]))
  {
    SeparatorJoins(Join(parts[k..]), Skipped(parts, k));
    if k > 1 {
      JoinSplits(parts[1..], k - 1);
      assert parts[1..][k - 1..] == parts[k..] && parts[1..][..k - 1] == parts[1..k];
    }
  }

  /** The text after the body of the expression is one that the tail accepts. */
  ghost predicate Ends(v: Name) {
    v == [] || v[0] == DOT
  }

  lemma {:induction false} BodyTakes(names: seq<Name>, parts: seq<Name>, v: Name)
    requires names != [] && parts != [] && DotFree(names) && DotFree(parts)
    requires Takes(Body(names), Join(parts), v) && Ends(v)
    ensures EmbedsFirst(names, parts)
  {
    if |names| == 1 {
      NameIsFirst(names[0], parts, v);
    } else {
      var w := ThenTakes(Literal(names[0]), Then(SEPARATOR, Body(names[1..])), Join(parts), v);
      var z := ThenTakes(SEPARATOR, Body(names[1..]), w, v);
      var m := SeparatorSplits(w, z);
      NameIsFirst(names[0], parts, w);
      SeparatorTakes(parts, w, z);
      var k: nat :| 1 <= k < |parts| && NoLineEnd(Skipped(parts, k)) && z == Join(parts[k..]);
      BodyTakes(names[1..], parts[k..], v);
    }
  }

  lemma {:induction false} EmbeddedTaken(names: seq<Name>, parts: seq<Name>) returns (v: Name)
    requires names != [] && DotFree(names) && DotFree(parts) && EmbedsFirst(names, parts)
    ensures Takes(Body(names), Join(parts), v) && Ends(v)
  {
    var rest := if |parts| == 1 then [] else [DOT] + Join(parts[1..]);
    assert Join(parts) == names[0] + rest;
    if |names| == 1 {
      v := rest;
      assert Takes(Literal(names[0]), Join(parts), v);
    } else {
      var k: nat :| 1 <= k <= |parts| && NoLineEnd(Skipped(parts, k)) && EmbedsFirst(names[1..], parts[k..]);
      v := EmbeddedTaken(names[1..], parts[k..]);
      assert Takes(SEPARATOR, rest, Join(parts[k..])) by { SeparatorSkips(parts, k); }
      assert Takes(Then(SEPARATOR, Body(names[1..])), rest, v);
      assert Takes(Literal(names[0]), Join(parts), rest);
    }
  }

  lemma TailTakes(v: Name, u: Name)
    requires Takes(TAIL, v, u)
    ensures Ends(v)
  {
    if Takes(Literal([DOT]), v, u) { assert v == [DOT] + u; }
  }

  lemma TestedEmbeds(names: seq<Name>, parts: seq<Name>)
    requires names != [] && parts != [] && DotFree(names) && DotFree(parts) && Test(names, Join(parts))
    ensures Embeds(names, parts)
  {
    var t, u :| Opens(Join(parts), t) && Takes(Then(Body(names), TAIL), t, u);
    OpensAtParts(parts, t);
    var k: nat :| k < |parts| && t == Join(parts[k..]);
    var v := ThenTakes(Body(names), TAIL, t, u);
    TailTakes(v, u);
    BodyTakes(names, parts[k..], v);
  }

  lemma TailTaken(v: Name) returns (u: Name)
    requires Ends(v)
    ensures Takes(TAIL, v, u)
  {
    if v == [] {
      u := [];
      assert Takes(End, v, u);
    } else {
      u := v[1..];
      assert v == [DOT] + u;
      assert Takes(Literal([DOT]), v, u);
    }
  }

  lemma EmbeddedTested(names: seq<Name>, parts: seq<Name>)
    requires names != [] && parts != [] && DotFree(names) && DotFree(parts) && Embeds(names, parts)
    ensures Test(names, Join(parts))
  {
    var k: nat :| k <= |parts| && EmbedsFirst(names, parts[k..]);
    var t := Join(parts[k..]);
    OpensAtParts(parts, t);
    var v := EmbeddedTaken(names, parts[k..]);
    var u := TailTaken(v);
    assert Takes(Then(Body(names), TAIL), t, u);
  }

  /** The expression built from dot-free names matches the joined parts exactly when the names occur
      among the parts in their order, with no line terminator in a part skipped between two. */
  lemma TestMeansEmbeds(names: seq<Name>, parts: seq<Name>)
    requires names != [] && parts != [] && DotFree(names) && DotFree(parts)
    ensures Test(names, Join(parts)) <==> Embeds(names, parts)
  {
    if Test(names, Join(parts)) { TestedEmbeds(names, parts); }
    if Embeds(names, parts) { EmbeddedTested(names, parts); }
  }

  // ------------------------------------------------------------------ sorted names

  /** JavaScript's order on strings. */
  predicate AtMost(a: Name, b: Name) {
    a == [] || (b != [] && (a[0] < b[0] || (a[0] == b[0] && AtMost(a[1..], b[1..]))))
  }

  ghost predicate Sorted(names: seq<Name>) {
    forall i, j | 0 <= i < j < |names| :: AtMost(names[i], names[j])
  }

  /** The first sequence arises from the second by leaving out elements. */
  predicate Subsequence(names: seq<Name>, parts: seq<Name>)
    decreases |parts|
  {
    names == [] ||
    (parts != [] && ((names[0] == parts[0] && Subsequence(names[1..], parts[1..])) || Subsequence(names, parts[1..])))
  }

  lemma {:induction false} AtMostAntisymmetric(a: Name, b: Name)
    requires AtMost(a, b) && AtMost(b, a)
    ensures a == b
  {
    if a != [] {
      AtMostAntisymmetric(a[1..], b[1..]);
      assert a == [a[0]] + a[1..] && b == [b[0]] + b[1..];
    }
  }

  lemma {:induction false} SubsequenceIsSubMultiset(names: seq<Name>, parts: seq<Name>)
    requires Subsequence(names, parts)
    ensures multiset(names) <= multiset(parts)
    decreases |parts|
  {
    if names != [] {
      assert parts == [parts[0]] + parts[1..] && names == [names[0]] + names[1..];
      if names[0] == parts[0] && Subsequence(names[1..], parts[1..]) {
        SubsequenceIsSubMultiset(names[1..], parts[1..]);
      } else {
        SubsequenceIsSubMultiset(names, parts[1..]);
      }
    }
  }

  lemma {:induction false} SortedSubMultiset(names: seq<Name>, parts: seq<Name>)
    requires Sorted(names) && Sorted(parts) && multiset(names) <= multiset(parts)
    ensures Subsequence(names, parts)
    decreases |parts|
  {
    if names != [] {
      assert names[0] in multiset(names);
      if names[0] == parts[0] {
        Tails(names, parts);
        SortedSubMultiset(names[1..], parts[1..]);
      } else {
        FirstUnused(names, parts);
        SortedSubMultiset(names, parts[1..]);
      }
    }
  }

  lemma Tails(names: seq<Name>, parts: seq<Name>)
    requires names != [] && parts != [] && names[0] == parts[0] && multiset(names) <= multiset(parts)
    ensures multiset(names[1..]) <= multiset(parts[1..])
  {
    assert parts == [parts[0]] + parts[1..] && names == [names[0]] + names[1..];
    assert multiset(names) == multiset{names[0]} + multiset(names[1..]);
    assert multiset(parts) == multiset{parts[0]} + multiset(parts[1..]);
    forall x
      ensures multiset(names[1..])[x] <= multiset(parts[1..])[x]
    {
      assert multiset(names)[x] <= multiset(parts)[x];
    }
  }

  /** The first part is smaller than all names, so it is none of them. */
  lemma FirstUnused(names: seq<Name>, parts: seq<Name>)
    requires Sorted(names) && Sorted(parts) && multiset(names) <= multiset(parts)
    requires names != [] && parts != [] && names[0] != parts[0]
    ensures multiset(names) <= multiset(parts[1..])
  {
    var p := parts[0];
    assert names[0] in multiset(names);
    assert names[0] in parts;
    var k :| 0 <= k < |parts| && parts[k] == names[0];
    assert AtMost(p, names[0]);
    if p in names {
      var i :| 0 <= i < |names| && names[i] == p;
      AtMostAntisymmetric(p, names[0]);
    }
    assert parts == [p] + parts[1..];
    assert multiset(names)[p] == 0;
  }

  /** One string is a prefix of the other, or has the smaller unit where they first differ. */
  lemma {:induction false} AtMostMeans(a: Name, b: Name)
    ensures AtMost(a, b) <==>
            a <= b || exists k: nat :: k < |a| && k < |b| && a[..k] == b[..k] && a[k] < b[k]
  {
    if a != [] && b != [] {
      var c, d := a[1..], b[1..];
      assert a == [a[0]] + c && b == [b[0]] + d;
      AtMostMeans(c, d);
      if a[0] == b[0] {
        forall k: nat | k < |c| && k < |d|
          ensures a[..k + 1] == [a[0]] + c[..k] && b[..k + 1] == [b[0]] + d[..k]
        {
        }
        if k: nat :| k < |a| && k < |b| && a[..k] == b[..k] && a[k] < b[k] {
          assert c[..k - 1] == a[..k][1..] && d[..k - 1] == b[..k][1..];
          assert c[k - 1] < d[k - 1];
        }
        if k: nat :| k < |c| && k < |d| && c[..k] == d[..k] && c[k] < d[k] {
          assert a[..k + 1] == b[..k + 1] && a[k + 1] < b[k + 1];
        }
      } else if a[0] < b[0] {
        assert a[..0] == b[..0];
      }
    }
  }

  lemma {:induction false} AtMostTotal(a: Name, b: Name)
    ensures AtMost(a, b) || AtMost(b, a)
  {
    if a != [] && b != [] && a[0] == b[0] { AtMostTotal(a[1..], b[1..]); }
  }

  lemma {:induction false} AtMostTransitive(a: Name, b: Name, c: Name)
    requires AtMost(a, b) && AtMost(b, c)
    ensures AtMost(a, c)
  {
    if a != [] && a[0] == b[0] == c[0] { AtMostTransitive(a[1..], b[1..], c[1..]); }
  }

  // ------------------------------------------------------------------ splitting and sorting

  function DotIndex(s: Name): (d: nat)
    ensures d <= |s| && (d < |s| ==> s[d] == DOT) && forall i | 0 <= i < d :: s[i] != DOT
  {
    if s == [] || s[0] == DOT then 0 else 1 + DotIndex(s[1..])
  }

  /** `split(".")`. */
  function Split(s: Name): (parts: seq<Name>)
    ensures parts != []
    decreases |s|
  {
    var d := DotIndex(s);
    if d == |s| then [s] else [s[..d]] + Split(s[d + 1..])
  }

  lemma JoinMore(name: Name, parts: seq<Name>)
    requires parts != []
    ensures Join([name] + parts) == name + [0x2E] + Join(parts)
  {
    assert ([name] + parts)[1..] == parts;
  }

  lemma AroundDot(s: Name, d: nat)
    requires d < |s| && s[d] == DOT
    ensures s == s[..d] + [DOT] + s[d + 1..]
  {
  }

  lemma {:induction false} JoinOfSplit(s: Name)
    ensures Join(Split(s)) == s
    decreases |s|
  {
    var d := DotIndex(s);
    if d < |s| {
      var rest := s[d + 1..];
      JoinOfSplit(rest);
      JoinMore(s[..d], Split(rest));
      AroundDot(s, d);
    }
  }

  lemma {:induction false} SplitIsDotFree(s: Name)
    ensures DotFree(Split(s))
    ensures NoLineEnd(s) ==> Plain(Split(s))
    decreases |s|
  {
    var d := DotIndex(s);
    if d < |s| { SplitIsDotFree(s[d + 1..]); }
  }

  lemma {:induction false} SplitOfJoin(parts: seq<Name>)
    requires parts != [] && DotFree(parts)
    ensures Split(Join(parts)) == parts
    decreases |parts|
  {
    var s := Join(parts);
    NoDotInFirst(parts);
    OneFirstDot(s, DotIndex(s), |parts[0]|);
    if |parts| > 1 {
      SplitOfJoin(parts[1..]);
      assert parts == [parts[0]] + parts[1..];
    }
  }

  function Insert(name: Name, names: seq<Name>): seq<Name> {
    if names == [] || AtMost(name, names[0]) then [name] + names else [names[0]] + Insert(name, names[1..])
  }

  /** What `sort()` makes of the names. */
  function Sort(names: seq<Name>): seq<Name> {
    if names == [] then [] else Insert(names[0], Sort(names[1..]))
  }

  lemma {:induction false} InsertSorts(name: Name, names: seq<Name>)
    requires Sorted(names)
    ensures Sorted(Insert(name, names)) && multiset(Insert(name, names)) == multiset(names) + multiset{name}
    ensures forall x :: x in Insert(name, names) <==> x == name || x in names
  {
    if names != [] {
      var rest := names[1..];
      assert names == [names[0]] + rest;
      if AtMost(name, names[0]) {
        forall x | x in names
          ensures AtMost(name, x)
        {
          if x != names[0] { AtMostTransitive(name, names[0], x); }
        }
        SortedFrom(name, names);
      } else {
        InsertSorts(name, rest);
        AtMostTotal(name, names[0]);
        SortedFrom(names[0], Insert(name, rest));
      }
    }
  }

  lemma SortedFrom(name: Name, names: seq<Name>)
    requires Sorted(names) && forall x <- names :: AtMost(name, x)
    ensures Sorted([name] + names) && multiset([name] + names) == multiset(names) + multiset{name}
  {
    AtMostTotal(name, name);
  }

  lemma {:induction false} SortSorts(names: seq<Name>)
    ensures Sorted(Sort(names)) && multiset(Sort(names)) == multiset(names)
    ensures forall x :: x in Sort(names) <==> x in names
  {
    if names != [] {
      SortSorts(names[1..]);
      InsertSorts(names[0], Sort(names[1..]));
      assert names == [names[0]] + names[1..];
    }
  }

  // ------------------------------------------------------------------ one word of a type list

  /** One word of a type list: an event type and namespace names (none if there is no dot). */
  datatype TypeSpec = TypeSpec(eventType: Name, names: seq<Name>)

  /** What a dot of a regular expression can match from here on. */
  function UntilLineEnd(s: Name): (t: Name)
    ensures NoLineEnd(t)
  {
    if s == [] || IsLineEnd(s[0]) then [] else [s[0]] + UntilLineEnd(s[1..])
  }

  /** The match of a type word: the type up to the first dot, then the sorted names of what follows it
      on the same line. */
  function ParseWord(word: Name): TypeSpec {
    var d := DotIndex(word);
    var rest := if d < |word| then UntilLineEnd(word[d + 1..]) else [];
    TypeSpec(word[..d], if rest == [] then [] else Sort(Split(rest)))
  }

  /** Names as they come from words: without dots and line terminators, and sorted. */
  ghost predicate WellNamed(names: seq<Name>) {
    DotFree(names) && Plain(names) && Sorted(names)
  }

  lemma SameNames(names: seq<Name>, parts: seq<Name>)
    requires DotFree(parts) && Plain(parts) && forall x <- names :: x in parts
    ensures DotFree(names) && Plain(names)
  {
    forall i | 0 <= i < |names|
      ensures DOT !in names[i] && NoLineEnd(names[i])
    {
      assert names[i] in names;
      var k :| 0 <= k < |parts| && parts[k] == names[i];
    }
  }

  lemma WordsAreWellNamed(word: Name)
    ensures WellNamed(ParseWord(word).names) && DOT !in ParseWord(word).eventType
  {
    var d := DotIndex(word);
    var rest := if d < |word| then UntilLineEnd(word[d + 1..]) else [];
    if rest != [] {
      var parts := Split(rest);
      SplitIsDotFree(rest);
      SortSorts(parts);
      SameNames(Sort(parts), parts);
    }
  }

  /** The units that end a line. */
  ghost predicate OneLine(s: Name) {
    forall u <- s :: u != 0x0A && u != 0x0D && u != 0x2028 && u != 0x2029
  }

  lemma {:induction false} LineIsKept(line: Name, more: Name)
    requires OneLine(line) && (more != [] ==> more[0] in {0x0A, 0x0D, 0x2028, 0x2029})
    ensures UntilLineEnd(line + more) == line
  {
    if line != [] {
      assert line[0] in line && forall u <- line[1..] :: u in line;
      LineIsKept(line[1..], more);
      assert (line + more)[1..] == line[1..] + more;
    }
  }

  /** What a word gives: the type in front of the first dot and what follows it on the same line. */
  lemma WordSplits(t: Name, line: Name, more: Name)
    requires 0x2E !in t && OneLine(line) && (more != [] ==> more[0] in {0x0A, 0x0D, 0x2028, 0x2029})
    ensures ParseWord(t) == TypeSpec(t, [])
    ensures ParseWord(t + [0x2E] + line + more) == TypeSpec(t, if line == [] then [] else Sort(Split(line)))
  {
    var s := t + [DOT] + line + more;
    OneFirstDot(t, DotIndex(t), |t|);
    OneFirstDot(s, DotIndex(s), |t|);
    assert s[|t| + 1..] == line + more && s[..|t|] == t && t[..|t|] == t;
    LineIsKept(line, more);
  }

  /** The names of a word are those between its dots, as often as they are there, sorted. */
  lemma WordNames(t: Name, parts: seq<Name>)
    requires DOT !in t && parts != [] && DotFree(parts) && OneLine(Join(parts)) && Join(parts) != []
    ensures var spec := ParseWord(t + [DOT] + Join(parts));
            spec.eventType == t && multiset(spec.names) == multiset(parts) && Sorted(spec.names)
  {
    WordSplits(t, Join(parts), []);
    assert t + [DOT] + Join(parts) + [] == t + [DOT] + Join(parts);
    SplitOfJoin(parts);
    SortSorts(parts);
  }

  /** With a type in front of a word that has none, the names stay the same. */
  lemma TypeInFront(t: Name, word: Name)
    requires DOT !in t && ParseWord(word).eventType == []
    ensures ParseWord(t + word) == TypeSpec(t, ParseWord(word).names)
  {
    var s := t + word;
    if word != [] {
      assert word[0] == DOT && s[|t|] == DOT;
      assert s[|t| + 1..] == word[1..];
    }
    OneFirstDot(s, DotIndex(s), |t|);
  }

  // ------------------------------------------------------------------ the filter of event.remove

  ghost predicate Plain(parts: seq<Name>) {
    forall i | 0 <= i < |parts| :: NoLineEnd(parts[i])
  }

  lemma {:induction false} PlainJoin(parts: seq<Name>)
    requires Plain(parts)
    ensures NoLineEnd(Join(parts))
  {
    if |parts| > 1 { PlainJoin(parts[1..]); }
  }

  /** Names are found from the first part on, or in the parts after it. */
  lemma EmbedsLater(names: seq<Name>, parts: seq<Name>)
    requires names != [] && parts != []
    ensures Embeds(names, parts) <==> EmbedsFirst(names, parts) || Embeds(names, parts[1..])
  {
    assert parts[0..] == parts;
    if Embeds(names, parts[1..]) {
      var k: nat :| k <= |parts[1..]| && EmbedsFirst(names, parts[1..][k..]);
      assert parts[1..][k..] == parts[k + 1..];
    }
    if Embeds(names, parts) && !EmbedsFirst(names, parts) {
      var k: nat :| k <= |parts| && EmbedsFirst(names, parts[k..]);
      assert parts[1..][k - 1..] == parts[k..];
    }
  }

  /** Without line terminators any parts may be skipped. */
  lemma SkipsAnything(names: seq<Name>, parts: seq<Name>)
    requires names != [] && parts != [] && Plain(parts)
    ensures Embeds(names, parts[1..]) <==>
            exists k: nat :: 1 <= k <= |parts| && NoLineEnd(Skipped(parts, k)) && EmbedsFirst(names, parts[k..])
  {
    forall k: nat | 1 <= k <= |parts|
      ensures NoLineEnd(Skipped(parts, k)) && parts[1..][k - 1..] == parts[k..]
    {
      PlainJoin(parts[1..k]);
    }
    if Embeds(names, parts[1..]) {
      var k: nat :| k <= |parts[1..]| && EmbedsFirst(names, parts[1..][k..]);
      assert parts[1..][k..] == parts[k + 1..];
    }
  }

  lemma {:induction false} EmbedsIsSubsequence(names: seq<Name>, parts: seq<Name>)
    requires names != [] && Plain(parts)
    ensures Embeds(names, parts) <==> Subsequence(names, parts)
    decreases |parts|
  {
    if parts == [] {
      assert parts[0..] == [];
    } else {
      EmbedsIsSubsequence(names, parts[1..]);
      EmbedsLater(names, parts);
      if |names| > 1 {
        EmbedsIsSubsequence(names[1..], parts[1..]);
        SkipsAnything(names[1..], parts);
      } else {
        assert names[1..] == [];
      }
    }
  }

  /** A stored namespace: the join of the names of a word. */
  ghost predicate Stored(namespace: Name) {
    WellNamed(Split(namespace))
  }

  lemma JoinIsStored(names: seq<Name>)
    requires WellNamed(names)
    ensures Stored(Join(names))
  {
    if names != [] {
      SplitOfJoin(names);
    }
  }

  /** On a stored namespace the expression built from the names of a word matches exactly when the
      namespace has all these names, counted with their multiplicities. */
  lemma WordFilterMeans(names: seq<Name>, namespace: Name)
    requires names != [] && WellNamed(names) && Stored(namespace)
    ensures Test(names, namespace) <==> multiset(names) <= multiset(Split(namespace))
    ensures Test(names, namespace) <==> Subsequence(names, Split(namespace))
  {
    JoinOfSplit(namespace);
    SplitIsDotFree(namespace);
    FilterMeansSubMultiset(names, Split(namespace));
  }

  /** A handler passes the namespace filter exactly when it has all the names asked for, counted with
      their multiplicities. */
  lemma FilterMeansSubMultiset(names: seq<Name>, parts: seq<Name>)
    requires names != [] && parts != [] && DotFree(names) && DotFree(parts) && Plain(parts)
    requires Sorted(names) && Sorted(parts)
    ensures Test(names, Join(parts)) <==> multiset(names) <= multiset(parts)
    ensures Test(names, Join(parts)) <==> Subsequence(names, parts)
  {
    TestMeansEmbeds(names, parts);
    EmbedsIsSubsequence(names, parts);
    if Subsequence(names, parts) { SubsequenceIsSubMultiset(names, parts); }
    if multiset(names) <= multiset(parts) { SortedSubMultiset(names, parts); }
  }
}
