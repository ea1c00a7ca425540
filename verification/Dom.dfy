/** The document tree that Sizzle walks.  A node is identified by its path of child indices from
    the root of its tree, so the parent, the siblings and the ancestors of a node are all read off
    the path; the tree itself says which paths exist and which nodes are elements. */
module Dom {
  import opened Options
  type Node = seq<nat>

  datatype Tree = Tree(element: bool, kids: seq<Tree>)

  predicate IsNode(t: Tree, p: Node) {
    p == [] || (p[0] < |t.kids| && IsNode(t.kids[p[0]], p[1..]))
  }

  function At(t: Tree, p: Node): Tree
    requires IsNode(t, p)
  {
    if p == [] then t else At(t.kids[p[0]], p[1..])
  }

  predicate IsElement(t: Tree, p: Node) {
    IsNode(t, p) && At(t, p).element
  }

  /** Only the root of a tree may have children without being an element: documents and document
      fragments have no parent, and text and comment nodes have no children. */
  ghost predicate DomShaped(t: Tree) {
    forall p :: IsNode(t, p) && p != [] && At(t, p).kids != [] ==> At(t, p).element
  }

  function Last(p: Node): nat
    requires p != []
  {
    p[|p| - 1]
  }

  function Parent(p: Node): Node
    requires p != []
  {
    p[..|p| - 1]
  }

  predicate Siblings(p: Node, q: Node) {
    p != [] && q != [] && Parent(p) == Parent(q)
  }

  datatype Direction = ParentNode | PreviousSibling

  /** The DOM property `parentNode` or `previousSibling`. */
  function Follow(dir: Direction, p: Node): Option<Node> {
    if p == [] then None
    else match dir
      case ParentNode => Some(Parent(p))
      case PreviousSibling => if Last(p) == 0 then None else Some(Parent(p) + [Last(p) - 1])
  }

  function Rank(dir: Direction, p: Node): nat {
    match dir
    case ParentNode => |p|
    case PreviousSibling => if p == [] then 0 else Last(p)
  }

  lemma {:induction false} FollowDescends(dir: Direction, p: Node)
    requires Follow(dir, p).Some?
    ensures Rank(dir, Follow(dir, p).value) < Rank(dir, p)
  {
    if dir == PreviousSibling {
      assert (Parent(p) + [Last(p) - 1])[|p| - 1] == Last(p) - 1;
    }
  }

  lemma {:induction false} ChildIsNode(t: Tree, p: Node, i: nat)
    ensures IsNode(t, p + [i]) <==> IsNode(t, p) && i < |At(t, p).kids|
  {
    if p != [] {
      assert (p + [i])[1..] == p[1..] + [i];
      if p[0] < |t.kids| {
        ChildIsNode(t.kids[p[0]], p[1..], i);
      }
    }
  }

  lemma ParentIsNode(t: Tree, p: Node)
    requires IsNode(t, p) && p != []
    ensures IsNode(t, Parent(p)) && Last(p) < |At(t, Parent(p)).kids|
  {
    assert p == Parent(p) + [Last(p)];
    ChildIsNode(t, Parent(p), Last(p));
  }
}
