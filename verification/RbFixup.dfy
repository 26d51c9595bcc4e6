// What rotations and recolourings do to a red-black tree, as values: one lemma per case of the fix-up loops
// (compat/generic/sys/tree.h, RB_INSERT_COLOR and RB_REMOVE_COLOR).
module RbFixup {
  import opened RbShape

  ghost function RotatedLeft(t: Tree): Tree
    requires t.Branch? && t.right.Branch?
  {
    var s := t.right;
    Branch(s.color, Branch(t.color, t.left, t.node, s.left), s.node, s.right)
  }

  ghost function RotatedRight(t: Tree): Tree
    requires t.Branch? && t.left.Branch?
  {
    var s := t.left;
    Branch(s.color, s.left, s.node, Branch(t.color, s.right, t.node, t.right))
  }

  lemma RotatedLeftKeepsOrder(t: Tree)
    requires t.Branch? && t.right.Branch?
    ensures InOrder(RotatedLeft(t)) == InOrder(t)
  {
    var s := t.right;
    OrderOf(t);
    OrderOf(s);
    OrderOf(RotatedLeft(t));
    OrderOf(RotatedLeft(t).left);
    hide InOrder;
    SameOrder(InOrder(t.left), t.node, InOrder(s.left), s.node, InOrder(s.right));
  }

  lemma OrderOf(t: Tree)
    requires t.Branch?
    ensures InOrder(t) == InOrder(t.left) + [t.node] + InOrder(t.right)
  {}

  lemma SameOrder(a: seq<Node>, x: Node, b: seq<Node>, y: Node, c: seq<Node>)
    ensures a + [x] + (b + [y] + c) == (a + [x] + b) + [y] + c
  {}

  lemma RotatedRightKeepsOrder(t: Tree)
    requires t.Branch? && t.left.Branch?
    ensures InOrder(RotatedRight(t)) == InOrder(t)
  {
    var s := t.left;
    OrderOf(t);
    OrderOf(s);
    OrderOf(RotatedRight(t));
    OrderOf(RotatedRight(t).right);
    hide InOrder;
    SameOrder(InOrder(s.left), s.node, InOrder(s.right), t.node, InOrder(t.right));
  }

  // ---------------------------------------------------------------- insertion

  // The tree is in order, but for the red subtree in the hole, which may have a red parent.
  ghost predicate Pending(p: Path, t: Tree) {
    t.Branch? && t.color == Red && RedBlack(t) && RedBlackPath(p, BlackHeight(t))
  }

  // A new red leaf in the hole a search ended at.
  lemma PendingLeaf(p: Path, n: Node)
    requires Fits(p, Leaf)
    ensures Pending(p, Branch(Red, Leaf, n, Leaf))
    ensures Whole(p, Branch(Red, Leaf, n, Leaf)) == Before(p) + [n] + After(p)
    ensures Whole(p, Leaf) == Before(p) + After(p)
  {
    assert InOrder(Branch(Red, Leaf, n, Leaf)) == [n];
  }

  ghost function Depth(p: Path): nat {
    if p.Top? then 0 else 1 + Depth(p.up)
  }

  ghost function Grand(p: Path, t: Tree): Tree
    requires !p.Top? && !p.up.Top?
  {
    Around(p.up, Around(p, t))
  }

  // Parent and uncle black, grandparent red.
  ghost function Recolored(g: Tree): Tree
    requires g.Branch? && g.left.Branch? && g.right.Branch?
  {
    Branch(Red, g.left.(color := Black), g.node, g.right.(color := Black))
  }

  lemma RecolorKeepsPending(p: Path, t: Tree)
    requires Pending(p, t) && !p.Top? && p.color == Red && !p.up.Top?
    requires Grand(p, t).left.Branch? && Grand(p, t).left.color == Red
    requires Grand(p, t).right.Branch? && Grand(p, t).right.color == Red
    ensures Pending(p.up.up, Recolored(Grand(p, t)))
    ensures Whole(p.up.up, Recolored(Grand(p, t))) == Whole(p, t)
  {
    var g := Grand(p, t);
    assert RedBlackPath(p.up, BlackHeight(t)) && RedBlackPath(p.up.up, BlackHeight(t) + 1);
    assert RedBlack(g.left.(color := Black)) && RedBlack(g.right.(color := Black));
    WholeAround(p, t);
    WholeAround(p.up, Around(p, t));
    assert InOrder(Recolored(g)) == InOrder(g) by {
      assert InOrder(g.left.(color := Black)) == InOrder(g.left);
      assert InOrder(g.right.(color := Black)) == InOrder(g.right);
    }
  }

  // Parent black, grandparent red, then rotate the grandparent to the right.
  ghost function SettledRight(g: Tree): Tree
    requires g.Branch? && g.left.Branch?
  {
    RotatedRight(Branch(Red, g.left.(color := Black), g.node, g.right))
  }

  ghost function SettledLeft(g: Tree): Tree
    requires g.Branch? && g.right.Branch?
  {
    RotatedLeft(Branch(Red, g.left, g.node, g.right.(color := Black)))
  }

  // The grandparent once the parent has been rotated so that the red pair leans outwards.
  ghost function LeaningLeft(p: Path, t: Tree): Tree
    requires !p.Top? && p.up.LeftOf? && t.Branch?
  {
    Around(p.up, if p.RightOf? then RotatedLeft(Around(p, t)) else Around(p, t))
  }

  ghost function LeaningRight(p: Path, t: Tree): Tree
    requires !p.Top? && p.up.RightOf? && t.Branch?
  {
    Around(p.up, if p.LeftOf? then RotatedRight(Around(p, t)) else Around(p, t))
  }

  lemma SettleRightKeepsPending(p: Path, t: Tree)
    requires Pending(p, t) && !p.Top? && p.color == Red && p.up.LeftOf? && IsBlack(p.up.right)
    ensures LeaningLeft(p, t).left.Branch?
    ensures var u := SettledRight(LeaningLeft(p, t)); var q := LeftOf(u.color, u.node, u.right, p.up.up);
      Pending(q, u.left) && q.color == Black && Whole(q, u.left) == Whole(p, t) && u == Around(q, u.left)
  {
    var g := LeaningLeft(p, t);
    var h := Branch(Red, g.left.(color := Black), g.node, g.right);
    var u := SettledRight(g);
    WholeAround(p, t);
    WholeAround(p.up, Around(p, t));
    assert RedBlackPath(p.up, BlackHeight(t)) && RedBlackPath(p.up.up, BlackHeight(t) + 1);
    if p.RightOf? { RotatedLeftKeepsOrder(Around(p, t)); }
    RotatedRightKeepsOrder(h);
    assert InOrder(h.left) == InOrder(g.left);
    assert InOrder(u) == InOrder(Grand(p, t));
    WholeAround(LeftOf(u.color, u.node, u.right, p.up.up), u.left);
  }

  lemma SettleLeftKeepsPending(p: Path, t: Tree)
    requires Pending(p, t) && !p.Top? && p.color == Red && p.up.RightOf? && IsBlack(p.up.left)
    ensures LeaningRight(p, t).right.Branch?
    ensures var u := SettledLeft(LeaningRight(p, t)); var q := RightOf(u.color, u.left, u.node, p.up.up);
      Pending(q, u.right) && q.color == Black && Whole(q, u.right) == Whole(p, t) && u == Around(q, u.right)
  {
    var g := LeaningRight(p, t);
    var h := Branch(Red, g.left, g.node, g.right.(color := Black));
    var u := SettledLeft(g);
    WholeAround(p, t);
    WholeAround(p.up, Around(p, t));
    assert RedBlackPath(p.up, BlackHeight(t)) && RedBlackPath(p.up.up, BlackHeight(t) + 1);
    if p.LeftOf? { RotatedRightKeepsOrder(Around(p, t)); }
    RotatedLeftKeepsOrder(h);
    assert InOrder(h.right) == InOrder(g.right);
    assert InOrder(u) == InOrder(Grand(p, t));
    WholeAround(RightOf(u.color, u.left, u.node, p.up.up), u.right);
  }

  // ---------------------------------------------------------------- removal

  // The subtree in the hole is one black node short, and is in order but for a root that may be red.
  ghost predicate Deficient(p: Path, t: Tree) {
    RedBlackBelow(t) && RedBlackPath(p, BlackHeight(t) + 1)
  }

  // How far the loop still has to go.
  ghost function Remaining(p: Path, t: Tree): nat {
    if IsBlack(t) then 1 + Depth(p) else 0
  }

  ghost function Blackened(t: Tree): Tree {
    if t.Leaf? then Leaf else t.(color := Black)
  }

  ghost function Sibling(p: Path): Tree
    requires !p.Top?
  {
    if p.LeftOf? then p.right else p.left
  }

  // The sibling the loop reads is never null.
  lemma SiblingExists(p: Path, t: Tree)
    requires Deficient(p, t) && !p.Top?
    ensures Sibling(p).Branch?
  {}

  lemma BlackeningEnds(p: Path, t: Tree)
    requires Deficient(p, t) && (p.Top? || !IsBlack(t))
    ensures Fits(p, Blackened(t)) && Whole(p, Blackened(t)) == Whole(p, t)
  {}

  // A red sibling on the right: after the rotation the sibling is black.
  ghost function PastRedRight(p: Path): Path
    requires p.LeftOf? && p.right.Branch?
  {
    LeftOf(Red, p.node, p.right.left, LeftOf(Black, p.right.node, p.right.right, p.up))
  }

  lemma RedSiblingRight(p: Path, t: Tree)
    requires Deficient(p, t) && p.LeftOf? && p.right.Branch? && p.right.color == Red
    ensures Deficient(PastRedRight(p), t) && IsBlack(Sibling(PastRedRight(p)))
    ensures Whole(PastRedRight(p), t) == Whole(p, t)
    ensures SettledLeft(Around(p, t)) == Around(PastRedRight(p).up, Around(PastRedRight(p), t))
  {
    var r := p.right;
    assert InOrder(r) == InOrder(r.left) + [r.node] + InOrder(r.right);
    assert After(PastRedRight(p)) == After(p);
    assert Before(PastRedRight(p)) == Before(PastRedRight(p).up);
  }

  ghost function PastRedLeft(p: Path): Path
    requires p.RightOf? && p.left.Branch?
  {
    RightOf(Red, p.left.right, p.node, RightOf(Black, p.left.left, p.left.node, p.up))
  }

  lemma RedSiblingLeft(p: Path, t: Tree)
    requires Deficient(p, t) && p.RightOf? && p.left.Branch? && p.left.color == Red
    ensures Deficient(PastRedLeft(p), t) && IsBlack(Sibling(PastRedLeft(p)))
    ensures Whole(PastRedLeft(p), t) == Whole(p, t)
    ensures SettledRight(Around(p, t)) == Around(PastRedLeft(p).up, Around(PastRedLeft(p), t))
  {
    var l := p.left;
    assert InOrder(l) == InOrder(l.left) + [l.node] + InOrder(l.right);
    assert Before(PastRedLeft(p)) == Before(p);
    assert After(PastRedLeft(p)) == After(PastRedLeft(p).up);
  }

  // A black sibling with black children turns red, and the deficiency moves up.
  lemma BlackNephews(p: Path, t: Tree)
    requires Deficient(p, t) && !p.Top? && IsBlack(t) && Sibling(p).Branch? && Sibling(p).color == Black
    requires IsBlack(Sibling(p).left) && IsBlack(Sibling(p).right)
    ensures var q := if p.LeftOf? then p.(right := p.right.(color := Red)) else p.(left := p.left.(color := Red));
      Deficient(p.up, Around(q, t)) && Whole(p.up, Around(q, t)) == Whole(p, t)
  {
    var q := if p.LeftOf? then p.(right := p.right.(color := Red)) else p.(left := p.left.(color := Red));
    WholeAround(q, t);
    assert InOrder(Sibling(q)) == InOrder(Sibling(p));
  }

  // The nephew on the near side is red: one rotation moves the red to the far side.
  lemma NearNephewRight(p: Path, t: Tree)
    requires Deficient(p, t) && p.LeftOf? && p.right.Branch? && p.right.color == Black
    requires IsBlack(p.right.right) && !IsBlack(p.right.left)
    ensures var q := p.(right := SettledRight(p.right));
      && Deficient(q, t) && Whole(q, t) == Whole(p, t)
      && q.right.color == Black && !IsBlack(q.right.right)
  {
    var h := Branch(Red, p.right.left.(color := Black), p.right.node, p.right.right);
    assert InOrder(h.left) == InOrder(p.right.left);
    RotatedRightKeepsOrder(h);
    var u := SettledRight(p.right);
    assert RedBlack(p.right) && RedBlack(p.right.left) && RedBlack(u.right);
    assert RedBlack(u) && BlackHeight(u) == BlackHeight(p.right);
  }

  lemma NearNephewLeft(p: Path, t: Tree)
    requires Deficient(p, t) && p.RightOf? && p.left.Branch? && p.left.color == Black
    requires IsBlack(p.left.left) && !IsBlack(p.left.right)
    ensures var q := p.(left := SettledLeft(p.left));
      && Deficient(q, t) && Whole(q, t) == Whole(p, t)
      && q.left.color == Black && !IsBlack(q.left.left)
  {
    var h := Branch(Red, p.left.left, p.left.node, p.left.right.(color := Black));
    assert InOrder(h.right) == InOrder(p.left.right);
    RotatedLeftKeepsOrder(h);
    var u := SettledLeft(p.left);
    assert RedBlack(p.left) && RedBlack(p.left.right) && RedBlack(u.left);
    assert RedBlack(u) && BlackHeight(u) == BlackHeight(p.left);
  }

  // The nephew on the far side is red: recolour, rotate the parent, done.
  ghost function RaisedLeft(p: Path, t: Tree): Tree
    requires p.LeftOf? && p.right.Branch? && p.right.right.Branch?
  {
    var r := p.right;
    RotatedLeft(Branch(Black, t, p.node, Branch(p.color, r.left, r.node, r.right.(color := Black))))
  }

  lemma FarNephewRight(p: Path, t: Tree)
    requires Deficient(p, t) && IsBlack(t) && p.LeftOf? && p.right.Branch? && p.right.color == Black
    requires !IsBlack(p.right.right)
    ensures Fits(p.up, RaisedLeft(p, t)) && Whole(p.up, RaisedLeft(p, t)) == Whole(p, t)
  {
    var r := p.right;
    var r' := Branch(p.color, r.left, r.node, r.right.(color := Black));
    var s := Branch(Black, t, p.node, r');
    WholeAround(p, t);
    assert InOrder(r'.right) == InOrder(r.right);
    assert InOrder(r') == InOrder(r);
    RotatedLeftKeepsOrder(s);
    assert RedBlack(r) && RedBlack(r.right) && RedBlack(r'.right) && RedBlack(RotatedLeft(s).left);
  }

  ghost function RaisedRight(p: Path, t: Tree): Tree
    requires p.RightOf? && p.left.Branch? && p.left.left.Branch?
  {
    var l := p.left;
    RotatedRight(Branch(Black, Branch(p.color, l.left.(color := Black), l.node, l.right), p.node, t))
  }

  lemma FarNephewLeft(p: Path, t: Tree)
    requires Deficient(p, t) && IsBlack(t) && p.RightOf? && p.left.Branch? && p.left.color == Black
    requires !IsBlack(p.left.left)
    ensures Fits(p.up, RaisedRight(p, t)) && Whole(p.up, RaisedRight(p, t)) == Whole(p, t)
  {
    var l := p.left;
    var l' := Branch(p.color, l.left.(color := Black), l.node, l.right);
    var s := Branch(Black, l', p.node, t);
    WholeAround(p, t);
    assert InOrder(l'.left) == InOrder(l.left);
    assert InOrder(l') == InOrder(l);
    RotatedRightKeepsOrder(s);
    assert RedBlack(l) && RedBlack(l.left) && RedBlack(l'.left) && RedBlack(RotatedRight(s).right);
  }

  // ---------------------------------------------------------------- taking a node out

  ghost function Append(q: Path, base: Path): Path {
    match q
    case Top => base
    case LeftOf(c, n, r, up) => LeftOf(c, n, r, Append(up, base))
    case RightOf(c, l, n, up) => RightOf(c, l, n, Append(up, base))
  }

  lemma {:induction false} PlugAppend(q: Path, base: Path, t: Tree)
    ensures Plug(Append(q, base), t) == Plug(base, Plug(q, t))
  {
    if !q.Top? { PlugAppend(q.up, base, Around(q, t)); }
  }

  // Down the left side only.
  ghost predicate LeftSpine(q: Path) {
    q.Top? || (q.LeftOf? && LeftSpine(q.up))
  }

  lemma {:induction false} NothingBefore(q: Path)
    requires LeftSpine(q)
    ensures Before(q) == []
  {
    if !q.Top? { NothingBefore(q.up); }
  }

  ghost predicate RightSpine(q: Path) {
    q.Top? || (q.RightOf? && RightSpine(q.up))
  }

  lemma {:induction false} NothingAfter(q: Path)
    requires RightSpine(q)
    ensures After(q) == []
  {
    if !q.Top? { NothingAfter(q.up); }
  }

  ghost function First(s: seq<Node>): Node? {
    if s == [] then null else s[0]
  }

  // What follows the node in focus, at every place it has in the order.
  lemma FollowedBy(p: Path, t: Tree, w: seq<Node>)
    requires t.Branch? && w == Whole(p, t) && Ascending(w)
    ensures forall i | 0 <= i < |w| && w[i] == t.node :: w[i + 1..] == InOrder(t.right) + After(p)
  {
    var k := |Before(p)| + |InOrder(t.left)|;
    assert w == (Before(p) + InOrder(t.left)) + [t.node] + (InOrder(t.right) + After(p));
    assert w[k] == t.node;
    forall i | 0 <= i < |w| && w[i] == t.node ensures i == k {}
  }

  // Which node sits on the path does not matter for the colours.
  lemma {:induction false} OtherNodeSameColors(q: Path, c: Color, l: Tree, n: Node, n': Node, p: Path, h: nat)
    ensures RedBlackPath(Append(q, RightOf(c, l, n', p)), h) <==> RedBlackPath(Append(q, RightOf(c, l, n, p)), h)
    ensures AcceptsRed(Append(q, RightOf(c, l, n', p))) <==> AcceptsRed(Append(q, RightOf(c, l, n, p)))
  {
    if !q.Top? {
      OtherNodeSameColors(q.up, c, l, n, n', p, h + if q.color == Black then 1 else 0);
      AppendColor(q.up, RightOf(c, l, n, p), RightOf(c, l, n', p));
    }
  }

  lemma AppendColor(q: Path, b: Path, b': Path)
    requires !b.Top? && !b'.Top? && b.color == b'.color
    ensures !Append(q, b).Top? && !Append(q, b').Top? && Append(q, b).color == Append(q, b').color
  {}

  // Without a node that has at most one child, the tree is in order or one black node short.
  lemma SplicedOut(p: Path, t: Tree, c: Tree)
    requires Fits(p, t) && t.Branch?
    requires (t.left.Leaf? && c == t.right) || (t.right.Leaf? && c == t.left)
    ensures if t.color == Red then Fits(p, c) else Deficient(p, c)
  {
    assert RedBlack(c) && RedBlackBelow(c);
  }

  // s1 is s0 without n.
  ghost predicate Removed(s0: seq<Node>, s1: seq<Node>, n: Node) {
    exists i :: 0 <= i < |s0| && s0[i] == n && s1 == s0[..i] + s0[i + 1..]
  }

  lemma RemovedBetween(a: seq<Node>, l: seq<Node>, n: Node, r: seq<Node>, z: seq<Node>)
    ensures Removed(a + (l + [n] + r) + z, a + (l + r) + z, n)
  {
    var s, i := a + (l + [n] + r) + z, |a| + |l|;
    assert s[i] == n && s[..i] == a + l && s[i + 1..] == r + z;
    assert a + (l + r) + z == (a + l) + (r + z);
  }

  lemma RemovedAscending(s0: seq<Node>, s1: seq<Node>, n: Node)
    requires Removed(s0, s1, n) && Ascending(s0)
    ensures Ascending(s1)
  {}

  lemma WholeSpliced(p: Path, t: Tree, c: Tree)
    requires t.Branch? && ((t.left.Leaf? && c == t.right) || (t.right.Leaf? && c == t.left))
    ensures Removed(Whole(p, t), Whole(p, c), t.node)
  {
    RemovedBetween(Before(p), InOrder(t.left), t.node, InOrder(t.right), After(p));
    assert InOrder(c) == InOrder(t.left) + InOrder(t.right);
  }

  // t without its node, whose place goes to the first node of the right subtree, found along q.
  lemma WholeSucceeded(p: Path, t: Tree, q: Path, u: Tree)
    requires t.Branch? && LeftSpine(q) && u.Branch? && u.left.Leaf? && Plug(q, u) == t.right
    ensures Removed(Whole(p, t), Whole(p, Branch(t.color, t.left, u.node, Plug(q, u.right))), t.node)
  {
    hide InOrder, Before, After, Plug, LeftSpine, Removed;
    var l, r, r' := InOrder(t.left), InOrder(t.right), InOrder(Plug(q, u.right));
    OrderOf(t);
    OrderOf(Branch(t.color, t.left, u.node, Plug(q, u.right)));
    SuccessorFirst(q, u);
    RemovedBetween(Before(p), l, t.node, r, After(p));
    assert l + r == l + [u.node] + r';
  }

  lemma SuccessorFirst(q: Path, u: Tree)
    requires LeftSpine(q) && u.Branch? && u.left.Leaf?
    ensures InOrder(Plug(q, u)) == [u.node] + InOrder(Plug(q, u.right))
  {
    assert InOrder(u) == [u.node] + InOrder(u.right);
    hide InOrder, Before, Plug, LeftSpine;
    NothingBefore(q);
    WholeOfPlug(q, u);
    WholeOfPlug(q, u.right);
    assert [] + ([u.node] + InOrder(u.right)) + After(q) == [u.node] + ([] + InOrder(u.right) + After(q));
  }

  lemma {:induction false} NodeOfPlug(q: Path, u: Tree)
    ensures NodesOf(u) <= NodesOf(Plug(q, u))
    ensures !q.Top? ==> q.node in NodesOf(Plug(q, u))
  {
    if !q.Top? { NodeOfPlug(q.up, Around(q, u)); }
  }

  lemma {:induction false} WholeAppend(q: Path, base: Path, t: Tree)
    ensures Whole(Append(q, base), t) == Whole(base, Plug(q, t))
  {
    PlugAppend(q, base, t);
    WholeOfPlug(Append(q, base), t);
    WholeOfPlug(base, Plug(q, t));
  }

  lemma SameWithSuccessor(q: Path, c: Color, l: Tree, n: Node, n': Node, p: Path, t: Tree, color: Color)
    requires var w := Append(q, RightOf(c, l, n, p)); if color == Red then Fits(w, t) else Deficient(w, t)
    ensures var w := Append(q, RightOf(c, l, n', p)); if color == Red then Fits(w, t) else Deficient(w, t)
  {
    OtherNodeSameColors(q, c, l, n, n', p, BlackHeight(t));
    OtherNodeSameColors(q, c, l, n, n', p, BlackHeight(t) + 1);
  }

  // Where the end of the way down hangs once s is in the place of the removed node.
  lemma SpineParent(q: Path, p: Path, t: Tree, u: Tree, s: Node)
    requires t.Branch? && Plug(q, u) == t.right && Distinct(t)
    ensures var before := ParentOf(Append(q, RightOf(t.color, t.left, t.node, p)));
      ParentOf(Append(q, RightOf(t.color, t.left, s, p))) == if before == t.node then s else before
  {
    if !q.Top? { NodeOfPlug(q, u); }
  }

  lemma SuccessorElsewhere(q: Path, u: Tree, t: Tree)
    requires t.Branch? && Distinct(t) && u.Branch? && Plug(q, u) == t.right
    ensures u.node != t.node
  {
    NodeOfPlug(q, u);
    assert u.node in NodesOf(u);
  }

  // The tree once the successor is in the place of the removed node, seen from the end of the way down.
  lemma Succeeded(p: Path, t: Tree, q: Path, u: Tree, color: Color)
    requires t.Branch? && Distinct(t)
    requires LeftSpine(q) && u.Branch? && u.left.Leaf? && Plug(q, u) == t.right
    requires var w := Append(q, RightOf(t.color, t.left, t.node, p));
      if color == Red then Fits(w, u.right) else Deficient(w, u.right)
    ensures u.node != t.node
    ensures var before := ParentOf(Append(q, RightOf(t.color, t.left, t.node, p)));
      ParentOf(Append(q, RightOf(t.color, t.left, u.node, p))) == if before == t.node then u.node else before
    ensures var w := Append(q, RightOf(t.color, t.left, u.node, p));
      && (if color == Red then Fits(w, u.right) else Deficient(w, u.right))
      && Removed(Whole(p, t), Whole(w, u.right), t.node)
  {
    hide Fits, Deficient, Whole, Removed, Distinct, Plug, Append, LeftSpine;
    SuccessorElsewhere(q, u, t);
    SpineParent(q, p, t, u, u.node);
    WholeSucceeded(p, t, q, u);
    WholeAround(RightOf(t.color, t.left, u.node, p), Plug(q, u.right));
    WholeAppend(q, RightOf(t.color, t.left, u.node, p), u.right);
    SameWithSuccessor(q, t.color, t.left, t.node, u.node, p, u.right, color);
  }

  // Every node of a tree is at some position of it.
  lemma {:induction false} Locate(p0: Path, t0: Tree, n: Node) returns (p: Path, t: Tree)
    requires n in NodesOf(t0)
    ensures t.Branch? && t.node == n && Plug(p, t) == Plug(p0, t0)
    decreases t0
  {
    if t0.node == n {
      p, t := p0, t0;
    } else if n in NodesOf(t0.left) {
      p, t := Locate(LeftOf(t0.color, t0.node, t0.right, p0), t0.left, n);
    } else {
      p, t := Locate(RightOf(t0.color, t0.left, t0.node, p0), t0.right, n);
    }
  }
}
