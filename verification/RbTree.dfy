// RB_ROTATE_*, RB_INSERT*, RB_REMOVE*, RB_FIND, RB_MINMAX and RB_NEXT on linked nodes
// (compat/generic/sys/tree.h).
module RbTree {
  import opened RbShape
  import opened RbFixup

  // The nodes of t are linked as t says, under the given parent.
  ghost predicate Linked(t: Tree, parent: Node?)
    reads NodesOf(t)
  {
    match t
    case Leaf => true
    case Branch(c, l, n, r) =>
      && n.color == c && n.left == Root(l) && n.right == Root(r) && n.parent == parent
      && Linked(l, n) && Linked(r, n)
  }

  // The nodes around a hole are linked as p says, with `hole` as the child there.
  ghost predicate LinkedPath(p: Path, hole: Node?, root: Node?)
    reads PathNodes(p)
  {
    match p
    case Top => root == hole
    case LeftOf(c, n, r, up) =>
      && n.color == c && n.left == hole && n.right == Root(r) && n.parent == ParentOf(up)
      && Linked(r, n) && LinkedPath(up, n, root)
    case RightOf(c, l, n, up) =>
      && n.color == c && n.left == Root(l) && n.right == hole && n.parent == ParentOf(up)
      && Linked(l, n) && LinkedPath(up, n, root)
  }

  lemma Unfold(t: Tree, parent: Node?)
    requires t.Branch?
    ensures Linked(t, parent) <==>
      && t.node.color == t.color && t.node.left == Root(t.left) && t.node.right == Root(t.right)
      && t.node.parent == parent && Linked(t.left, t.node) && Linked(t.right, t.node)
  {}

  // The pieces a rotation at t moves around: x with subtree a, y with subtrees b and d, and the rest of the tree.
  ghost predicate Apart(p: Path, x: Node, y: Node, a: Tree, b: Tree, d: Tree) {
    && DistinctPath(p) && Distinct(a) && Distinct(b) && Distinct(d)
    && x != y
    && x !in NodesOf(a) && x !in NodesOf(b) && x !in NodesOf(d) && x !in PathNodes(p)
    && y !in NodesOf(a) && y !in NodesOf(b) && y !in NodesOf(d) && y !in PathNodes(p)
    && NodesOf(a) !! NodesOf(b) && NodesOf(a) !! NodesOf(d) && NodesOf(b) !! NodesOf(d)
    && NodesOf(a) !! PathNodes(p) && NodesOf(b) !! PathNodes(p) && NodesOf(d) !! PathNodes(p)
  }

  lemma UnfoldNodes(t: Tree)
    requires t.Branch?
    ensures NodesOf(t) == NodesOf(t.left) + {t.node} + NodesOf(t.right)
    ensures Distinct(t) <==>
      && Distinct(t.left) && Distinct(t.right)
      && t.node !in NodesOf(t.left) && t.node !in NodesOf(t.right)
      && NodesOf(t.left) !! NodesOf(t.right)
  {}

  lemma ApartLeft(p: Path, t: Tree)
    requires t.Branch? && t.right.Branch?
    ensures Separate(p, t) <==> Apart(p, t.node, t.right.node, t.left, t.right.left, t.right.right)
    ensures NodesOf(t) == NodesOf(t.left) + {t.node, t.right.node} + NodesOf(t.right.left) + NodesOf(t.right.right)
  {
    hide NodesOf, Distinct, DistinctPath, PathNodes;
    UnfoldNodes(t);
    UnfoldNodes(t.right);
  }

  lemma ApartRight(p: Path, t: Tree)
    requires t.Branch? && t.left.Branch?
    ensures Separate(p, t) <==> Apart(p, t.left.node, t.node, t.left.left, t.left.right, t.right)
    ensures NodesOf(t) == NodesOf(t.left.left) + {t.left.node, t.node} + NodesOf(t.left.right) + NodesOf(t.right)
  {
    hide NodesOf, Distinct, DistinctPath, PathNodes;
    UnfoldNodes(t);
    UnfoldNodes(t.left);
  }

  lemma ApartPlace(p: Path, t: Tree, s: Node)
    requires t.Branch? && Separate(p, t) && s !in PathNodes(p) + NodesOf(t)
    ensures Separate(p, t.(node := s))
    ensures PathNodes(p) + NodesOf(t.(node := s)) == PathNodes(p) + NodesOf(t) - {t.node} + {s}
    ensures DistinctPath(p) && Distinct(t.left) && Distinct(t.right)
    ensures s !in PathNodes(p) && s !in NodesOf(t.left) && s !in NodesOf(t.right)
    ensures t.node !in PathNodes(p) && t.node !in NodesOf(t.left) && t.node !in NodesOf(t.right)
    ensures NodesOf(t.left) !! NodesOf(t.right) && NodesOf(t.left) !! PathNodes(p) && NodesOf(t.right) !! PathNodes(p)
    ensures NodesOf(t.left) <= NodesOf(t) && NodesOf(t.right) <= NodesOf(t) && t.node in NodesOf(t)
  {
    hide NodesOf, Distinct, DistinctPath, PathNodes;
    UnfoldNodes(t);
    UnfoldNodes(t.(node := s));
  }

  class Table {
    var root: Node?
    ghost var repr: set<Node>
    ghost var tree: Tree

    ghost predicate Valid()
      reads this, NodesOf(tree)
    {
      At(Top, tree) && Fits(Top, tree) && Ascending(InOrder(tree))
    }

    constructor ()
      ensures Valid() && InOrder(tree) == []
    {
      root, repr, tree := null, {}, Leaf;
    }

    // The linked nodes form the tree Plug(p, t).
    ghost predicate At(p: Path, t: Tree)
      reads this`root, this`repr, PathNodes(p), NodesOf(t)
    {
      PathNodes(p) + NodesOf(t) == repr && Separate(p, t) && Linked(t, ParentOf(p)) && LinkedPath(p, Root(t), root)
    }

    lemma AtAround(p: Path, t: Tree)
      requires !p.Top?
      ensures At(p, t) <==> At(p.up, Around(p, t))
    {
      SeparateAround(p, t);
    }

    lemma {:induction false} AtPlug(p: Path, t: Tree)
      ensures At(p, t) <==> At(Top, Plug(p, t))
    {
      if !p.Top? {
        AtAround(p, t);
        AtPlug(p.up, Around(p, t));
      }
    }

    // RB_COLOR(n) = c
    method Paint(n: Node, c: Color, ghost p: Path, ghost t: Tree)
      requires At(p, t) && t.Branch? && t.node == n
      modifies repr
      ensures At(p, t.(color := c))
    {
      n.color := c;
    }

    // The child, if there is one, gets another parent.
    method Reparent(child: Node?, parent: Node?, ghost t: Tree, ghost before: Node?)
      requires child == Root(t) && Distinct(t) && Linked(t, before)
      modifies NodesOf(t)
      ensures Linked(t, parent) && root == old(root)
    {
      if child != null {
        child.parent := parent;
      }
    }

    // Point the parent of elm, or the root, to child instead.
    method ReplaceChild(parent: Node?, elm: Node, child: Node?, ghost p: Path)
      requires parent == ParentOf(p) && DistinctPath(p) && elm !in PathNodes(p)
      requires LinkedPath(p, elm, root)
      modifies this`root, PathNodes(p)
      ensures LinkedPath(p, child, root)
    {
      if parent != null {
        assert p.RightOf? && p.left.Branch? ==> p.left.node in NodesOf(p.left);
        if parent.left == elm {
          parent.left := child;
        } else {
          parent.right := child;
        }
      } else {
        root := child;
      }
    }

    method RotateLeft(elm: Node, ghost p: Path, ghost t: Tree)
      requires At(p, t) && t.Branch? && t.node == elm && t.right.Branch?
      modifies this`root, repr
      ensures At(p, RotatedLeft(t))
    {
      hide Linked, LinkedPath, Separate, Distinct, DistinctPath, NodesOf, PathNodes;
      ghost var s, u := t.right, RotatedLeft(t);
      ghost var a, b, d := t.left, s.left, s.right;
      ApartLeft(p, t);
      ApartRight(p, u);
      Unfold(t, ParentOf(p));
      Unfold(s, elm);
      var tmp := elm.right;
      elm.right := tmp.left;
      Reparent(tmp.left, elm, b, tmp);
      tmp.parent := elm.parent;
      ReplaceChild(tmp.parent, elm, tmp, p);
      tmp.left := elm;
      elm.parent := tmp;
      Unfold(u.left, tmp);
      Unfold(u, ParentOf(p));
    }

    method RotateRight(elm: Node, ghost p: Path, ghost t: Tree)
      requires At(p, t) && t.Branch? && t.node == elm && t.left.Branch?
      modifies this`root, repr
      ensures At(p, RotatedRight(t))
    {
      hide Linked, LinkedPath, Separate, Distinct, DistinctPath, NodesOf, PathNodes;
      ghost var s, u := t.left, RotatedRight(t);
      ghost var a, b, d := s.left, s.right, t.right;
      ApartRight(p, t);
      ApartLeft(p, u);
      Unfold(t, ParentOf(p));
      Unfold(s, elm);
      var tmp := elm.left;
      elm.left := tmp.right;
      Reparent(tmp.right, elm, b, tmp);
      tmp.parent := elm.parent;
      ReplaceChild(tmp.parent, elm, tmp, p);
      tmp.right := elm;
      elm.parent := tmp;
      Unfold(u.right, tmp);
      Unfold(u, ParentOf(p));
    }

    // ---------------------------------------------------------------- looking around

    // What the links of the node in focus and of its parent say.
    lemma Neighbours(p: Path, t: Tree)
      requires At(p, t) && t.Branch?
      ensures
        && t.node in repr && t.node.color == t.color
        && t.node.left == Root(t.left) && t.node.right == Root(t.right) && t.node.parent == ParentOf(p)
    {}

    // The parent points to the subtree in focus on the side the path says, and to something else on the other.
    lemma ParentLinks(p: Path, t: Tree)
      requires At(p, t) && !p.Top?
      ensures
        && p.node in repr && p.node.color == p.color && p.node.parent == ParentOf(p.up)
        && match p {
             case LeftOf(_, n, r, _) => n.left == Root(t) && n.right == Root(r) && (t.Branch? ==> n.right != Root(t))
             case RightOf(_, l, n, _) => n.left == Root(l) && n.right == Root(t) && (t.Branch? ==> n.left != Root(t))
           }
    {
      assert p.LeftOf? && p.right.Branch? ==> p.right.node in NodesOf(p.right);
      assert p.RightOf? && p.left.Branch? ==> p.left.node in NodesOf(p.left);
    }

    // RB_COLOR of a child
    method PaintLeft(n: Node, c: Color, ghost p: Path, ghost t: Tree)
      requires At(p, t) && t.Branch? && t.left.Branch? && t.left.node == n
      modifies repr
      ensures At(p, t.(left := t.left.(color := c)))
    {
      ghost var q := LeftOf(t.color, t.node, t.right, p);
      AtAround(q, t.left);
      Paint(n, c, q, t.left);
      AtAround(q, t.left.(color := c));
    }

    method PaintRight(n: Node, c: Color, ghost p: Path, ghost t: Tree)
      requires At(p, t) && t.Branch? && t.right.Branch? && t.right.node == n
      modifies repr
      ensures At(p, t.(right := t.right.(color := c)))
    {
      ghost var q := RightOf(t.color, t.left, t.node, p);
      AtAround(q, t.right);
      Paint(n, c, q, t.right);
      AtAround(q, t.right.(color := c));
    }

    lemma ChildColors(p: Path, t: Tree)
      requires At(p, t) && t.Branch?
      ensures t.left.Branch? ==> t.left.node in repr && t.left.node.color == t.left.color
      ensures t.right.Branch? ==> t.right.node in repr && t.right.node.color == t.right.color
    {
      assert Linked(t.left, t.node) && Linked(t.right, t.node);
      assert t.left.Branch? ==> t.left.node in NodesOf(t.left);
      assert t.right.Branch? ==> t.right.node in NodesOf(t.right);
    }

    // ---------------------------------------------------------------- RB_INSERT_COLOR

    // Parent and uncle become black, the grandparent red.
    method RecolorUncleRight(parent: Node, uncle: Node, gparent: Node, ghost p: Path, ghost g: Tree)
      requires At(p, g) && g.Branch? && g.node == gparent
      requires g.left.Branch? && g.left.node == parent && g.right.Branch? && g.right.node == uncle
      modifies repr
      ensures At(p, Recolored(g))
    {
      hide At;
      PaintRight(uncle, Black, p, g);
      ghost var g1 := g.(right := g.right.(color := Black));
      PaintLeft(parent, Black, p, g1);
      Paint(gparent, Red, p, g1.(left := g.left.(color := Black)));
    }

    method RecolorUncleLeft(parent: Node, uncle: Node, gparent: Node, ghost p: Path, ghost g: Tree)
      requires At(p, g) && g.Branch? && g.node == gparent
      requires g.left.Branch? && g.left.node == uncle && g.right.Branch? && g.right.node == parent
      modifies repr
      ensures At(p, Recolored(g))
    {
      hide At;
      PaintLeft(uncle, Black, p, g);
      ghost var g1 := g.(left := g.left.(color := Black));
      PaintRight(parent, Black, p, g1);
      Paint(gparent, Red, p, g1.(right := g.right.(color := Black)));
    }

    method SettleRight(top: Node, gparent: Node, ghost p: Path, ghost g: Tree)
      requires At(p, g) && g.Branch? && g.node == gparent && g.left.Branch? && g.left.node == top
      modifies this`root, repr
      ensures At(p, SettledRight(g))
    {
      hide At;
      PaintLeft(top, Black, p, g);
      ghost var g1 := g.(left := g.left.(color := Black));
      Paint(gparent, Red, p, g1);
      RotateRight(gparent, p, g1.(color := Red));
    }

    method SettleLeft(top: Node, gparent: Node, ghost p: Path, ghost g: Tree)
      requires At(p, g) && g.Branch? && g.node == gparent && g.right.Branch? && g.right.node == top
      modifies this`root, repr
      ensures At(p, SettledLeft(g))
    {
      hide At;
      PaintRight(top, Black, p, g);
      ghost var g1 := g.(right := g.right.(color := Black));
      Paint(gparent, Red, p, g1);
      RotateLeft(gparent, p, g1.(color := Red));
    }

    // One turn of the loop when the parent is a left child.
    method InsertFixLeft(elm: Node, parent: Node, gparent: Node, ghost p: Path, ghost t: Tree)
      returns (next: Node, ghost q: Path, ghost u: Tree)
      requires At(p, t) && Pending(p, t) && t.node == elm
      requires !p.Top? && p.color == Red && p.node == parent && p.up.LeftOf? && p.up.node == gparent
      modifies this`root, repr
      ensures At(q, u) && Pending(q, u) && u.node == next
      ensures Whole(q, u) == Whole(p, t) && Depth(q) < Depth(p)
    {
      ParentLinks(p, t);
      hide At, RedBlack, RedBlackPath, BlackHeight, Whole;
      ghost var pp, s, g := p.up.up, Around(p, t), Grand(p, t);
      AtAround(p, t);
      AtAround(p.up, s);
      Neighbours(pp, g);
      ChildColors(pp, g);
      var tmp := gparent.right;
      if tmp != null && tmp.color == Red {
        RecolorUncleRight(parent, tmp, gparent, pp, g);
        RecolorKeepsPending(p, t);
        next, q, u := gparent, pp, Recolored(g);
      } else {
        next := elm;
        var top := parent;
        if parent.right == elm {
          RotateLeft(parent, p.up, s);
          s := RotatedLeft(s);
          next, top := parent, elm;
        }
        g := LeaningLeft(p, t);
        AtAround(p.up, s);
        SettleRightKeepsPending(p, t);
        SettleRight(top, gparent, pp, g);
        g := SettledRight(g);
        q, u := LeftOf(g.color, g.node, g.right, pp), g.left;
        AtAround(q, u);
      }
    }

    // One turn of the loop when the parent is a right child.
    method InsertFixRight(elm: Node, parent: Node, gparent: Node, ghost p: Path, ghost t: Tree)
      returns (next: Node, ghost q: Path, ghost u: Tree)
      requires At(p, t) && Pending(p, t) && t.node == elm
      requires !p.Top? && p.color == Red && p.node == parent && p.up.RightOf? && p.up.node == gparent
      modifies this`root, repr
      ensures At(q, u) && Pending(q, u) && u.node == next
      ensures Whole(q, u) == Whole(p, t) && Depth(q) < Depth(p)
    {
      ParentLinks(p, t);
      hide At, RedBlack, RedBlackPath, BlackHeight, Whole;
      ghost var pp, s, g := p.up.up, Around(p, t), Grand(p, t);
      AtAround(p, t);
      AtAround(p.up, s);
      Neighbours(pp, g);
      ChildColors(pp, g);
      var tmp := gparent.left;
      if tmp != null && tmp.color == Red {
        RecolorUncleLeft(parent, tmp, gparent, pp, g);
        RecolorKeepsPending(p, t);
        next, q, u := gparent, pp, Recolored(g);
      } else {
        next := elm;
        var top := parent;
        if parent.left == elm {
          RotateRight(parent, p.up, s);
          s := RotatedRight(s);
          next, top := parent, elm;
        }
        g := LeaningRight(p, t);
        AtAround(p.up, s);
        SettleLeftKeepsPending(p, t);
        SettleLeft(top, gparent, pp, g);
        g := SettledLeft(g);
        q, u := RightOf(g.color, g.left, g.node, pp), g.right;
        AtAround(q, u);
      }
    }

    method InsertColor(elm: Node, ghost p0: Path, ghost t0: Tree) returns (ghost tree: Tree)
      requires At(p0, t0) && Pending(p0, t0) && t0.node == elm
      modifies this`root, repr
      ensures At(Top, tree) && Fits(Top, tree) && InOrder(tree) == Whole(p0, t0)
    {
      var e := elm;
      ghost var p, t := p0, t0;
      Neighbours(p, t);
      while e.parent != null && e.parent.color == Red
        invariant At(p, t) && Pending(p, t) && t.node == e && e in repr && e.parent == ParentOf(p)
        invariant Whole(p, t) == Whole(p0, t0)
        decreases Depth(p)
      {
        var parent := e.parent;
        ParentLinks(p, t);
        var gparent := parent.parent;
        AtAround(p, t);
        ParentLinks(p.up, Around(p, t));
        if parent == gparent.left {
          e, p, t := InsertFixLeft(e, parent, gparent, p, t);
        } else {
          e, p, t := InsertFixRight(e, parent, gparent, p, t);
        }
        Neighbours(p, t);
      }
      tree := BlackenRoot(p, t);
    }

    // RB_COLOR(head->rbh_root) = RB_BLACK, once the parent of the red subtree is black.
    method BlackenRoot(ghost p: Path, ghost t: Tree) returns (ghost tree: Tree)
      requires At(p, t) && Pending(p, t) && (p.Top? || AcceptsRed(p))
      modifies repr
      ensures At(Top, tree) && Fits(Top, tree) && InOrder(tree) == Whole(p, t)
    {
      ghost var whole := Plug(p, t);
      AtPlug(p, t);
      PlugBranch(p, t);
      WholeOfPlug(p, t);
      FitsPlug(p, t);
      Paint(root, Black, Top, whole);
      tree := whole.(color := Black);
    }

    // ---------------------------------------------------------------- RB_FIND and RB_INSERT

    lemma NodesAreContents()
      requires Valid()
      ensures forall n :: n in repr <==> n in InOrder(tree)
    {
      NodesInOrder(tree);
    }

    // Where a search for key stands: the subtree in focus is what remains to be searched.
    ghost predicate Searching(p: Path, t: Tree, key: int)
      reads this, PathNodes(p), NodesOf(t)
    {
      At(p, t) && Plug(p, t) == tree && Brackets(p, key)
    }

    lemma SearchEnds(p: Path, t: Tree, key: int)
      requires Valid() && Searching(p, t, key) && t.Leaf?
      ensures forall n | n in InOrder(tree) :: n.key != key
    {
      NodesAreContents();
      WholeOfPlug(p, t);
    }

    lemma SearchLeft(p: Path, t: Tree, key: int)
      requires Valid() && Searching(p, t, key) && t.Branch? && key < t.node.key
      ensures Searching(LeftOf(t.color, t.node, t.right, p), t.left, key)
    {
      WholeOfPlug(p, t);
      BracketsLeft(p, t, key);
      AtAround(LeftOf(t.color, t.node, t.right, p), t.left);
    }

    lemma SearchRight(p: Path, t: Tree, key: int)
      requires Valid() && Searching(p, t, key) && t.Branch? && t.node.key < key
      ensures Searching(RightOf(t.color, t.left, t.node, p), t.right, key)
    {
      WholeOfPlug(p, t);
      BracketsRight(p, t, key);
      AtAround(RightOf(t.color, t.left, t.node, p), t.right);
    }

    method Find(key: nat) returns (found: Node?)
      requires Valid()
      ensures found != null ==> found in InOrder(tree) && found.key == key
      ensures found == null ==> forall n | n in InOrder(tree) :: n.key != key
    {
      var tmp := root;
      ghost var p, t := Top, tree;
      NodesAreContents();
      hide At, Fits, Plug, Brackets, InOrder, Ascending;
      while tmp != null
        invariant Searching(p, t, key) && tmp == Root(t)
        decreases t
      {
        Neighbours(p, t);
        if key < tmp.key {
          SearchLeft(p, t, key);
          p, t := LeftOf(t.color, t.node, t.right, p), t.left;
          tmp := tmp.left;
        } else if key > tmp.key {
          SearchRight(p, t, key);
          p, t := RightOf(t.color, t.left, t.node, p), t.right;
          tmp := tmp.right;
        } else {
          return tmp;
        }
      }
      SearchEnds(p, t, key);
      return null;
    }

    // Link the new red leaf elm below parent, or as the root.
    method LinkLeaf(elm: Node, parent: Node?, comp: int, ghost p: Path)
      requires At(p, Leaf) && elm !in repr && parent == ParentOf(p)
      requires !p.Top? ==> (comp < 0 <==> p.LeftOf?)
      modifies this`root, this`repr, repr, elm
      ensures repr == old(repr) + {elm} && At(p, Branch(Red, Leaf, elm, Leaf))
    {
      elm.parent, elm.left, elm.right, elm.color := parent, null, null, Red;
      if parent != null {
        if comp < 0 {
          parent.left := elm;
        } else {
          parent.right := elm;
        }
      } else {
        root := elm;
      }
      repr := repr + {elm};
    }

    // The search of RB_INSERT: the node that has the key of elm, or the leaf where elm belongs.
    method FindSlot(elm: Node) returns (tmp: Node?, parent: Node?, comp: int, ghost p: Path, ghost t: Tree)
      requires Valid()
      ensures Searching(p, t, elm.key) && tmp == Root(t) && parent == ParentOf(p)
      ensures tmp == null ==> !p.Top? ==> (comp < 0 <==> p.LeftOf?)
      ensures tmp != null ==> tmp in InOrder(tree) && tmp.key == elm.key
      ensures tmp == null ==> forall n | n in InOrder(tree) :: n.key != elm.key
    {
      tmp, parent, comp := root, null, 0;
      p, t := Top, tree;
      NodesAreContents();
      hide At, Fits, Plug, Brackets, InOrder, Ascending;
      while tmp != null
        invariant Searching(p, t, elm.key) && tmp == Root(t) && parent == ParentOf(p)
        invariant !p.Top? ==> (comp < 0 <==> p.LeftOf?)
        decreases t
      {
        Neighbours(p, t);
        comp := elm.key - tmp.key;
        if comp == 0 {
          return;
        }
        parent := tmp;
        if comp < 0 {
          SearchLeft(p, t, elm.key);
          p, t := LeftOf(t.color, t.node, t.right, p), t.left;
          tmp := tmp.left;
        } else {
          SearchRight(p, t, elm.key);
          p, t := RightOf(t.color, t.left, t.node, p), t.right;
          tmp := tmp.right;
        }
      }
      SearchEnds(p, t, elm.key);
    }

    ghost method Adopt(whole: Tree)
      requires At(Top, whole) && Fits(Top, whole) && Ascending(InOrder(whole))
      modifies this`tree
      ensures tree == whole && Valid()
    {
      tree := whole;
    }

    // Inserting a key that is present changes nothing and returns the node that has it; otherwise the new
    // node is added and null is returned.
    method Insert(elm: Node) returns (existing: Node?)
      requires Valid() && elm !in repr
      modifies this, repr, elm
      ensures Valid()
      ensures existing != null ==>
        existing in old(InOrder(tree)) && existing.key == elm.key && tree == old(tree) && repr == old(repr)
      ensures existing == null ==>
        && (forall n | n in old(InOrder(tree)) :: n.key != elm.key)
        && (forall n :: n in InOrder(tree) <==> n in old(InOrder(tree)) || n == elm)
        && |InOrder(tree)| == |old(InOrder(tree))| + 1
    {
      var tmp, parent, comp, p, t := FindSlot(elm);
      if tmp != null {
        return tmp;
      }
      hide At, Fits, Plug, Brackets, Ascending, NodesOf, PathNodes, Pending;
      WholeOfPlug(p, t);
      FitsPlug(p, t);
      LinkLeaf(elm, parent, comp, p);
      InsertedAscending(p, elm);
      PendingLeaf(p, elm);
      ghost var whole := InsertColor(elm, p, Branch(Red, Leaf, elm, Leaf));
      Adopt(whole);
      return null;
    }

    // ---------------------------------------------------------------- RB_REMOVE_COLOR

    // Give up the position for the whole tree.
    lemma ToTop(p: Path, t: Tree) returns (q: Path, u: Tree)
      requires At(p, t) && Fits(p, t)
      ensures q == Top && At(q, u) && Root(u) == root && Deficient(q, u) && Remaining(q, u) <= 1 && Whole(q, u) == Whole(p, t)
    {
      q, u := Top, Plug(p, t);
      AtPlug(p, t);
      FitsPlug(p, t);
      WholeOfPlug(p, t);
    }

    // The sibling in focus instead of the subtree.
    lemma AtSiblingRight(p: Path, t: Tree)
      requires p.LeftOf?
      ensures At(p, t) <==> At(RightOf(p.color, t, p.node, p.up), p.right)
    {
      AtAround(p, t);
      AtAround(RightOf(p.color, t, p.node, p.up), p.right);
    }

    // The far nephew is red: recolour and rotate the parent.
    method RaiseLeft(parent: Node, tmp: Node, ghost p: Path, ghost t: Tree)
      requires At(p, t) && p.LeftOf? && p.node == parent && p.right.Branch? && p.right.node == tmp && p.right.right.Branch?
      modifies this`root, repr
      ensures At(p.up, RaisedLeft(p, t))
    {
      ParentLinks(p, t);
      AtAround(p, t);
      hide At;
      ghost var up, r, c := p.up, p.right, p.color;
      PaintRight(tmp, parent.color, up, Around(p, t));
      Paint(parent, Black, up, Branch(c, t, parent, r.(color := c)));
      ghost var q := RightOf(Black, t, parent, up);
      AtAround(q, r.(color := c));
      Neighbours(q, r.(color := c));
      if tmp.right != null {
        PaintRight(tmp.right, Black, q, r.(color := c));
      }
      ghost var r1 := Branch(c, r.left, tmp, r.right.(color := Black));
      AtAround(q, r1);
      RotateLeft(parent, up, Branch(Black, t, parent, r1));
    }

    // The part of the loop after the sibling, on the right, has been made black.
    method RemoveFixBlackRight(parent: Node, sibling: Node, ghost p: Path, ghost t: Tree)
      returns (elm: Node?, next: Node?, ghost q: Path, ghost u: Tree)
      requires At(p, t) && Deficient(p, t) && IsBlack(t) && p.LeftOf? && p.node == parent
      requires p.right.Branch? && p.right.color == Black && p.right.node == sibling
      modifies this`root, repr
      ensures At(q, u) && Deficient(q, u) && elm == Root(u) && next == ParentOf(q) && Whole(q, u) == Whole(p, t)
      ensures Remaining(q, u) <= 1 || (p.color == Black && Remaining(q, u) <= Depth(p))
    {
      ghost var sp := RightOf(p.color, t, parent, p.up);
      AtSiblingRight(p, t);
      Neighbours(sp, p.right);
      ChildColors(sp, p.right);
      AtAround(p, t);
      hide At, Whole, Deficient;
      if (sibling.left == null || sibling.left.color == Black) && (sibling.right == null || sibling.right.color == Black) {
        PaintRight(sibling, Red, p.up, Around(p, t));
        BlackNephews(p, t);
        q, u := p.up, Around(p.(right := p.right.(color := Red)), t);
        Neighbours(q, u);
        elm, next := parent, parent.parent;
      } else {
        ghost var r := p;
        var tmp := sibling;
        if sibling.right == null || sibling.right.color == Black {
          SettleRight(sibling.left, sibling, sp, p.right);
          NearNephewRight(p, t);
          r := p.(right := SettledRight(p.right));
          AtSiblingRight(r, t);
          ParentLinks(r, t);
          tmp := parent.right;
        }
        RaiseLeft(parent, tmp, r, t);
        FarNephewRight(r, t);
        q, u := ToTop(p.up, RaisedLeft(r, t));
        elm, next := root, null;
      }
    }

    // One turn of the loop when elm is a left child.
    method RemoveFixLeft(parent: Node, ghost p: Path, ghost t: Tree)
      returns (elm: Node?, next: Node?, ghost q: Path, ghost u: Tree)
      requires At(p, t) && Deficient(p, t) && IsBlack(t) && p.LeftOf? && p.node == parent
      modifies this`root, repr
      ensures At(q, u) && Deficient(q, u) && elm == Root(u) && next == ParentOf(q) && Whole(q, u) == Whole(p, t)
      ensures Remaining(q, u) < Remaining(p, t)
    {
      SiblingExists(p, t);
      ParentLinks(p, t);
      AtSiblingRight(p, t);
      Neighbours(RightOf(p.color, t, parent, p.up), p.right);
      AtAround(p, t);
      hide At, Whole, Deficient;
      ghost var r := p;
      var tmp := parent.right;
      if tmp.color == Red {
        SettleLeft(tmp, parent, p.up, Around(p, t));
        RedSiblingRight(p, t);
        r := PastRedRight(p);
        AtAround(r.up, Around(r, t));
        AtAround(r, t);
        ParentLinks(r, t);
        SiblingExists(r, t);
        tmp := parent.right;
      }
      elm, next, q, u := RemoveFixBlackRight(parent, tmp, r, t);
    }

    // The sibling in focus instead of the subtree.
    lemma AtSiblingLeft(p: Path, t: Tree)
      requires p.RightOf?
      ensures At(p, t) <==> At(LeftOf(p.color, p.node, t, p.up), p.left)
    {
      AtAround(p, t);
      AtAround(LeftOf(p.color, p.node, t, p.up), p.left);
    }

    // The far nephew is red: recolour and rotate the parent.
    method RaiseRight(parent: Node, tmp: Node, ghost p: Path, ghost t: Tree)
      requires At(p, t) && p.RightOf? && p.node == parent && p.left.Branch? && p.left.node == tmp && p.left.left.Branch?
      modifies this`root, repr
      ensures At(p.up, RaisedRight(p, t))
    {
      ParentLinks(p, t);
      AtAround(p, t);
      hide At;
      ghost var up, r, c := p.up, p.left, p.color;
      PaintLeft(tmp, parent.color, up, Around(p, t));
      Paint(parent, Black, up, Branch(c, r.(color := c), parent, t));
      ghost var q := LeftOf(Black, parent, t, up);
      AtAround(q, r.(color := c));
      Neighbours(q, r.(color := c));
      if tmp.left != null {
        PaintLeft(tmp.left, Black, q, r.(color := c));
      }
      ghost var r1 := Branch(c, r.left.(color := Black), tmp, r.right);
      AtAround(q, r1);
      RotateRight(parent, up, Branch(Black, r1, parent, t));
    }

    // The part of the loop after the sibling, on the left, has been made black.
    method RemoveFixBlackLeft(parent: Node, sibling: Node, ghost p: Path, ghost t: Tree)
      returns (elm: Node?, next: Node?, ghost q: Path, ghost u: Tree)
      requires At(p, t) && Deficient(p, t) && IsBlack(t) && p.RightOf? && p.node == parent
      requires p.left.Branch? && p.left.color == Black && p.left.node == sibling
      modifies this`root, repr
      ensures At(q, u) && Deficient(q, u) && elm == Root(u) && next == ParentOf(q) && Whole(q, u) == Whole(p, t)
      ensures Remaining(q, u) <= 1 || (p.color == Black && Remaining(q, u) <= Depth(p))
    {
      ghost var sp := LeftOf(p.color, parent, t, p.up);
      AtSiblingLeft(p, t);
      Neighbours(sp, p.left);
      ChildColors(sp, p.left);
      AtAround(p, t);
      hide At, Whole, Deficient;
      if (sibling.right == null || sibling.right.color == Black) && (sibling.left == null || sibling.left.color == Black) {
        PaintLeft(sibling, Red, p.up, Around(p, t));
        BlackNephews(p, t);
        q, u := p.up, Around(p.(left := p.left.(color := Red)), t);
        Neighbours(q, u);
        elm, next := parent, parent.parent;
      } else {
        ghost var r := p;
        var tmp := sibling;
        if sibling.left == null || sibling.left.color == Black {
          SettleLeft(sibling.right, sibling, sp, p.left);
          NearNephewLeft(p, t);
          r := p.(left := SettledLeft(p.left));
          AtSiblingLeft(r, t);
          ParentLinks(r, t);
          tmp := parent.left;
        }
        RaiseRight(parent, tmp, r, t);
        FarNephewLeft(r, t);
        q, u := ToTop(p.up, RaisedRight(r, t));
        elm, next := root, null;
      }
    }

    // One turn of the loop when elm is a right child.
    method RemoveFixRight(parent: Node, ghost p: Path, ghost t: Tree)
      returns (elm: Node?, next: Node?, ghost q: Path, ghost u: Tree)
      requires At(p, t) && Deficient(p, t) && IsBlack(t) && p.RightOf? && p.node == parent
      modifies this`root, repr
      ensures At(q, u) && Deficient(q, u) && elm == Root(u) && next == ParentOf(q) && Whole(q, u) == Whole(p, t)
      ensures Remaining(q, u) < Remaining(p, t)
    {
      SiblingExists(p, t);
      ParentLinks(p, t);
      AtSiblingLeft(p, t);
      Neighbours(LeftOf(p.color, parent, t, p.up), p.left);
      AtAround(p, t);
      hide At, Whole, Deficient;
      ghost var r := p;
      var tmp := parent.left;
      if tmp.color == Red {
        SettleRight(tmp, parent, p.up, Around(p, t));
        RedSiblingLeft(p, t);
        r := PastRedLeft(p);
        AtAround(r.up, Around(r, t));
        AtAround(r, t);
        ParentLinks(r, t);
        SiblingExists(r, t);
        tmp := parent.left;
      }
      elm, next, q, u := RemoveFixBlackLeft(parent, tmp, r, t);
    }

    lemma {:induction false} RootInPath(p: Path, hole: Node?)
      requires LinkedPath(p, hole, root) && !p.Top?
      ensures root != null && root in PathNodes(p)
    {
      if p.up.Top? {
        assert LinkedPath(p.up, p.node, root);
      } else {
        RootInPath(p.up, p.node);
      }
    }

    // Only at the top is the subtree in focus the whole tree.
    lemma RootIsTop(p: Path, t: Tree)
      requires At(p, t)
      ensures Root(t) == root <==> p.Top?
    {
      if !p.Top? {
        RootInPath(p, Root(t));
        assert t.Branch? ==> t.node in NodesOf(t);
      }
    }

    method RemoveColor(parent0: Node?, elm0: Node?, ghost p0: Path, ghost t0: Tree) returns (ghost whole: Tree)
      requires At(p0, t0) && Deficient(p0, t0) && elm0 == Root(t0) && parent0 == ParentOf(p0)
      modifies this`root, repr
      ensures At(Top, whole) && Fits(Top, whole) && InOrder(whole) == Whole(p0, t0)
    {
      var parent, elm := parent0, elm0;
      ghost var p, t := p0, t0;
      hide Whole, Deficient;
      RootIsTop(p, t);
      if t.Branch? { Neighbours(p, t); }
      while (elm == null || elm.color == Black) && elm != root
        invariant At(p, t) && Deficient(p, t) && elm == Root(t) && parent == ParentOf(p)
        invariant Root(t) == root <==> p.Top?
        invariant t.Branch? ==> t.node.color == t.color
        invariant Whole(p, t) == Whole(p0, t0)
        decreases Remaining(p, t)
      {
        ParentLinks(p, t);
        LeftChildTest(p, t);
        if parent.left == elm {
          elm, parent, p, t := RemoveFixLeft(parent, p, t);
        } else {
          elm, parent, p, t := RemoveFixRight(parent, p, t);
        }
        RootIsTop(p, t);
        if t.Branch? { Neighbours(p, t); }
      }
      BlackeningEnds(p, t);
      if elm != null {
        Paint(elm, Black, p, t);
      }
      whole := Plug(p, Blackened(t));
      AtPlug(p, Blackened(t));
      FitsPlug(p, Blackened(t));
      WholeOfPlug(p, Blackened(t));
    }

    // The test for the side is exact even when elm is null: the sibling is not.
    lemma LeftChildTest(p: Path, t: Tree)
      requires At(p, t) && Deficient(p, t) && !p.Top?
      ensures p.node.left == Root(t) <==> p.LeftOf?
    {
      SiblingExists(p, t);
      ParentLinks(p, t);
    }

    // ---------------------------------------------------------------- RB_REMOVE

    // Take out a node with at most one child; the child moves up.
    method SpliceOut(elm: Node, child: Node?, ghost p: Path, ghost t: Tree, ghost c: Tree)
      requires At(p, t) && t.Branch? && t.node == elm && child == Root(c)
      requires (t.left.Leaf? && c == t.right) || (t.right.Leaf? && c == t.left)
      modifies this`root, this`repr, repr
      ensures repr == old(repr) - {elm} && At(p, c)
      ensures elm.parent == old(elm.parent) && elm.right == old(elm.right) && elm.color == old(elm.color)
    {
      Unfold(t, ParentOf(p));
      UnfoldNodes(t);
      hide Linked, LinkedPath, Distinct, DistinctPath, NodesOf, PathNodes;
      var parent := elm.parent;
      Reparent(child, parent, c, elm);
      ReplaceChild(parent, elm, child, p);
      repr := repr - {elm};
      assert PathNodes(p) + NodesOf(c) == repr;
    }

    // Put s, which is not in the tree, in the place of old.
    method TakePlace(s: Node, elm: Node, ghost p: Path, ghost t: Tree)
      requires At(p, t) && t.Branch? && t.node == elm && t.left.Branch? && s !in repr
      modifies this`root, this`repr, repr, s
      ensures repr == old(repr) - {elm} + {s} && At(p, t.(node := s))
    {
      hide Linked, LinkedPath, Separate, Distinct, DistinctPath, NodesOf, PathNodes;
      ghost var u := t.(node := s);
      ApartPlace(p, t, s);
      Unfold(t, ParentOf(p));
      s.left, s.right, s.parent, s.color := elm.left, elm.right, elm.parent, elm.color;
      ReplaceChild(elm.parent, elm, s, p);
      Reparent(elm.left, s, t.left, elm);
      Reparent(elm.right, s, t.right, elm);
      repr := repr - {elm} + {s};
      Unfold(u, ParentOf(p));
    }

    lemma AtAppend(q: Path, base: Path, t: Tree)
      ensures At(Append(q, base), t) <==> At(base, Plug(q, t))
    {
      PlugAppend(q, base, t);
      AtPlug(Append(q, base), t);
      AtPlug(base, Plug(q, t));
    }

    lemma FitsAppend(q: Path, base: Path, t: Tree)
      ensures Fits(Append(q, base), t) <==> Fits(base, Plug(q, t))
    {
      PlugAppend(q, base, t);
      FitsPlug(Append(q, base), t);
      FitsPlug(base, Plug(q, t));
    }

    // The leftmost node below elm, and the way down to it.
    method Leftmost(elm: Node, ghost base: Path, ghost t: Tree) returns (s: Node, ghost q: Path, ghost u: Tree)
      requires At(base, t) && t.Branch? && t.node == elm
      ensures At(Append(q, base), u)
      ensures LeftSpine(q) && Plug(q, u) == t && u.Branch? && u.node == s && u.left.Leaf?
    {
      s, q, u := elm, Top, t;
      Neighbours(base, t);
      while s.left != null
        invariant At(Append(q, base), u) && LeftSpine(q) && Plug(q, u) == t && u.Branch? && u.node == s
        invariant s.left == Root(u.left)
        decreases u
      {
        s := s.left;
        q, u := LeftOf(u.color, u.node, u.right, q), u.left;
        AtAround(Append(q, base), u);
        Neighbours(Append(q, base), u);
      }
    }

    // The successor s, already taken out, is put in the place of elm; c is what hangs at the end of q.
    method InstallSuccessor(s: Node, elm: Node, ghost p: Path, ghost t: Tree, ghost q: Path, ghost c: Tree)
      requires t.Branch? && t.node == elm && t.left.Branch? && s !in repr
      requires At(Append(q, RightOf(t.color, t.left, elm, p)), c)
      modifies this`root, this`repr, repr, s
      ensures repr == old(repr) - {elm} + {s} && At(Append(q, RightOf(t.color, t.left, s, p)), c)
    {
      hide At;
      ghost var before, after := RightOf(t.color, t.left, elm, p), RightOf(t.color, t.left, s, p);
      AtAppend(q, before, c);
      AtAround(before, Plug(q, c));
      TakePlace(s, elm, p, Branch(t.color, t.left, elm, Plug(q, c)));
      AtAround(after, Plug(q, c));
      AtAppend(q, after, c);
    }

    // Find the successor of elm, first in its right subtree, and take it out.
    method DetachSuccessor(elm: Node, ghost p: Path, ghost t: Tree, ghost base: Path)
      returns (s: Node, ghost q: Path, ghost u: Tree)
      requires At(p, t) && Fits(p, t) && t.Branch? && t.node == elm && t.right.Branch?
      requires base == RightOf(t.color, t.left, elm, p)
      modifies this`root, this`repr, repr
      ensures LeftSpine(q) && Plug(q, u) == t.right && u.Branch? && u.left.Leaf? && u.node == s
      ensures s in old(repr) && repr == old(repr) - {s} && At(Append(q, base), u.right)
      ensures s.right == Root(u.right) && s.parent == ParentOf(Append(q, base)) && s.color == u.color
      ensures if s.color == Red then Fits(Append(q, base), u.right) else Deficient(Append(q, base), u.right)
    {
      hide At, Fits, Deficient, NodesOf, PathNodes, Plug, Append, LeftSpine;
      Neighbours(p, t);
      AtAround(base, t.right);
      FitsAround(base, t.right);
      s, q, u := Leftmost(elm.right, base, t.right);
      FitsAppend(q, base, u);
      Neighbours(Append(q, base), u);
      SplicedOut(Append(q, base), u, u.right);
      SpliceOut(s, s.right, Append(q, base), u, u.right);
    }

    lemma NodesOfTable(p: Path, t: Tree)
      requires At(p, t) && t.Branch?
      ensures Distinct(t) && t.node in repr
    {}

    // A node with two children: its successor is taken out and put in its place.
    method RemoveInner(elm: Node, ghost p: Path, ghost t: Tree)
      returns (parent: Node?, child: Node?, color: Color, ghost w: Path, ghost c: Tree)
      requires At(p, t) && Fits(p, t) && t.Branch? && t.node == elm && t.left.Branch? && t.right.Branch?
      modifies this`root, this`repr, repr
      ensures repr == old(repr) - {elm} && At(w, c) && child == Root(c) && parent == ParentOf(w)
      ensures if color == Red then Fits(w, c) else Deficient(w, c)
      ensures Removed(Whole(p, t), Whole(w, c), elm)
    {
      hide At, Fits, Deficient, Whole, Removed, Distinct, NodesOf, PathNodes, InOrder, Plug, Append, LeftSpine, ParentOf, Root;
      NodesOfTable(p, t);
      var s, q, u := DetachSuccessor(elm, p, t, RightOf(t.color, t.left, elm, p));
      c, child, parent, color := u.right, s.right, s.parent, s.color;
      if s.parent == elm {
        parent := s;
      }
      w := Append(q, RightOf(t.color, t.left, s, p));
      Succeeded(p, t, q, u, color);
      InstallSuccessor(s, elm, p, t, q, c);
    }

    // A node with at most one child is taken out directly.
    method RemoveOuter(elm: Node, ghost p: Path, ghost t: Tree)
      returns (parent: Node?, child: Node?, color: Color, ghost w: Path, ghost c: Tree)
      requires At(p, t) && Fits(p, t) && t.Branch? && t.node == elm && (t.left.Leaf? || t.right.Leaf?)
      modifies this`root, this`repr, repr
      ensures repr == old(repr) - {elm} && At(w, c) && child == Root(c) && parent == ParentOf(w)
      ensures if color == Red then Fits(w, c) else Deficient(w, c)
      ensures Removed(Whole(p, t), Whole(w, c), elm)
    {
      hide At, Fits, Deficient, Whole, Removed, NodesOf, PathNodes;
      Neighbours(p, t);
      if elm.left == null {
        child, c := elm.right, t.right;
      } else {
        child, c := elm.left, t.left;
      }
      parent, color, w := elm.parent, elm.color, p;
      SplicedOut(p, t, c);
      WholeSpliced(p, t, c);
      SpliceOut(elm, child, p, t, c);
    }

    // Every node of the table is at some position of the tree.
    lemma PositionOf(n: Node) returns (p: Path, t: Tree)
      requires Valid() && n in repr
      ensures At(p, t) && Fits(p, t) && Whole(p, t) == InOrder(tree) && t.Branch? && t.node == n
    {
      p, t := Locate(Top, tree, n);
      AtPlug(p, t);
      FitsPlug(p, t);
      WholeOfPlug(p, t);
    }

    // Fix the colours if a black node was taken out.
    method FinishRemoval(parent: Node?, child: Node?, color: Color, ghost w: Path, ghost c: Tree) returns (ghost whole: Tree)
      requires At(w, c) && child == Root(c) && parent == ParentOf(w)
      requires if color == Red then Fits(w, c) else Deficient(w, c)
      modifies this`root, repr
      ensures At(Top, whole) && Fits(Top, whole) && InOrder(whole) == Whole(w, c)
    {
      if color == Black {
        whole := RemoveColor(parent, child, w, c);
      } else {
        whole := Plug(w, c);
        AtPlug(w, c);
        FitsPlug(w, c);
        WholeOfPlug(w, c);
      }
    }

    method Remove(elm: Node)
      requires Valid() && elm in repr
      modifies this, repr
      ensures Valid() && repr == old(repr) - {elm}
      ensures Removed(old(InOrder(tree)), InOrder(tree), elm)
    {
      hide At, Fits, Deficient, Whole, Removed, Ascending, InOrder, NodesOf, PathNodes;
      var p, t := PositionOf(elm);
      Neighbours(p, t);
      var parent, child, color;
      ghost var w, c;
      if elm.left == null || elm.right == null {
        parent, child, color, w, c := RemoveOuter(elm, p, t);
      } else {
        parent, child, color, w, c := RemoveInner(elm, p, t);
      }
      RemovedAscending(old(InOrder(tree)), Whole(w, c), elm);
      ghost var whole := FinishRemoval(parent, child, color, w, c);
      Adopt(whole);
    }

    // ---------------------------------------------------------------- RB_MINMAX, RB_NEXT and RB_FOREACH

    method Min() returns (first: Node?)
      requires Valid()
      ensures first == if InOrder(tree) == [] then null else InOrder(tree)[0]
    {
      var tmp := root;
      first := null;
      ghost var q, t := Top, tree;
      while tmp != null
        invariant At(q, t) && tmp == Root(t) && LeftSpine(q) && Plug(q, t) == tree && first == ParentOf(q)
        decreases t
      {
        Neighbours(q, t);
        first := tmp;
        tmp := tmp.left;
        q, t := LeftOf(t.color, t.node, t.right, q), t.left;
        AtAround(q, t);
      }
      NothingBefore(q);
      WholeOfPlug(q, t);
    }

    method Max() returns (last: Node?)
      requires Valid()
      ensures last == if InOrder(tree) == [] then null else InOrder(tree)[|InOrder(tree)| - 1]
    {
      var tmp := root;
      last := null;
      ghost var q, t := Top, tree;
      while tmp != null
        invariant At(q, t) && tmp == Root(t) && RightSpine(q) && Plug(q, t) == tree && last == ParentOf(q)
        decreases t
      {
        Neighbours(q, t);
        last := tmp;
        tmp := tmp.right;
        q, t := RightOf(t.color, t.left, t.node, q), t.right;
        AtAround(q, t);
      }
      NothingAfter(q);
      WholeOfPlug(q, t);
    }

    // The first ancestor that has elm on its left.
    method NextAbove(elm: Node, ghost p0: Path, ghost t0: Tree) returns (next: Node?)
      requires At(p0, t0) && Root(t0) == elm
      ensures next == First(After(p0))
    {
      var e: Node := elm;
      ghost var p, t := p0, t0;
      Neighbours(p, t);
      while e.parent != null && e == e.parent.right
        invariant At(p, t) && Root(t) == e && After(p) == After(p0) && e.parent == ParentOf(p)
        decreases p
      {
        ParentLinks(p, t);
        AtAround(p, t);
        e := e.parent;
        p, t := p.up, Around(p, t);
      }
      if !p.Top? { ParentLinks(p, t); }
      next := e.parent;
    }

    // The in-order successor.
    method Next(elm: Node) returns (next: Node?)
      requires Valid() && elm in repr
      ensures forall i | 0 <= i < |InOrder(tree)| && InOrder(tree)[i] == elm ::
        next == First(InOrder(tree)[i + 1..])
    {
      var p, t := PositionOf(elm);
      Neighbours(p, t);
      if elm.right != null {
        ghost var base := RightOf(t.color, t.left, elm, p);
        AtAround(base, t.right);
        var s, q, u := Leftmost(elm.right, base, t.right);
        SuccessorFirst(q, u);
        next := s;
      } else {
        next := NextAbove(elm, p, t);
      }
      assert next == First(InOrder(t.right) + After(p));
      FollowedBy(p, t, InOrder(tree));
    }

    // The loop visits every node of the table once, in ascending order of keys.
    method ForEach() returns (visited: seq<Node>)
      requires Valid()
      ensures visited == InOrder(tree)
    {
      hide InOrder;
      visited := [];
      var x := Min();
      while x != null
        invariant |visited| <= |InOrder(tree)| && visited == InOrder(tree)[..|visited|]
        invariant x == First(InOrder(tree)[|visited|..])
        decreases |InOrder(tree)| - |visited|
      {
        ghost var i := |visited|;
        assert InOrder(tree)[i] == x && x in InOrder(tree);
        NodesAreContents();
        visited := visited + [x];
        x := Next(x);
      }
    }
  }
}
