// The shape of the red-black tree behind the bulb table (compat/generic/sys/tree.h).
//
// `Tree` is the value a linked structure of nodes stands for.  `Path` is a tree with a hole: what is left
// of a tree once the subtree under consideration is taken out.  A position in a tree is a pair of the two,
// and everything the fix-up loops promise is stated on such pairs.
module RbShape {

  datatype Color = Red | Black

  // A bulb with its RB_ENTRY: the key is the six-byte device address read as a big-endian number,
  // so that memcmp() on addresses is the order on keys.
  class Node {
    const key: nat
    var left: Node?
    var right: Node?
    var parent: Node?
    var color: Color

    constructor (key: nat)
      ensures this.key == key
      ensures left == null && right == null && parent == null
    {
      this.key := key;
      left, right, parent, color := null, null, null, Red;
    }
  }

  datatype Tree = Leaf | Branch(color: Color, left: Tree, node: Node, right: Tree)

  datatype Path =
    | Top
    | LeftOf(color: Color, node: Node, right: Tree, up: Path)
    | RightOf(color: Color, left: Tree, node: Node, up: Path)

  // ---------------------------------------------------------------- contents

  ghost function Root(t: Tree): Node? {
    if t.Leaf? then null else t.node
  }

  ghost function ParentOf(p: Path): Node? {
    if p.Top? then null else p.node
  }

  ghost function NodesOf(t: Tree): set<Node> {
    match t
    case Leaf => {}
    case Branch(_, l, n, r) => NodesOf(l) + {n} + NodesOf(r)
  }

  ghost function PathNodes(p: Path): set<Node> {
    match p
    case Top => {}
    case LeftOf(_, n, r, up) => {n} + NodesOf(r) + PathNodes(up)
    case RightOf(_, l, n, up) => NodesOf(l) + {n} + PathNodes(up)
  }

  ghost function InOrder(t: Tree): seq<Node> {
    match t
    case Leaf => []
    case Branch(_, l, n, r) => InOrder(l) + [n] + InOrder(r)
  }

  ghost function Before(p: Path): seq<Node> {
    match p
    case Top => []
    case LeftOf(_, n, r, up) => Before(up)
    case RightOf(_, l, n, up) => Before(up) + InOrder(l) + [n]
  }

  ghost function After(p: Path): seq<Node> {
    match p
    case Top => []
    case LeftOf(_, n, r, up) => [n] + InOrder(r) + After(up)
    case RightOf(_, l, n, up) => After(up)
  }

  // The nodes of the whole tree, in order, seen from a position in it.
  ghost function Whole(p: Path, t: Tree): seq<Node> {
    Before(p) + InOrder(t) + After(p)
  }

  // The subtree one level up.
  ghost function Around(p: Path, t: Tree): Tree
    requires !p.Top?
  {
    match p
    case LeftOf(c, n, r, _) => Branch(c, t, n, r)
    case RightOf(c, l, n, _) => Branch(c, l, n, t)
  }

  ghost function Plug(p: Path, t: Tree): Tree {
    if p.Top? then t else Plug(p.up, Around(p, t))
  }

  ghost predicate Ascending(s: seq<Node>) {
    forall i, j | 0 <= i < j < |s| :: s[i].key < s[j].key
  }

  lemma WholeAround(p: Path, t: Tree)
    requires !p.Top?
    ensures Whole(p.up, Around(p, t)) == Whole(p, t)
  {
    match p
    case LeftOf(c, n, r, up) =>
      assert InOrder(Around(p, t)) == InOrder(t) + ([n] + InOrder(r));
    case RightOf(c, l, n, up) =>
      assert InOrder(Around(p, t)) == (InOrder(l) + [n]) + InOrder(t);
  }

  lemma {:induction false} WholeOfPlug(p: Path, t: Tree)
    ensures InOrder(Plug(p, t)) == Whole(p, t)
  {
    if !p.Top? {
      WholeOfPlug(p.up, Around(p, t));
      WholeAround(p, t);
    }
  }

  // A search for key has come down to the hole.
  ghost predicate Brackets(p: Path, key: int) {
    (forall n | n in Before(p) :: n.key < key) && (forall n | n in After(p) :: key < n.key)
  }

  lemma BracketsLeft(p: Path, t: Tree, key: int)
    requires t.Branch? && Ascending(Whole(p, t)) && Brackets(p, key) && key < t.node.key
    ensures Brackets(LeftOf(t.color, t.node, t.right, p), key)
  {
    var w, k := Whole(p, t), |Before(p)| + |InOrder(t.left)|;
    assert w[k] == t.node;
    forall n | n in InOrder(t.right) ensures key < n.key {
      var j :| 0 <= j < |InOrder(t.right)| && InOrder(t.right)[j] == n;
      assert w[k + 1 + j] == n;
    }
  }

  lemma BracketsRight(p: Path, t: Tree, key: int)
    requires t.Branch? && Ascending(Whole(p, t)) && Brackets(p, key) && t.node.key < key
    ensures Brackets(RightOf(t.color, t.left, t.node, p), key)
  {
    var w, k := Whole(p, t), |Before(p)| + |InOrder(t.left)|;
    assert w[k] == t.node;
    forall n | n in InOrder(t.left) ensures n.key < key {
      var j :| 0 <= j < |InOrder(t.left)| && InOrder(t.left)[j] == n;
      assert w[|Before(p)| + j] == n;
    }
  }

  lemma InsertedAscending(p: Path, n: Node)
    requires Ascending(Whole(p, Leaf)) && Brackets(p, n.key)
    ensures Ascending(Whole(p, Branch(Red, Leaf, n, Leaf)))
  {
    var b, a := Before(p), After(p);
    assert Whole(p, Leaf) == b + a;
    assert Whole(p, Branch(Red, Leaf, n, Leaf)) == b + [n] + a;
    AscendingInsert(b, n, a);
  }

  lemma AscendingInsert(b: seq<Node>, n: Node, a: seq<Node>)
    requires Ascending(b + a)
    requires (forall m | m in b :: m.key < n.key) && (forall m | m in a :: n.key < m.key)
    ensures Ascending(b + [n] + a)
  {
    var s, w := b + a, b + [n] + a;
    forall i, j | 0 <= i < j < |w| ensures w[i].key < w[j].key {
      var i', j' := if i < |b| then i else i - 1, if j < |b| then j else j - 1;
      assert i < |b| ==> w[i] == s[i'] && w[i] in b;
      assert i > |b| ==> w[i] == s[i'];
      assert j < |b| ==> w[j] == s[j'];
      assert j > |b| ==> w[j] == s[j'] && w[j] in a;
    }
  }

  lemma {:induction false} PlugBranch(p: Path, t: Tree)
    requires t.Branch?
    ensures Plug(p, t).Branch?
  {
    if !p.Top? { PlugBranch(p.up, Around(p, t)); }
  }

  lemma {:induction false} NodesInOrder(t: Tree)
    ensures forall n :: n in NodesOf(t) <==> n in InOrder(t)
  {
    match t
    case Leaf =>
    case Branch(_, l, n, r) =>
      NodesInOrder(l);
      NodesInOrder(r);
  }

  // ---------------------------------------------------------------- no node twice

  ghost predicate Distinct(t: Tree) {
    match t
    case Leaf => true
    case Branch(_, l, n, r) =>
      && Distinct(l) && Distinct(r)
      && n !in NodesOf(l) && n !in NodesOf(r)
      && NodesOf(l) !! NodesOf(r)
  }

  ghost predicate DistinctPath(p: Path) {
    match p
    case Top => true
    case LeftOf(_, n, r, up) =>
      && Distinct(r) && DistinctPath(up)
      && n !in NodesOf(r) && n !in PathNodes(up)
      && NodesOf(r) !! PathNodes(up)
    case RightOf(_, l, n, up) =>
      && Distinct(l) && DistinctPath(up)
      && n !in NodesOf(l) && n !in PathNodes(up)
      && NodesOf(l) !! PathNodes(up)
  }

  ghost predicate Separate(p: Path, t: Tree) {
    DistinctPath(p) && Distinct(t) && PathNodes(p) !! NodesOf(t)
  }

  lemma SeparateAround(p: Path, t: Tree)
    requires !p.Top?
    ensures Separate(p, t) <==> Separate(p.up, Around(p, t))
    ensures PathNodes(p) + NodesOf(t) == PathNodes(p.up) + NodesOf(Around(p, t))
  {}

  // ---------------------------------------------------------------- colours and heights

  ghost predicate IsBlack(t: Tree) {
    t.Leaf? || t.color == Black
  }

  ghost function BlackHeight(t: Tree): nat {
    match t
    case Leaf => 0
    case Branch(c, l, _, _) => BlackHeight(l) + if c == Black then 1 else 0
  }

  // Below the root everything is in order, whatever the colour of the root.
  ghost predicate RedBlackBelow(t: Tree) {
    t.Leaf? || (RedBlack(t.left) && RedBlack(t.right) && BlackHeight(t.left) == BlackHeight(t.right))
  }

  // No red node has a red child, and all paths to a leaf cross as many black nodes.
  ghost predicate RedBlack(t: Tree) {
    match t
    case Leaf => true
    case Branch(c, l, _, r) =>
      && RedBlack(l) && RedBlack(r)
      && BlackHeight(l) == BlackHeight(r)
      && (c == Red ==> IsBlack(l) && IsBlack(r))
  }

  // The same for a tree with a hole that expects a subtree of black height h; whether a red subtree may
  // sit in the hole is not part of it.
  ghost predicate RedBlackPath(p: Path, h: nat) {
    match p
    case Top => true
    case LeftOf(c, _, r, up) =>
      && RedBlack(r) && BlackHeight(r) == h
      && (c == Red ==> IsBlack(r) && !up.Top? && up.color == Black)
      && RedBlackPath(up, h + if c == Black then 1 else 0)
    case RightOf(c, l, _, up) =>
      && RedBlack(l) && BlackHeight(l) == h
      && (c == Red ==> IsBlack(l) && !up.Top? && up.color == Black)
      && RedBlackPath(up, h + if c == Black then 1 else 0)
  }

  // A red subtree may sit in the hole.
  ghost predicate AcceptsRed(p: Path) {
    !p.Top? && p.color == Black
  }

  // A red-black tree with a black root, seen from a position.
  ghost predicate Fits(p: Path, t: Tree) {
    && RedBlack(t)
    && RedBlackPath(p, BlackHeight(t))
    && (IsBlack(t) || AcceptsRed(p))
  }

  lemma FitsAround(p: Path, t: Tree)
    requires !p.Top?
    ensures Fits(p, t) <==> Fits(p.up, Around(p, t))
  {}

  lemma {:induction false} FitsPlug(p: Path, t: Tree)
    ensures Fits(p, t) <==> Fits(Top, Plug(p, t))
  {
    if !p.Top? {
      FitsAround(p, t);
      FitsPlug(p.up, Around(p, t));
    }
  }

  // ---------------------------------------------------------------- height

  ghost function Pow2(n: nat): nat {
    if n == 0 then 1 else 2 * Pow2(n - 1)
  }

  ghost function Height(t: Tree): nat {
    match t
    case Leaf => 0
    case Branch(_, l, _, r) => 1 + if Height(l) < Height(r) then Height(r) else Height(l)
  }

  lemma {:induction false} SizeOfBlackHeight(t: Tree)
    requires RedBlack(t)
    ensures Pow2(BlackHeight(t)) <= |InOrder(t)| + 1
  {
    match t
    case Leaf =>
    case Branch(_, l, _, r) =>
      SizeOfBlackHeight(l);
      SizeOfBlackHeight(r);
  }

  lemma {:induction false} HeightOfBlackHeight(t: Tree)
    requires RedBlack(t)
    ensures Height(t) <= 2 * BlackHeight(t) + if IsBlack(t) then 0 else 1
  {
    match t
    case Leaf =>
    case Branch(_, l, _, r) =>
      HeightOfBlackHeight(l);
      HeightOfBlackHeight(r);
  }

  lemma {:induction false} Pow2Sum(a: nat, b: nat)
    ensures Pow2(a + b) == Pow2(a) * Pow2(b)
  {
    if a > 0 {
      Pow2Sum(a - 1, b);
      assert Pow2(a + b) == 2 * Pow2(a - 1 + b) && Pow2(a) == 2 * Pow2(a - 1);
      TwiceProduct(Pow2(a - 1), Pow2(b));
    }
  }

  lemma TwiceProduct(x: nat, y: nat)
    ensures 2 * (x * y) == (2 * x) * y
  {}

  lemma {:induction false} Pow2Monotone(a: nat, b: nat)
    requires a <= b
    ensures Pow2(a) <= Pow2(b)
  {
    if a < b { Pow2Monotone(a, b - 1); }
  }

  // Height is at most 2 * log2(n + 1): two to the height is at most (n + 1) squared.
  lemma HeightBound(t: Tree)
    requires Fits(Top, t)
    ensures Pow2(Height(t)) <= (|InOrder(t)| + 1) * (|InOrder(t)| + 1)
  {
    var b, n := BlackHeight(t), |InOrder(t)| + 1;
    HeightOfBlackHeight(t);
    Pow2Monotone(Height(t), b + b);
    Pow2Sum(b, b);
    SizeOfBlackHeight(t);
    SquareMonotone(Pow2(b), n);
  }

  lemma SquareMonotone(a: nat, b: nat)
    requires a <= b
    ensures a * a <= b * b
  {
    assert a * a <= a * b <= b * b;
  }
}
