/** Why the rebalancing loops of insertion and deletion restore the red-black conditions. */
module RbBalance {
  import opened RbShape

  // ---------- rebalancing after an insertion ----------

  /** All is well, except that the red root of `t` may have a red parent. */
  ghost predicate Unbalanced(p: Path, t: Shape) {
    t.Fork? && t.red && RedBlack(t) && Fits(p, BlackHeight(t), false)
  }

  /** A red node hung into an empty place of a red-black tree. */
  lemma InsertedUnbalanced(p: Path, n: Node)
    requires RedBlack(Plug(p, Leaf)) && !IsRed(Plug(p, Leaf))
    ensures Unbalanced(p, Fork(Leaf, n, true, Leaf))
  {
    RedBlackFits(p, Leaf);
  }

  lemma UnbalancedUp(p: Path, t: Shape)
    requires Unbalanced(p, t) && p != Top && p.red
    ensures p.up != Top && !p.up.red
  {
    assert Fits(p.up, BlackHeight(t), true);
  }

  /** Where the loop ends, painting the root of the whole tree black repairs it. */
  lemma UnbalancedMended(p: Path, t: Shape)
    requires Unbalanced(p, t) && (p == Top || !p.red)
    ensures var whole := Plug(p, t);
      whole.Fork? && RedBlack(whole.(red := false)) && InOrder(whole.(red := false)) == InOrder(whole)
  {
    if p != Top {
      PlugRedBlack(p, t);
      PlugNodeSet(p, t);
      assert t.node in NodeSet(Plug(p, t));
      assert Plug(p, t).(red := false) == Plug(p, t);
    }
  }

  /** A black node with two red children takes their redness. */
  ghost function Flipped(t: Shape): Shape
    requires t.Fork? && t.left.Fork? && t.right.Fork?
  {
    Fork(t.left.(red := false), t.node, true, t.right.(red := false))
  }

  lemma FlippedUnbalanced(p: Path, t: Shape)
    requires Unbalanced(p, t) && p != Top && p.red && p.up != Top
    requires IsRed(if p.up.InLeft? then p.up.right else p.up.left)
    ensures var g := Filled(p.up, Filled(p, t));
      Unbalanced(p.up.up, Flipped(g)) && InOrder(Plug(p.up.up, Flipped(g))) == InOrder(Plug(p, t))
  {
    assert Fits(p.up, BlackHeight(t), true);
    assert Fits(p.up.up, BlackHeight(t) + 1, false);
    var g := Filled(p.up, Filled(p, t));
    PlugSameOrder(p.up.up, g, Flipped(g));
    assert Plug(p, t) == Plug(p.up, Filled(p, t));
  }

  /** `f` is a red node with a red left child, itself hanging on the left. */
  ghost predicate RedPairLeft(q: Path, f: Shape) {
    && f.Fork? && f.red && IsRed(f.left) && !IsRed(f.right)
    && RedBlack(f.left) && RedBlack(f.right) && BlackHeight(f.left) == BlackHeight(f.right)
    && q.InLeft? && Fits(q, BlackHeight(f), true)
  }

  ghost predicate RedPairRight(q: Path, f: Shape) {
    && f.Fork? && f.red && IsRed(f.right) && !IsRed(f.left)
    && RedBlack(f.left) && RedBlack(f.right) && BlackHeight(f.left) == BlackHeight(f.right)
    && q.InRight? && Fits(q, BlackHeight(f), true)
  }

  /** Where the lower node of the pair hangs once the grandparent was rotated down. */
  ghost function LiftedLeft(q: Path, f: Shape): Path
    requires RedPairLeft(q, f)
  {
    InLeft(q.up, f.node, false, Fork(f.right, q.node, true, q.right))
  }

  ghost function LiftedRight(q: Path, f: Shape): Path
    requires RedPairRight(q, f)
  {
    InRight(q.up, Fork(q.left, q.node, true, f.left), f.node, false)
  }

  lemma LiftedLeftUnbalanced(q: Path, f: Shape)
    requires RedPairLeft(q, f) && !IsRed(q.right)
    ensures Unbalanced(LiftedLeft(q, f), f.left)
    ensures InOrder(Plug(LiftedLeft(q, f), f.left)) == InOrder(Plug(q, f))
  {
    var g := Filled(q, f);
    RotationKeepsOrder(RotatedRight(g));
    PlugSameOrder(q.up, g, Filled(LiftedLeft(q, f), f.left));
  }

  lemma LiftedRightUnbalanced(q: Path, f: Shape)
    requires RedPairRight(q, f) && !IsRed(q.left)
    ensures Unbalanced(LiftedRight(q, f), f.right)
    ensures InOrder(Plug(LiftedRight(q, f), f.right)) == InOrder(Plug(q, f))
  {
    var g := Filled(q, f);
    RotationKeepsOrder(g);
    PlugSameOrder(q.up, g, Filled(LiftedRight(q, f), f.right));
  }

  // ---------- rebalancing after a deletion ----------

  ghost function Black(t: Shape): Shape {
    if t.Leaf? then Leaf else t.(red := false)
  }

  /** All is well, except that every way into `t` misses one black node; painting a red root of
      `t` black would make up for it. */
  ghost predicate Deficient(p: Path, t: Shape) {
    RedBlack(Black(t)) && Fits(p, BlackHeight(t) + 1, false)
  }

  lemma FitsBlack(p: Path, h: nat, red: bool)
    requires Fits(p, h, red)
    ensures Fits(p, h, false)
  {
  }

  /** The only subtree of a node in a red-black tree. */
  lemma OnlyChild(t: Shape, r: Shape)
    requires RedBlack(t) && t.Fork?
    requires (t.left == Leaf && r == t.right) || (t.right == Leaf && r == t.left)
    ensures RedBlack(r) && RedBlack(Black(r))
    ensures t.red ==> !IsRed(r) && BlackHeight(r) == BlackHeight(t)
    ensures !t.red ==> BlackHeight(r) + 1 == BlackHeight(t)
  {
  }

  /** Taking out a node with at most one child: nothing is lost if it was red. */
  lemma RemovedFits(p: Path, t: Shape, r: Shape)
    requires RedBlack(Plug(p, t)) && !IsRed(Plug(p, t))
    requires t.Fork? && ((t.left == Leaf && r == t.right) || (t.right == Leaf && r == t.left))
    ensures t.red ==> RedBlack(Plug(p, r)) && !IsRed(Plug(p, r))
    ensures !t.red ==> Deficient(p, r)
  {
    RedBlackFits(p, t);
    OnlyChild(t, r);
    FitsBlack(p, BlackHeight(t), t.red);
    if t.red {
      PlugRedBlack(p, r);
    }
  }

  /** Taking out a root with at most one child. */
  lemma RootRemoved(t: Shape, r: Shape) returns (k: nat)
    requires RedBlack(t) && !IsRed(t) && t.Fork?
    requires (t.left == Leaf && r == t.right) || (t.right == Leaf && r == t.left)
    ensures RedBlack(Black(r)) && !IsRed(Black(r))
    ensures TakenOut(InOrder(t), k, t.node, InOrder(Black(r)))
  {
    k := BypassedOrder(Top, t, r);
    OnlyChild(t, r);
  }

  /** Another node in the place of `n` above the hole changes none of this. */
  lemma RenamedFits(s: Path, p: Path, l: Shape, n: Node, n': Node, red: bool, t: Shape)
    requires var q := Append(s, InRight(p, l, n, red));
      Deficient(q, t) || (RedBlack(Plug(q, t)) && !IsRed(Plug(q, t)))
    ensures var q, q' := Append(s, InRight(p, l, n, red)), Append(s, InRight(p, l, n', red));
      && (Deficient(q, t) ==> Deficient(q', t))
      && (RedBlack(Plug(q, t)) && !IsRed(Plug(q, t)) ==> RedBlack(Plug(q', t)) && !IsRed(Plug(q', t)))
  {
    var b, b' := InRight(p, l, n, red), InRight(p, l, n', red);
    var q, q' := Append(s, b), Append(s, b');
    if Deficient(q, t) {
      FitsAppend(s, b, b', BlackHeight(t) + 1, false);
    }
    if RedBlack(Plug(q, t)) && !IsRed(Plug(q, t)) {
      RedBlackFits(q, t);
      FitsAppend(s, b, b', BlackHeight(t), IsRed(t));
      PlugRedBlack(q', t);
    }
  }

  /** Deleting `node` by moving its successor, the root of `u`, into its place. */
  lemma TransplantedFits(p: Path, l: Shape, node: Node, red: bool, s: Path, u: Shape) returns (k: nat)
    requires u.Fork? && u.left == Leaf && Before(s) == []
    requires node !in PathSet(p) + NodeSet(l) + NodeSet(Plug(s, u)) && node != u.node
    requires var whole := Plug(p, Fork(l, node, red, Plug(s, u))); RedBlack(whole) && !IsRed(whole)
    ensures var whole, q := Plug(p, Fork(l, node, red, Plug(s, u))), Append(s, InRight(p, l, u.node, red));
      && (if u.red then RedBlack(Plug(q, u.right)) && !IsRed(Plug(q, u.right)) else Deficient(q, u.right))
      && NodeSet(whole) == NodeSet(Plug(q, u.right)) + {node} && node !in NodeSet(Plug(q, u.right))
      && TakenOut(InOrder(whole), k, node, InOrder(Plug(q, u.right)))
  {
    hide RedBlack, Deficient;
    var base, base' := InRight(p, l, node, red), InRight(p, l, u.node, red);
    PlugAppend(s, base, u);
    PlugAppend(s, base', u.right);
    RemovedFits(Append(s, base), u, u.right);
    RenamedFits(s, p, l, node, u.node, red, u.right);
    PlugNodeSet(s, u);
    PlugNodeSet(s, u.right);
    PlugNodeSet(p, Fork(l, node, red, Plug(s, u)));
    PlugNodeSet(p, Fork(l, u.node, red, Plug(s, u.right)));
    k := TransplantedOrder(p, l, node, red, s, u.node, u.red, u.right);
  }

  /** Where the loop ends, painting the root of `t` black repairs the tree. */
  lemma DeficientMended(p: Path, t: Shape)
    requires Deficient(p, t) && (p == Top || IsRed(t))
    ensures RedBlack(Plug(p, Black(t))) && !IsRed(Plug(p, Black(t)))
    ensures InOrder(Plug(p, Black(t))) == InOrder(Plug(p, t))
  {
    PlugRedBlack(p, Black(t));
    PlugSameOrder(p, t, Black(t));
  }

  /** The sibling of a deficient black subtree is a real node. */
  lemma SiblingExists(p: Path, t: Shape)
    requires Deficient(p, t) && p != Top
    ensures (if p.InLeft? then p.right else p.left).Fork?
  {
  }

  // Case 1: the sibling is red.

  ghost function SiblingRaisedLeft(p: Path): Path
    requires p.InLeft? && p.right.Fork?
  {
    InLeft(InLeft(p.up, p.right.node, false, p.right.right), p.node, true, p.right.left)
  }

  ghost function SiblingRaisedRight(p: Path): Path
    requires p.InRight? && p.left.Fork?
  {
    InRight(InRight(p.up, p.left.left, p.left.node, false), p.left.right, p.node, true)
  }

  lemma RedSiblingLeft(p: Path, t: Shape)
    requires Deficient(p, t) && p.InLeft? && IsRed(p.right)
    ensures var q := SiblingRaisedLeft(p);
      && Deficient(q, t) && !IsRed(q.right) && q.red && Depth(q) == Depth(p) + 1
      && InOrder(Plug(q, t)) == InOrder(Plug(p, t))
  {
    var q := SiblingRaisedLeft(p);
    RotationKeepsOrder(Filled(p, t));
    PlugSameOrder(p.up, Filled(p, t), Filled(q.up, Filled(q, t)));
    assert Plug(q, t) == Plug(q.up, Filled(q, t));
    assert Fits(q.up, BlackHeight(t) + 1, true);
  }

  lemma RedSiblingRight(p: Path, t: Shape)
    requires Deficient(p, t) && p.InRight? && IsRed(p.left)
    ensures var q := SiblingRaisedRight(p);
      && Deficient(q, t) && !IsRed(q.left) && q.red && Depth(q) == Depth(p) + 1
      && InOrder(Plug(q, t)) == InOrder(Plug(p, t))
  {
    var q := SiblingRaisedRight(p);
    RotationKeepsOrder(RotatedRight(Filled(p, t)));
    PlugSameOrder(p.up, Filled(p, t), Filled(q.up, Filled(q, t)));
    assert Plug(q, t) == Plug(q.up, Filled(q, t));
    assert Fits(q.up, BlackHeight(t) + 1, true);
  }

  // Case 2: the sibling is black and so are its children.

  /** `t` hung back under its parent, with the sibling painted red. */
  ghost function SiblingReddened(p: Path, t: Shape): Shape
    requires p != Top && (if p.InLeft? then p.right else p.left).Fork?
  {
    match p
    case InLeft(_, n, red, r) => Fork(t, n, red, r.(red := true))
    case InRight(_, l, n, red) => Fork(l.(red := true), n, red, t)
  }

  lemma BlackSibling(p: Path, t: Shape)
    requires Deficient(p, t) && p != Top && !IsRed(t)
    requires var w := if p.InLeft? then p.right else p.left;
      w.Fork? && !w.red && !IsRed(w.left) && !IsRed(w.right)
    ensures Deficient(p.up, SiblingReddened(p, t))
    ensures IsRed(SiblingReddened(p, t)) == p.red
    ensures InOrder(Plug(p.up, SiblingReddened(p, t))) == InOrder(Plug(p, t))
  {
    FitsBlack(p.up, BlackHeight(t) + 1 + if p.red then 0 else 1, p.red);
    PlugSameOrder(p.up, Filled(p, t), SiblingReddened(p, t));
  }

  // Case 3: the sibling is black and only its inner child is red.

  ghost function InnerRaisedLeft(w: Shape): Shape
    requires w.Fork? && w.left.Fork?
  {
    RotatedRight(w.(left := w.left.(red := false), red := true))
  }

  ghost function InnerRaisedRight(w: Shape): Shape
    requires w.Fork? && w.right.Fork?
  {
    RotatedLeft(w.(right := w.right.(red := false), red := true))
  }

  lemma InnerRedLeft(p: Path, t: Shape)
    requires Deficient(p, t) && p.InLeft? && p.right.Fork? && !p.right.red
    requires IsRed(p.right.left) && !IsRed(p.right.right)
    ensures var q := p.(right := InnerRaisedLeft(p.right));
      && Deficient(q, t) && q.right.Fork? && !q.right.red && IsRed(q.right.right)
      && InOrder(Plug(q, t)) == InOrder(Plug(p, t))
  {
    var w, q := p.right, p.(right := InnerRaisedLeft(p.right));
    var v := w.(left := w.left.(red := false), red := true);
    assert InOrder(v.left) == InOrder(w.left) && InOrder(v) == InOrder(w);
    RotationKeepsOrder(q.right);
    assert RotatedLeft(q.right) == v;
    assert RedBlack(w) && RedBlack(w.left);
    assert RedBlack(q.right.right) && RedBlack(q.right);
    PlugSameOrder(p.up, Filled(p, t), Filled(q, t));
  }

  lemma InnerRedRight(p: Path, t: Shape)
    requires Deficient(p, t) && p.InRight? && p.left.Fork? && !p.left.red
    requires IsRed(p.left.right) && !IsRed(p.left.left)
    ensures var q := p.(left := InnerRaisedRight(p.left));
      && Deficient(q, t) && q.left.Fork? && !q.left.red && IsRed(q.left.left)
      && InOrder(Plug(q, t)) == InOrder(Plug(p, t))
  {
    var w, q := p.left, p.(left := InnerRaisedRight(p.left));
    var v := w.(right := w.right.(red := false), red := true);
    assert InOrder(v.right) == InOrder(w.right) && InOrder(v) == InOrder(w);
    RotationKeepsOrder(v);
    assert RedBlack(w) && RedBlack(w.right);
    assert RedBlack(q.left.left) && RedBlack(q.left);
    PlugSameOrder(p.up, Filled(p, t), Filled(q, t));
  }

  // Case 4: the sibling is black and its outer child is red; one rotation mends the tree.

  ghost function MendedLeft(p: Path, t: Shape): Shape
    requires p.InLeft? && p.right.Fork? && p.right.right.Fork?
  {
    var w := p.right;
    RotatedLeft(Fork(t, p.node, false, Fork(w.left, w.node, p.red, w.right.(red := false))))
  }

  ghost function MendedRight(p: Path, t: Shape): Shape
    requires p.InRight? && p.left.Fork? && p.left.left.Fork?
  {
    var w := p.left;
    RotatedRight(Fork(Fork(w.left.(red := false), w.node, p.red, w.right), p.node, false, t))
  }

  lemma OuterRedLeft(p: Path, t: Shape)
    requires Deficient(p, t) && !IsRed(t) && p.InLeft? && p.right.Fork? && !p.right.red && IsRed(p.right.right)
    ensures RedBlack(Plug(p.up, MendedLeft(p, t))) && !IsRed(Plug(p.up, MendedLeft(p, t)))
    ensures InOrder(Plug(p.up, MendedLeft(p, t))) == InOrder(Plug(p, t))
  {
    var w := p.right;
    var v := Fork(w.left, w.node, p.red, w.right.(red := false));
    assert InOrder(w.right.(red := false)) == InOrder(w.right) && InOrder(v) == InOrder(w);
    RotationKeepsOrder(Fork(t, p.node, false, v));
    assert RedBlack(w) && RedBlack(w.right);
    assert RedBlack(v.right) && RedBlack(Fork(t, p.node, false, v.left));
    PlugSameOrder(p.up, Filled(p, t), MendedLeft(p, t));
    PlugRedBlack(p.up, MendedLeft(p, t));
  }

  lemma OuterRedRight(p: Path, t: Shape)
    requires Deficient(p, t) && !IsRed(t) && p.InRight? && p.left.Fork? && !p.left.red && IsRed(p.left.left)
    ensures RedBlack(Plug(p.up, MendedRight(p, t))) && !IsRed(Plug(p.up, MendedRight(p, t)))
    ensures InOrder(Plug(p.up, MendedRight(p, t))) == InOrder(Plug(p, t))
  {
    var w := p.left;
    var v := Fork(w.left.(red := false), w.node, p.red, w.right);
    assert InOrder(w.left.(red := false)) == InOrder(w.left) && InOrder(v) == InOrder(w);
    RotationKeepsOrder(MendedRight(p, t));
    assert RotatedLeft(MendedRight(p, t)) == Fork(v, p.node, false, t);
    assert RedBlack(w) && RedBlack(w.left);
    assert RedBlack(v.left) && RedBlack(Fork(v.right, p.node, false, t));
    PlugSameOrder(p.up, Filled(p, t), MendedRight(p, t));
    PlugRedBlack(p.up, MendedRight(p, t));
  }
}
