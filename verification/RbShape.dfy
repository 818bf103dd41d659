/** Nodes of the red-black tree, and the values that describe how they are linked. */
module RbShape {

  /** `ngx_rbtree_key_t`: an unsigned machine word of 64 bits. */
  const TWO_TO_THE_64: int := 0x1_0000_0000_0000_0000
  const TWO_TO_THE_63: int := 0x8000_0000_0000_0000
  type Key = k: int | 0 <= k < TWO_TO_THE_64

  /** `ngx_rbtree_node_t`.  A node outside any tree has arbitrary links. */
  class Node {
    var key: Key
    var left: Node?
    var right: Node?
    var parent: Node?
    var red: bool

    constructor (key: Key)
      ensures this.key == key
    {
      this.key := key;
    }
  }

  /** The tree that a pointer stands for: `Leaf` is the sentinel. */
  datatype Shape = Leaf | Fork(left: Shape, node: Node, red: bool, right: Shape)

  /** A tree with a hole: what lies above and beside the place a loop is looking at. */
  datatype Path =
    | Top
    | InLeft(up: Path, node: Node, red: bool, right: Shape)
    | InRight(up: Path, left: Shape, node: Node, red: bool)

  ghost function Filled(p: Path, t: Shape): Shape
    requires p != Top
  {
    match p
    case InLeft(_, n, red, r) => Fork(t, n, red, r)
    case InRight(_, l, n, red) => Fork(l, n, red, t)
  }

  ghost function Plug(p: Path, t: Shape): Shape {
    if p == Top then t else Plug(p.up, Filled(p, t))
  }

  /** `s` with `base` above it. */
  ghost function Append(s: Path, base: Path): Path {
    if s == Top then base else s.(up := Append(s.up, base))
  }

  lemma {:induction false} PlugAppend(s: Path, base: Path, t: Shape)
    ensures Plug(Append(s, base), t) == Plug(base, Plug(s, t))
    decreases s
  {
    if s != Top {
      PlugAppend(s.up, base, Filled(s, t));
    }
  }

  lemma AppendTop(s: Path)
    ensures Append(s, Top) == s
  {
  }

  /** Every node of a tree is the root of one of its subtrees. */
  lemma {:induction false} Locate(base: Path, t: Shape, n: Node) returns (p: Path, s: Shape)
    requires n in NodeSet(t)
    ensures Plug(p, s) == Plug(base, t) && s.Fork? && s.node == n
    decreases t
  {
    if n == t.node {
      p, s := base, t;
    } else if n in NodeSet(t.left) {
      p, s := Locate(InLeft(base, t.node, t.red, t.right), t.left, n);
    } else {
      p, s := Locate(InRight(base, t.left, t.node, t.red), t.right, n);
    }
  }

  ghost function Depth(p: Path): nat {
    if p == Top then 0 else 1 + Depth(p.up)
  }

  // ---------- the in-order sequence and the set of nodes ----------

  ghost function InOrder(t: Shape): seq<Node> {
    match t
    case Leaf => []
    case Fork(l, n, _, r) => InOrder(l) + [n] + InOrder(r)
  }

  ghost function Before(p: Path): seq<Node> {
    match p
    case Top => []
    case InLeft(up, _, _, _) => Before(up)
    case InRight(up, l, n, _) => Before(up) + InOrder(l) + [n]
  }

  ghost function After(p: Path): seq<Node> {
    match p
    case Top => []
    case InLeft(up, n, _, r) => [n] + InOrder(r) + After(up)
    case InRight(up, _, _, _) => After(up)
  }

  lemma {:induction false} PlugInOrder(p: Path, t: Shape)
    ensures InOrder(Plug(p, t)) == Before(p) + InOrder(t) + After(p)
    decreases p
  {
    if p != Top {
      PlugInOrder(p.up, Filled(p, t));
    }
  }

  lemma Regrouped(a: seq<Node>, b: seq<Node>, n: Node, c: seq<Node>, d: seq<Node>)
    ensures a + (b + [n] + c) + d == (a + b) + [n] + (c + d)
    ensures [n] + c + d == [n] + (c + d)
  {
  }

  /** What comes before and after the root of a subtree. */
  lemma Sides(p: Path, t: Shape)
    requires t.Fork?
    ensures InOrder(Plug(p, t)) == (Before(p) + InOrder(t.left)) + [t.node] + (InOrder(t.right) + After(p))
    ensures After(InLeft(p, t.node, t.red, t.right)) == [t.node] + (InOrder(t.right) + After(p))
  {
    PlugInOrder(p, t);
    Regrouped(Before(p), InOrder(t.left), t.node, InOrder(t.right), After(p));
  }

  lemma PlugSameOrder(p: Path, t: Shape, t': Shape)
    requires InOrder(t) == InOrder(t')
    ensures InOrder(Plug(p, t)) == InOrder(Plug(p, t'))
  {
    PlugInOrder(p, t);
    PlugInOrder(p, t');
  }

  ghost function NodeSet(t: Shape): set<Node> {
    match t
    case Leaf => {}
    case Fork(l, n, _, r) => NodeSet(l) + {n} + NodeSet(r)
  }

  ghost function PathSet(p: Path): set<Node> {
    match p
    case Top => {}
    case InLeft(up, n, _, r) => {n} + NodeSet(r) + PathSet(up)
    case InRight(up, l, n, _) => {n} + NodeSet(l) + PathSet(up)
  }

  lemma {:induction false} PlugNodeSet(p: Path, t: Shape)
    ensures NodeSet(Plug(p, t)) == PathSet(p) + NodeSet(t)
    decreases p
  {
    if p != Top {
      PlugNodeSet(p.up, Filled(p, t));
    }
  }

  lemma {:induction false} InOrderElements(t: Shape)
    ensures NodeSet(t) == set n | n in InOrder(t)
  {
    if t.Fork? {
      InOrderElements(t.left);
      InOrderElements(t.right);
    }
  }

  /** `s` is `s'` with `n` at place `k` taken out. */
  ghost predicate TakenOut(s: seq<Node>, k: nat, n: Node, s': seq<Node>) {
    k < |s| && s[k] == n && s' == s[..k] + s[k + 1..]
  }

  lemma TakenOutMiddle(a: seq<Node>, n: Node, b: seq<Node>)
    ensures TakenOut(a + [n] + b, |a|, n, a + b)
  {
  }

  /** Hanging the only subtree of a node into its place takes the node out of the sequence. */
  lemma BypassedOrder(p: Path, t: Shape, r: Shape) returns (k: nat)
    requires t.Fork? && ((t.left == Leaf && r == t.right) || (t.right == Leaf && r == t.left))
    ensures TakenOut(InOrder(Plug(p, t)), k, t.node, InOrder(Plug(p, r)))
  {
    Sides(p, t);
    PlugInOrder(p, r);
    TakenOutMiddle(Before(p) + InOrder(t.left), t.node, InOrder(t.right) + After(p));
    k := |Before(p) + InOrder(t.left)|;
    if t.left == Leaf {
      assert (Before(p) + []) + (InOrder(r) + After(p)) == Before(p) + InOrder(r) + After(p);
    } else {
      assert (Before(p) + InOrder(r)) + ([] + After(p)) == Before(p) + InOrder(r) + After(p);
    }
  }

  lemma RegroupedRight(n: Node, b: seq<Node>, c: seq<Node>, d: seq<Node>)
    ensures [] + ([] + [n] + b) + c == [n] + (b + c)
    ensures [n] + (b + c) + d == [n] + (b + c + d)
    ensures [] + b + c == b + c
  {
  }

  /** What comes after a node whose successor is `subst`. */
  lemma SuccessorFirst(s: Path, subst: Node, c: bool, r: Shape)
    requires Before(s) == []
    ensures InOrder(Plug(s, Fork(Leaf, subst, c, r))) == [subst] + (InOrder(r) + After(s))
    ensures InOrder(Plug(s, r)) == InOrder(r) + After(s)
  {
    PlugInOrder(s, Fork(Leaf, subst, c, r));
    PlugInOrder(s, r);
    RegroupedRight(subst, InOrder(r), After(s), []);
  }

  /** The lowest node of a path that is put together. */
  lemma AppendLowest(s: Path, p: Path, l: Shape, n: Node, red: bool)
    ensures var q := Append(s, InRight(p, l, n, red)); q != Top && q.node == if s == Top then n else s.node
  {
  }

  /** So does moving its successor into its place. */
  lemma TransplantedOrder(p: Path, l: Shape, node: Node, red: bool, s: Path, subst: Node, c: bool, r: Shape)
    returns (k: nat)
    requires Before(s) == []
    ensures TakenOut(InOrder(Plug(Append(s, InRight(p, l, node, red)), Fork(Leaf, subst, c, r))), k, node,
                     InOrder(Plug(Append(s, InRight(p, l, subst, red)), r)))
  {
    var t0 := Fork(Leaf, subst, c, r);
    PlugAppend(s, InRight(p, l, node, red), t0);
    PlugAppend(s, InRight(p, l, subst, red), r);
    SuccessorFirst(s, subst, c, r);
    Sides(p, Fork(l, node, red, Plug(s, t0)));
    Sides(p, Fork(l, subst, red, Plug(s, r)));
    RegroupedRight(subst, InOrder(r), After(s), After(p));
    var a, b := Before(p) + InOrder(l), InOrder(r) + After(s) + After(p);
    k := |a|;
    TakenOutBefore(a, node, subst, b);
  }

  lemma TakenOutBefore(a: seq<Node>, n: Node, m: Node, b: seq<Node>)
    ensures TakenOut(a + [n] + ([m] + b), |a|, n, a + [m] + b)
  {
    TakenOutMiddle(a, n, [m] + b);
    assert a + ([m] + b) == a + [m] + b;
  }

  lemma SameOrderSameNodes(t: Shape, t': Shape)
    requires InOrder(t) == InOrder(t')
    ensures NodeSet(t) == NodeSet(t')
  {
    InOrderElements(t);
    InOrderElements(t');
  }

  // ---------- no node occurs twice ----------

  ghost predicate Distinct(t: Shape) {
    match t
    case Leaf => true
    case Fork(l, n, _, r) =>
      && n !in NodeSet(l) && n !in NodeSet(r) && NodeSet(l) !! NodeSet(r)
      && Distinct(l) && Distinct(r)
  }

  ghost predicate PathDistinct(p: Path) {
    match p
    case Top => true
    case InLeft(up, n, _, r) =>
      && n !in NodeSet(r) && n !in PathSet(up) && NodeSet(r) !! PathSet(up)
      && Distinct(r) && PathDistinct(up)
    case InRight(up, l, n, _) =>
      && n !in NodeSet(l) && n !in PathSet(up) && NodeSet(l) !! PathSet(up)
      && Distinct(l) && PathDistinct(up)
  }

  lemma {:induction false} OrderDistinct(t: Shape)
    requires Distinct(t)
    ensures forall i, j | 0 <= i < j < |InOrder(t)| :: InOrder(t)[i] != InOrder(t)[j]
  {
    if t.Fork? {
      OrderDistinct(t.left);
      OrderDistinct(t.right);
      InOrderElements(t.left);
      InOrderElements(t.right);
      var l, r, s := InOrder(t.left), InOrder(t.right), InOrder(t);
      forall i, j | 0 <= i < j < |s|
        ensures s[i] != s[j]
      {
        assert i < |l| ==> s[i] == l[i] && s[i] in NodeSet(t.left);
        assert j < |l| ==> s[j] == l[j];
        assert i > |l| ==> s[i] == r[i - |l| - 1];
        assert j > |l| ==> s[j] == r[j - |l| - 1] && s[j] in NodeSet(t.right);
      }
    }
  }

  lemma FirstTakenOut(t: Shape, k: nat, s': seq<Node>)
    requires Distinct(t) && InOrder(t) != [] && TakenOut(InOrder(t), k, InOrder(t)[0], s')
    ensures s' == InOrder(t)[1..]
  {
    OrderDistinct(t);
  }

  /** The place of the root of a subtree in the whole sequence, and what comes right after it. */
  lemma PlaceOf(p: Path, t: Shape, k: nat)
    requires t.Fork? && Distinct(Plug(p, t))
    requires k < |InOrder(Plug(p, t))| && InOrder(Plug(p, t))[k] == t.node
    ensures k == |Before(p) + InOrder(t.left)|
    ensures InOrder(Plug(p, t))[k + 1..] == InOrder(t.right) + After(p)
  {
    Sides(p, t);
    OrderDistinct(Plug(p, t));
    var a := Before(p) + InOrder(t.left);
    assert (a + [t.node] + (InOrder(t.right) + After(p)))[|a|] == t.node;
  }

  // ---------- the red-black conditions ----------

  ghost predicate IsRed(t: Shape) { t.Fork? && t.red }

  /** Black nodes on the way down the left edge; in a red-black tree, on every way down. */
  ghost function BlackHeight(t: Shape): nat {
    match t
    case Leaf => 0
    case Fork(l, _, red, _) => BlackHeight(l) + if red then 0 else 1
  }

  ghost predicate RedBlack(t: Shape) {
    match t
    case Leaf => true
    case Fork(l, _, red, r) =>
      && RedBlack(l) && RedBlack(r)
      && BlackHeight(l) == BlackHeight(r)
      && (red ==> !IsRed(l) && !IsRed(r))
  }

  /** A red-black tree of black height `h`, with a red root if `red`, fits the hole of `p`:
      the whole is then a red-black tree with a black root. */
  ghost predicate Fits(p: Path, h: nat, red: bool) {
    match p
    case Top => !red
    case InLeft(up, _, c, r) =>
      && RedBlack(r) && BlackHeight(r) == h && (c ==> !IsRed(r) && !red)
      && Fits(up, h + if c then 0 else 1, c)
    case InRight(up, l, _, c) =>
      && RedBlack(l) && BlackHeight(l) == h && (c ==> !IsRed(l) && !red)
      && Fits(up, h + if c then 0 else 1, c)
  }

  lemma {:induction false} PlugRedBlack(p: Path, t: Shape)
    requires RedBlack(t) && Fits(p, BlackHeight(t), IsRed(t))
    ensures RedBlack(Plug(p, t)) && !IsRed(Plug(p, t))
    decreases p
  {
    if p != Top {
      PlugRedBlack(p.up, Filled(p, t));
    }
  }

  /** The converse of `PlugRedBlack`. */
  lemma {:induction false} RedBlackFits(p: Path, t: Shape)
    requires RedBlack(Plug(p, t)) && !IsRed(Plug(p, t))
    ensures RedBlack(t) && Fits(p, BlackHeight(t), IsRed(t))
    decreases p
  {
    if p != Top {
      RedBlackFits(p.up, Filled(p, t));
    }
  }

  /** Which nodes a path runs through does not matter to the red-black conditions. */
  lemma {:induction false} FitsAppend(s: Path, b: Path, b': Path, h: nat, red: bool)
    requires forall h, red :: Fits(b, h, red) <==> Fits(b', h, red)
    ensures Fits(Append(s, b), h, red) <==> Fits(Append(s, b'), h, red)
    decreases s
  {
    if s != Top {
      FitsAppend(s.up, b, b', h + if s.red then 0 else 1, s.red);
    }
  }

  ghost function BlackNodes(p: Path): nat {
    if p == Top then 0 else BlackNodes(p.up) + if p.red then 0 else 1
  }

  /** Every way from the root down to an empty place meets the same number of black nodes. */
  lemma {:induction false} EqualBlackHeights(p: Path, t: Shape)
    requires RedBlack(Plug(p, t))
    ensures RedBlack(t) && BlackNodes(p) + BlackHeight(t) == BlackHeight(Plug(p, t))
    decreases p
  {
    if p != Top {
      EqualBlackHeights(p.up, Filled(p, t));
    }
  }

  ghost function Height(t: Shape): nat {
    match t
    case Leaf => 0
    case Fork(l, _, _, r) => 1 + if Height(l) < Height(r) then Height(r) else Height(l)
  }

  ghost function Pow2(n: nat): nat {
    if n == 0 then 1 else 2 * Pow2(n - 1)
  }

  /** A red-black tree is never much higher than a balanced one: its height is at most twice the
      logarithm of its size. */
  lemma {:induction false} HeightBound(t: Shape)
    requires RedBlack(t)
    ensures Height(t) <= 2 * BlackHeight(t) + if IsRed(t) then 1 else 0
    ensures Pow2(BlackHeight(t)) <= |InOrder(t)| + 1
  {
    if t.Fork? {
      HeightBound(t.left);
      HeightBound(t.right);
    }
  }

  // ---------- rotations ----------

  ghost function RotatedLeft(t: Shape): Shape
    requires t.Fork? && t.right.Fork?
  {
    Fork(Fork(t.left, t.node, t.red, t.right.left), t.right.node, t.right.red, t.right.right)
  }

  ghost function RotatedRight(t: Shape): Shape
    requires t.Fork? && t.left.Fork?
  {
    Fork(t.left.left, t.left.node, t.left.red, Fork(t.left.right, t.node, t.red, t.right))
  }

  lemma Regroup(a: seq<Node>, b: seq<Node>, c: seq<Node>, d: seq<Node>)
    ensures a + (b + c + d) == a + b + c + d
  {
  }

  /** Rotating keeps the in-order sequence, and the two rotations undo each other. */
  lemma RotationKeepsOrder(t: Shape)
    requires t.Fork? && t.right.Fork?
    ensures InOrder(RotatedLeft(t)) == InOrder(t)
    ensures RotatedRight(RotatedLeft(t)) == t
  {
    var Fork(a, x, cx, Fork(b, y, cy, c)) := t;
    assert InOrder(t.right) == InOrder(b) + [y] + InOrder(c);
    assert InOrder(RotatedLeft(t).left) == InOrder(a) + [x] + InOrder(b);
    Regroup(InOrder(a) + [x], InOrder(b), [y], InOrder(c));
  }

  lemma RotationKeepsNodes(t: Shape)
    requires t.Fork? && t.right.Fork?
    ensures NodeSet(RotatedLeft(t)) == NodeSet(t)
    ensures Distinct(RotatedLeft(t)) <==> Distinct(t)
  {
    var Fork(a, x, cx, Fork(b, y, cy, c)) := t;
    assert NodeSet(t.right) == NodeSet(b) + {y} + NodeSet(c);
    assert NodeSet(Fork(a, x, cx, b)) == NodeSet(a) + {x} + NodeSet(b);
    assert Distinct(t.right)
           <==> y !in NodeSet(b) + NodeSet(c) && NodeSet(b) !! NodeSet(c) && Distinct(b) && Distinct(c);
    assert Distinct(Fork(a, x, cx, b))
           <==> x !in NodeSet(a) + NodeSet(b) && NodeSet(a) !! NodeSet(b) && Distinct(a) && Distinct(b);
  }
}
