/** When the links and colours held in memory spell out a tree, and what writes do to that. */
module RbMemory {
  import opened RbShape

  /** The links and the colour of one node. */
  datatype Cell = Cell(left: Node?, right: Node?, parent: Node?, red: bool)
  type Memory = map<Node, Cell>

  ghost function Ptr(t: Shape, sentinel: Node): Node {
    if t.Leaf? then sentinel else t.node
  }

  /** Nothing is said of the parent of the root of `t`. */
  ghost predicate Linked(m: Memory, t: Shape, sentinel: Node) {
    match t
    case Leaf => true
    case Fork(l, n, red, r) =>
      && n in m && m[n].red == red
      && m[n].left == Ptr(l, sentinel) && m[n].right == Ptr(r, sentinel)
      && Linked(m, l, sentinel) && (l.Fork? ==> m[l.node].parent == n)
      && Linked(m, r, sentinel) && (r.Fork? ==> m[r.node].parent == n)
  }

  ghost predicate PathLinked(m: Memory, p: Path, hole: Node, sentinel: Node) {
    match p
    case Top => true
    case InLeft(up, n, red, r) =>
      && n in m && m[n].red == red && m[n].left == hole && m[n].right == Ptr(r, sentinel)
      && Linked(m, r, sentinel) && (r.Fork? ==> m[r.node].parent == n)
      && PathLinked(m, up, n, sentinel) && (up != Top ==> m[n].parent == up.node)
    case InRight(up, l, n, red) =>
      && n in m && m[n].red == red && m[n].left == Ptr(l, sentinel) && m[n].right == hole
      && Linked(m, l, sentinel) && (l.Fork? ==> m[l.node].parent == n)
      && PathLinked(m, up, n, sentinel) && (up != Top ==> m[n].parent == up.node)
  }

  ghost function RootPtr(p: Path, hole: Node): Node {
    if p == Top then hole else RootPtr(p.up, p.node)
  }

  lemma RootInPath(p: Path, hole: Node)
    ensures p == Top || RootPtr(p, hole) in PathSet(p)
  {
  }

  /** The memory spells out `t` plugged into `p`. */
  ghost predicate At(m: Memory, root: Node, p: Path, t: Shape, sentinel: Node) {
    && sentinel !in PathSet(p) && sentinel !in NodeSet(t)
    && PathDistinct(p) && PathSet(p) !! NodeSet(t) && Distinct(t)
    && root == RootPtr(p, Ptr(t, sentinel))
    && PathLinked(m, p, Ptr(t, sentinel), sentinel)
    && Linked(m, t, sentinel) && (t.Fork? && p != Top ==> m[t.node].parent == p.node)
  }

  /** Looking at a subtree, or one step higher at the tree it hangs in, is the same. */
  lemma Ascend(m: Memory, root: Node, p: Path, t: Shape, sentinel: Node)
    requires p != Top
    ensures At(m, root, p, t, sentinel) <==> At(m, root, p.up, Filled(p, t), sentinel)
  {
  }

  // ---------- what a write does not touch ----------

  ghost predicate Same(m: Memory, m': Memory, nodes: set<Node>) {
    forall n | n in nodes :: n in m && n in m' && m[n] == m'[n]
  }

  /** A tree stays linked when only its root gets another parent. */
  lemma {:induction false} LinkedFrame(m: Memory, m': Memory, t: Shape, sentinel: Node)
    requires Linked(m, t, sentinel) && Distinct(t)
    requires Same(m, m', NodeSet(t) - {Ptr(t, sentinel)})
    requires t.Fork? ==> t.node in m' && m'[t.node] == m[t.node].(parent := m'[t.node].parent)
    ensures Linked(m', t, sentinel)
  {
    if t.Fork? {
      assert t.left.Fork? ==> t.left.node in NodeSet(t.left);
      assert t.right.Fork? ==> t.right.node in NodeSet(t.right);
      LinkedFrame(m, m', t.left, sentinel);
      LinkedFrame(m, m', t.right, sentinel);
    }
  }

  lemma {:induction false} PathFrame(m: Memory, m': Memory, p: Path, hole: Node, sentinel: Node)
    requires PathLinked(m, p, hole, sentinel) && PathDistinct(p)
    requires Same(m, m', PathSet(p))
    ensures PathLinked(m', p, hole, sentinel)
  {
    match p {
      case Top =>
      case InLeft(up, n, _, r) =>
        assert r.Fork? ==> r.node in NodeSet(r);
        LinkedFrame(m, m', r, sentinel);
        PathFrame(m, m', up, n, sentinel);
      case InRight(up, l, n, _) =>
        assert l.Fork? ==> l.node in NodeSet(l);
        LinkedFrame(m, m', l, sentinel);
        PathFrame(m, m', up, n, sentinel);
    }
  }

  // ---------- another node in the hole ----------

  ghost function Refilled(p: Path, c: Cell, v: Node): Cell {
    if p.InLeft? then c.(left := v) else c.(right := v)
  }

  lemma PathRefilled(m: Memory, m': Memory, p: Path, hole: Node, hole': Node, sentinel: Node)
    requires PathLinked(m, p, hole, sentinel) && PathDistinct(p)
    requires p != Top ==> p.node in m' && m'[p.node] == Refilled(p, m[p.node], hole')
    requires Same(m, m', if p == Top then {} else PathSet(p) - {p.node})
    ensures PathLinked(m', p, hole', sentinel)
  {
    match p {
      case Top =>
      case InLeft(up, n, _, r) =>
        assert r.Fork? ==> r.node in NodeSet(r);
        LinkedFrame(m, m', r, sentinel);
        PathFrame(m, m', up, n, sentinel);
      case InRight(up, l, n, _) =>
        assert l.Fork? ==> l.node in NodeSet(l);
        LinkedFrame(m, m', l, sentinel);
        PathFrame(m, m', up, n, sentinel);
    }
  }

  ghost function ParentSet(m: Memory, n: Node, parent: Node?): Memory
    requires n in m
  {
    m[n := m[n].(parent := parent)]
  }

  /** The cell of a parent after its link to `n` was redirected to `v`:
      `if (n == n->parent->left) n->parent->left = v; else n->parent->right = v;` */
  ghost function Redirected(c: Cell, n: Node, v: Node): Cell {
    if c.left == n then c.(left := v) else c.(right := v)
  }

  /** Testing which child a real node is finds the side it hangs on. */
  lemma RedirectedIsRefilled(m: Memory, p: Path, hole: Node, hole': Node, sentinel: Node)
    requires p != Top && PathLinked(m, p, hole, sentinel)
    requires hole !in PathSet(p) && hole != sentinel
    ensures (m[p.node].left == hole) == p.InLeft?
    ensures Redirected(m[p.node], hole, hole') == Refilled(p, m[p.node], hole')
  {
    if p.InRight? && p.left.Fork? {
      assert p.left.node in NodeSet(p.left);
    }
  }

  // ---------- rotations ----------

  /** The writes of `ngx_rbtree_left_rotate` at `x`, node by node. */
  ghost predicate LeftMoved(m: Memory, m': Memory, root: Node, x: Node, sentinel: Node) {
    x in m && x in m' && m[x].right != null && (
      var y, p := m[x].right, m[x].parent;
      y in m && y in m' && m[y].left != null && (
        var b := m[y].left;
        && m'[x] == m[x].(right := b, parent := y)
        && m'[y] == m[y].(left := x, parent := p)
        && (b != sentinel ==> b in m && b in m' && m'[b] == m[b].(parent := x))
        && (x != root ==> p != null && p in m && p in m' && m'[p] == Redirected(m[p], x, y))
        && (forall n | n in m && n != x && n != y && (n != b || b == sentinel) && (n != p || x == root) ::
              n in m' && m'[n] == m[n])
      )
    )
  }

  /** The writes of `ngx_rbtree_right_rotate` at `y`, node by node. */
  ghost predicate RightMoved(m: Memory, m': Memory, root: Node, y: Node, sentinel: Node) {
    y in m && y in m' && m[y].left != null && (
      var x, p := m[y].left, m[y].parent;
      x in m && x in m' && m[x].right != null && (
        var b := m[x].right;
        && m'[y] == m[y].(left := b, parent := x)
        && m'[x] == m[x].(right := y, parent := p)
        && (b != sentinel ==> b in m && b in m' && m'[b] == m[b].(parent := y))
        && (y != root ==> p != null && p in m && p in m' && m'[p] == Redirected(m[p], y, x))
        && (forall n | n in m && n != x && n != y && (n != b || b == sentinel) && (n != p || y == root) ::
              n in m' && m'[n] == m[n])
      )
    )
  }

  lemma RotatedLeftLinked(m: Memory, m': Memory, root: Node, t: Shape, sentinel: Node)
    requires t.Fork? && t.right.Fork? && Distinct(t) && Linked(m, t, sentinel) && sentinel !in NodeSet(t)
    requires LeftMoved(m, m', root, t.node, sentinel)
    requires Same(m, m', NodeSet(t) - {t.node, t.right.node, Ptr(t.right.left, sentinel)})
    ensures Linked(m', RotatedLeft(t), sentinel)
  {
    var Fork(a, x, cx, Fork(b, y, cy, c)) := t;
    assert Distinct(t.right) && Linked(m, t.right, sentinel);
    assert NodeSet(t.right) == NodeSet(b) + {y} + NodeSet(c);
    assert a.Fork? ==> a.node in NodeSet(a);
    assert b.Fork? ==> b.node in NodeSet(b);
    assert c.Fork? ==> c.node in NodeSet(c);
    LinkedFrame(m, m', a, sentinel);
    LinkedFrame(m, m', b, sentinel);
    LinkedFrame(m, m', c, sentinel);
    assert Linked(m', Fork(a, x, cx, b), sentinel);
  }

  /** A left rotation turns the subtree it is called on, wherever that subtree hangs. */
  lemma LeftMovedAt(m: Memory, m': Memory, root: Node, p: Path, t: Shape, sentinel: Node)
    requires t.Fork? && t.right.Fork? && At(m, root, p, t, sentinel)
    requires LeftMoved(m, m', root, t.node, sentinel)
    requires PathSet(p) + NodeSet(t) <= m.Keys
    ensures At(m', if root == t.node then t.right.node else root, p, RotatedLeft(t), sentinel)
  {
    RootInPath(p, t.node);
    assert Linked(m, t.right, sentinel) && NodeSet(t.right) <= NodeSet(t);
    assert t.right.left.Fork? ==> t.right.left.node in NodeSet(t.right.left);
    RotationKeepsNodes(t);
    RotatedLeftLinked(m, m', root, t, sentinel);
    if p != Top {
      RedirectedIsRefilled(m, p, t.node, t.right.node, sentinel);
    }
    PathRefilled(m, m', p, t.node, t.right.node, sentinel);
  }

  lemma RotatedRightLinked(m: Memory, m': Memory, root: Node, t: Shape, sentinel: Node)
    requires t.Fork? && t.left.Fork? && Distinct(t) && Linked(m, t, sentinel) && sentinel !in NodeSet(t)
    requires RightMoved(m, m', root, t.node, sentinel)
    requires Same(m, m', NodeSet(t) - {t.node, t.left.node, Ptr(t.left.right, sentinel)})
    ensures Linked(m', RotatedRight(t), sentinel)
  {
    var Fork(Fork(a, x, cx, b), y, cy, c) := t;
    assert Distinct(t.left) && Linked(m, t.left, sentinel);
    assert NodeSet(t.left) == NodeSet(a) + {x} + NodeSet(b);
    assert a.Fork? ==> a.node in NodeSet(a);
    assert b.Fork? ==> b.node in NodeSet(b);
    assert c.Fork? ==> c.node in NodeSet(c);
    LinkedFrame(m, m', a, sentinel);
    LinkedFrame(m, m', b, sentinel);
    LinkedFrame(m, m', c, sentinel);
    assert Linked(m', Fork(b, y, cy, c), sentinel);
  }

  lemma RightMovedAt(m: Memory, m': Memory, root: Node, p: Path, t: Shape, sentinel: Node)
    requires t.Fork? && t.left.Fork? && At(m, root, p, t, sentinel)
    requires RightMoved(m, m', root, t.node, sentinel)
    requires PathSet(p) + NodeSet(t) <= m.Keys
    ensures At(m', if root == t.node then t.left.node else root, p, RotatedRight(t), sentinel)
  {
    RootInPath(p, t.node);
    assert Linked(m, t.left, sentinel) && NodeSet(t.left) <= NodeSet(t);
    assert t.left.right.Fork? ==> t.left.right.node in NodeSet(t.left.right);
    RotationKeepsNodes(RotatedRight(t));
    assert RotatedLeft(RotatedRight(t)) == t;
    RotatedRightLinked(m, m', root, t, sentinel);
    if p != Top {
      RedirectedIsRefilled(m, p, t.node, t.left.node, sentinel);
    }
    PathRefilled(m, m', p, t.node, t.left.node, sentinel);
  }

  // ---------- painting, grafting, removing and replacing one node ----------

  lemma RepaintedLinked(m: Memory, m': Memory, t: Shape, red: bool, sentinel: Node)
    requires t.Fork? && Linked(m, t, sentinel) && Distinct(t)
    requires t.node in m' && m'[t.node] == m[t.node].(red := red)
    requires Same(m, m', NodeSet(t) - {t.node})
    ensures Linked(m', t.(red := red), sentinel)
  {
    assert t.left.Fork? ==> t.left.node in NodeSet(t.left);
    assert t.right.Fork? ==> t.right.node in NodeSet(t.right);
    LinkedFrame(m, m', t.left, sentinel);
    LinkedFrame(m, m', t.right, sentinel);
  }

  /** Painting the root of a subtree. */
  lemma RepaintedAt(m: Memory, m': Memory, root: Node, p: Path, t: Shape, red: bool, sentinel: Node)
    requires t.Fork? && At(m, root, p, t, sentinel)
    requires t.node in m' && m'[t.node] == m[t.node].(red := red)
    requires Same(m, m', PathSet(p)) && Same(m, m', NodeSet(t) - {t.node})
    ensures At(m', root, p, t.(red := red), sentinel)
  {
    RepaintedLinked(m, m', t, red, sentinel);
    PathFrame(m, m', p, t.node, sentinel);
  }

  /** Hanging a node into an empty place. */
  lemma GraftedAt(m: Memory, m': Memory, root: Node, p: Path, n: Node, sentinel: Node)
    requires p != Top && At(m, root, p, Leaf, sentinel)
    requires n !in PathSet(p) && n != sentinel
    requires Same(m, m', PathSet(p) - {p.node})
    requires p.node in m' && m'[p.node] == Refilled(p, m[p.node], n)
    requires n in m' && m'[n] == Cell(sentinel, sentinel, p.node, true)
    ensures At(m', root, p, Fork(Leaf, n, true, Leaf), sentinel)
  {
    PathRefilled(m, m', p, sentinel, n, sentinel);
  }

  /** Hanging the only subtree of a node into the node's place. */
  lemma RemovedAt(m: Memory, m': Memory, root: Node, p: Path, t: Shape, c: Shape, sentinel: Node)
    requires t.Fork? && ((t.left == Leaf && c == t.right) || (t.right == Leaf && c == t.left))
    requires p != Top && At(m, root, p, t, sentinel)
    requires Same(m, m', PathSet(p) - {p.node})
    requires p.node in m' && m'[p.node] == Refilled(p, m[p.node], Ptr(c, sentinel))
    requires Same(m, m', NodeSet(c) - {Ptr(c, sentinel)})
    requires c.Fork? ==> c.node in m && c.node in m' && m'[c.node] == m[c.node].(parent := p.node)
    ensures At(m', root, p, c, sentinel)
  {
    LinkedFrame(m, m', c, sentinel);
    PathRefilled(m, m', p, t.node, Ptr(c, sentinel), sentinel);
  }

  /** The same, from the writes: the parent's link, and the parent of what hangs there now. */
  lemma BypassedAt(m: Memory, m': Memory, root: Node, p: Path, t: Shape, c: Shape, sentinel: Node)
    requires t.Fork? && ((t.left == Leaf && c == t.right) || (t.right == Leaf && c == t.left))
    requires p != Top && At(m, root, p, t, sentinel) && PathSet(p) + NodeSet(t) <= m.Keys
    requires p.node in m && Ptr(c, sentinel) in m
    requires m' == ParentSet(m[p.node := Refilled(p, m[p.node], Ptr(c, sentinel))], Ptr(c, sentinel), p.node)
    ensures At(m', root, p, c, sentinel) && t.node in m && m[t.node].parent == p.node && t.node != p.node
  {
    RemovedAt(m, m', root, p, t, c, sentinel);
  }

  lemma ReplacedLinked(m: Memory, m': Memory, t: Shape, y: Node, sentinel: Node)
    requires t.Fork? && Linked(m, t, sentinel) && Distinct(t) && sentinel !in NodeSet(t)
    requires y in m' && m'[y] == m[t.node]
    requires t.left.Fork? ==> t.left.node in m' && t.left.node in m && m'[t.left.node] == m[t.left.node].(parent := y)
    requires t.right.Fork? ==>
      t.right.node in m' && t.right.node in m && m'[t.right.node] == m[t.right.node].(parent := y)
    requires Same(m, m', NodeSet(t) - {t.node, Ptr(t.left, sentinel), Ptr(t.right, sentinel)})
    ensures Linked(m', t.(node := y), sentinel)
  {
    assert t.left.Fork? ==> t.left.node in NodeSet(t.left);
    assert t.right.Fork? ==> t.right.node in NodeSet(t.right);
    LinkedFrame(m, m', t.left, sentinel);
    LinkedFrame(m, m', t.right, sentinel);
  }

  /** Putting another node in the place of the root of a subtree. */
  lemma ReplacedAt(m: Memory, m': Memory, root: Node, p: Path, t: Shape, y: Node, sentinel: Node)
    requires t.Fork? && At(m, root, p, t, sentinel)
    requires y !in PathSet(p) && y !in NodeSet(t) && y != sentinel
    requires y in m' && m'[y] == m[t.node]
    requires t.left.Fork? ==> t.left.node in m' && t.left.node in m && m'[t.left.node] == m[t.left.node].(parent := y)
    requires t.right.Fork? ==>
      t.right.node in m' && t.right.node in m && m'[t.right.node] == m[t.right.node].(parent := y)
    requires Same(m, m', NodeSet(t) - {t.node, Ptr(t.left, sentinel), Ptr(t.right, sentinel)})
    requires p != Top ==> p.node in m' && m'[p.node] == Refilled(p, m[p.node], y)
    requires Same(m, m', if p == Top then {} else PathSet(p) - {p.node})
    ensures At(m', RootPtr(p, y), p, t.(node := y), sentinel)
  {
    ReplacedLinked(m, m', t, y, sentinel);
    PathRefilled(m, m', p, t.node, y, sentinel);
  }

  /** `Ascend`, repeated along all of `s`. */
  lemma {:induction false} AscendAll(m: Memory, root: Node, s: Path, base: Path, t: Shape, sentinel: Node)
    ensures At(m, root, Append(s, base), t, sentinel) <==> At(m, root, base, Plug(s, t), sentinel)
    decreases s
  {
    if s != Top {
      Ascend(m, root, Append(s, base), t, sentinel);
      AscendAll(m, root, s.up, base, Filled(s, t), sentinel);
    }
  }

  // ---------- deleting a node that has two children ----------

  /** What `ngx_rbtree_delete` writes to move `subst` into the place of `node` once `temp` hangs in
      the place of `subst`, node by node; the parent of `temp` is among it. */
  ghost predicate Substituted(m: Memory, m': Memory, root: Node, node: Node, subst: Node, temp: Node, sentinel: Node) {
    {node, subst, temp} <= m.Keys && m'.Keys == m.Keys && (
      var c, sp := m[node], m[subst].parent;
      && c.left in m.Keys && c.right in m.Keys
      && m'[subst] == c
      && m'[temp] == m[temp].(parent := if sp == node then subst else sp)
      && (c.left != sentinel ==> m'[c.left] == m[c.left].(parent := subst))
      && (c.right != sentinel && c.right != temp ==> m'[c.right] == m[c.right].(parent := subst))
      && (node != root ==> c.parent in m.Keys && m'[c.parent] == Redirected(m[c.parent], node, subst))
      && (forall n | n in m && n !in {subst, temp, c.left, c.right} && (n != c.parent || node == root) :: m'[n] == m[n])
    )
  }

  /** The writes of the transplant, one group after the other. */
  lemma SubstitutedBySteps(m: Memory, m1: Memory, m2: Memory, m3: Memory, m': Memory, root: Node, node: Node,
                           subst: Node, temp: Node, sentinel: Node)
    requires {node, subst, temp} <= m.Keys && node != subst && temp !in {node, subst}
    requires m[node].left in m.Keys && m[node].left !in {node, subst, temp, sentinel}
    requires m[node].right in m.Keys && m[node].right !in {node, subst, m[node].left}
    requires node != root ==>
      m[node].parent in m.Keys && m[node].parent !in {node, subst, temp, m[node].left, m[node].right}
    requires m1 == ParentSet(m, temp, if m[subst].parent == node then subst else m[subst].parent)[subst := m[node]]
    requires m2 == if node == root then m1 else m1[m[node].parent := Redirected(m1[m[node].parent], node, subst)]
    requires m3 == ParentSet(m2, m[node].left, subst)
    requires m' == if m[node].right == sentinel then m3 else ParentSet(m3, m[node].right, subst)
    requires m[subst].parent == node <==> m[node].right == temp
    ensures Substituted(m, m', root, node, subst, temp, sentinel)
    ensures m'[temp].parent == if m[subst].parent == node then subst else m[subst].parent
  {
  }

  /** The memory after the subtree `r` was hung into the hole of `q`, its root's parent included. */
  ghost function HungBelow(m: Memory, q: Path, r: Shape, sentinel: Node): Memory
    requires q != Top && q.node in m && (r.Fork? ==> r.node in m)
  {
    var m := m[q.node := Refilled(q, m[q.node], Ptr(r, sentinel))];
    if r.Fork? then m[r.node := m[r.node].(parent := q.node)] else m
  }

  /** Without its leftmost node `subst`, the right subtree of `node` is `Plug(s, r)`. */
  lemma SuccessorRemoved(m: Memory, root: Node, p: Path, node: Node, red: bool, l: Shape, s: Path,
                         subst: Node, c: bool, r: Shape, sentinel: Node)
    requires At(m, root, Append(s, InRight(p, l, node, red)), Fork(Leaf, subst, c, r), sentinel)
    ensures var q, t := Append(s, InRight(p, l, node, red)), Fork(l, node, red, Plug(s, r));
      && q.node in m && (r.Fork? ==> r.node in m)
      && At(HungBelow(m, q, r, sentinel), root, p, t, sentinel)
      && subst !in PathSet(p) + NodeSet(t) && subst != sentinel && m[subst].parent == q.node
  {
    var base := InRight(p, l, node, red);
    var q, t := Append(s, base), Fork(l, node, red, Plug(s, r));
    assert r.Fork? ==> Linked(m, r, sentinel) && r.node in NodeSet(r);
    assert q.node in PathSet(q);
    var m' := HungBelow(m, q, r, sentinel);
    PathInMemory(m, q, subst, sentinel);
    LinkedInMemory(m, r, sentinel);
    RemovedAt(m, m', root, q, Fork(Leaf, subst, c, r), r, sentinel);
    AscendAll(m', root, s, base, r, sentinel);
    Ascend(m', root, base, Plug(s, r), sentinel);
    PlugAppend(s, base, r);
    PlugNodeSet(q, r);
    PlugNodeSet(p, t);
  }

  lemma {:induction false} LinkedInMemory(m: Memory, t: Shape, sentinel: Node)
    requires Linked(m, t, sentinel)
    ensures NodeSet(t) <= m.Keys
  {
    if t.Fork? {
      LinkedInMemory(m, t.left, sentinel);
      LinkedInMemory(m, t.right, sentinel);
    }
  }

  lemma {:induction false} PathInMemory(m: Memory, p: Path, hole: Node, sentinel: Node)
    requires PathLinked(m, p, hole, sentinel)
    ensures PathSet(p) <= m.Keys
  {
    match p {
      case Top =>
      case InLeft(up, n, _, r) =>
        LinkedInMemory(m, r, sentinel);
        PathInMemory(m, up, n, sentinel);
      case InRight(up, l, n, _) =>
        LinkedInMemory(m, l, sentinel);
        PathInMemory(m, up, n, sentinel);
    }
  }

  /** `m1` is `m` but for the parent of `temp`, and from it `subst` moves into the place of `t.node`. */
  ghost predicate MovesIn(m: Memory, m1: Memory, m2: Memory, root: Node, p: Path, t: Shape,
                          subst: Node, temp: Node, sentinel: Node)
    requires t.Fork? && t.left.Fork?
  {
    && At(m, root, p, t, sentinel)
    && subst !in PathSet(p) + NodeSet(t) && subst != sentinel
    && subst in m && m[subst].parent in m.Keys
    && temp in m && temp in m1 && m1 == m[temp := m1[temp]]
    && m1[temp] == m[temp].(parent := m1[temp].parent)
    && temp != t.node && temp !in PathSet(p) && temp != t.left.node
    && (if m[subst].parent == t.node then temp == Ptr(t.right, sentinel)
        else t.right.Fork? && temp != t.right.node && (temp != sentinel ==> m[temp].parent == m[subst].parent))
    && Substituted(m1, m2, root, t.node, subst, temp, sentinel)
  }

  lemma MovedNode(m: Memory, m1: Memory, m2: Memory, root: Node, p: Path, t: Shape,
                  subst: Node, temp: Node, sentinel: Node)
    requires t.Fork? && t.left.Fork? && MovesIn(m, m1, m2, root, p, t, subst, temp, sentinel)
    ensures subst in m2 && m2[subst] == m[t.node]
    ensures t.left.node in m && t.left.node in m2 && m2[t.left.node] == m[t.left.node].(parent := subst)
    ensures p != Top ==> p.node in m && p.node in m2 && m2[p.node] == Refilled(p, m[p.node], subst)
  {
    RootInPath(p, t.node);
    LinkedInMemory(m, t, sentinel);
    assert t.left.node in NodeSet(t.left);
    if p != Top {
      RedirectedIsRefilled(m, p, t.node, subst, sentinel);
      assert p.node in PathSet(p);
    }
  }

  lemma MovedRight(m: Memory, m1: Memory, m2: Memory, root: Node, p: Path, t: Shape,
                   subst: Node, temp: Node, sentinel: Node)
    requires t.Fork? && t.left.Fork? && MovesIn(m, m1, m2, root, p, t, subst, temp, sentinel)
    ensures t.right.Fork? ==>
      t.right.node in m && t.right.node in m2 && m2[t.right.node] == m[t.right.node].(parent := subst)
  {
    if t.right.Fork? {
      assert t.right.node in NodeSet(t.right);
    }
  }

  lemma MovedOthers(m: Memory, m1: Memory, m2: Memory, root: Node, p: Path, t: Shape,
                    subst: Node, temp: Node, sentinel: Node)
    requires t.Fork? && t.left.Fork? && MovesIn(m, m1, m2, root, p, t, subst, temp, sentinel)
    ensures Same(m, m2, NodeSet(t) - {t.node, t.left.node, Ptr(t.right, sentinel)})
  {
    RootInPath(p, t.node);
    LinkedInMemory(m, t, sentinel);
    assert p != Top ==> p.node in PathSet(p);
  }

  lemma MovedAbove(m: Memory, m1: Memory, m2: Memory, root: Node, p: Path, t: Shape,
                   subst: Node, temp: Node, sentinel: Node)
    requires t.Fork? && t.left.Fork? && MovesIn(m, m1, m2, root, p, t, subst, temp, sentinel)
    ensures Same(m, m2, if p == Top then {} else PathSet(p) - {p.node})
  {
    PathInMemory(m, p, t.node, sentinel);
    assert t.left.node in NodeSet(t.left);
    assert t.right.Fork? ==> t.right.node in NodeSet(t.right);
  }

  lemma SubstitutedAt(m: Memory, m1: Memory, m2: Memory, root: Node, p: Path, t: Shape,
                      subst: Node, temp: Node, sentinel: Node)
    requires t.Fork? && t.left.Fork? && MovesIn(m, m1, m2, root, p, t, subst, temp, sentinel)
    ensures At(m2, RootPtr(p, subst), p, t.(node := subst), sentinel)
  {
    hide Substituted;
    MovedNode(m, m1, m2, root, p, t, subst, temp, sentinel);
    MovedRight(m, m1, m2, root, p, t, subst, temp, sentinel);
    MovedOthers(m, m1, m2, root, p, t, subst, temp, sentinel);
    MovedAbove(m, m1, m2, root, p, t, subst, temp, sentinel);
    ReplacedAt(m, m2, root, p, t, subst, sentinel);
  }

  /** What the writes of a transplant look at is real and distinct. */
  ghost predicate Movable(m: Memory, root: Node, node: Node, subst: Node, temp: Node, sentinel: Node) {
    && {node, subst} <= m.Keys && (temp in m || temp == sentinel)
    && node != subst && temp !in {node, subst}
    && m[node].left in m.Keys && m[node].left !in {node, subst, temp, sentinel}
    && (m[node].right in m.Keys || m[node].right == sentinel) && m[node].right !in {node, subst, m[node].left}
    && m[subst].parent != null && (m[subst].parent == node <==> m[node].right == temp)
    && (node != root ==> m[node].parent in m.Keys)
    && (node != root ==> m[node].parent !in {node, subst, temp, m[node].left, m[node].right})
  }

  /** So it is once `temp` hangs in the place of `subst`. */
  lemma Transplantable(m: Memory, root: Node, p: Path, node: Node, red: bool, l: Shape, s: Path,
                       subst: Node, c: bool, r: Shape, sentinel: Node)
    requires At(m, root, Append(s, InRight(p, l, node, red)), Fork(Leaf, subst, c, r), sentinel) && l.Fork?
    ensures var q, temp := Append(s, InRight(p, l, node, red)), Ptr(r, sentinel);
      && q.node in m && Movable(m[q.node := Refilled(q, m[q.node], temp)], root, node, subst, temp, sentinel)
      && m[q.node := Refilled(q, m[q.node], temp)][subst].parent == q.node
    ensures subst != sentinel && (s != Top ==> s.node != node)
  {
    SuccessorRemoved(m, root, p, node, red, l, s, subst, c, r, sentinel);
    var t := Fork(l, node, red, Plug(s, r));
    var q := Append(s, InRight(p, l, node, red));
    var m' := HungBelow(m, q, r, sentinel);
    RootInPath(p, node);
    PlugNodeSet(s, r);
    LinkedInMemory(m', t, sentinel);
    PathInMemory(m', p, node, sentinel);
    assert l.node in NodeSet(l);
    assert t.right.Fork? ==> t.right.node in NodeSet(t.right);
    assert r.Fork? ==> r.node in NodeSet(r);
    assert p != Top ==> p.node in PathSet(p);
  }

  /** Hanging `r` below `q` without setting its root's parent. */
  lemma HungButParent(m: Memory, q: Path, r: Shape, sentinel: Node)
    requires q != Top && q.node in m && sentinel in m && (r.Fork? ==> r.node in m && r.node != q.node)
    requires sentinel != q.node
    ensures var m', temp := HungBelow(m, q, r, sentinel), Ptr(r, sentinel);
            var m1 := m[q.node := Refilled(q, m[q.node], temp)];
            && temp in m' && temp in m1 && m1 == m'[temp := m1[temp]]
            && m1[temp] == m'[temp].(parent := m1[temp].parent)
            && m'.Keys == m.Keys
            && forall n | n in m && n !in {q.node, temp} :: m'[n] == m[n]
  {
  }

  /** After the writes of a transplant, `subst` stands where `node` stood. */
  lemma SuccessorMoved(m: Memory, m2: Memory, root: Node, p: Path, node: Node, red: bool, l: Shape, s: Path,
                       subst: Node, c: bool, r: Shape, sentinel: Node)
    requires At(m, root, Append(s, InRight(p, l, node, red)), Fork(Leaf, subst, c, r), sentinel) && l.Fork?
    requires sentinel in m
    requires var q, temp := Append(s, InRight(p, l, node, red)), Ptr(r, sentinel);
      q.node in m && Substituted(m[q.node := Refilled(q, m[q.node], temp)], m2, root, node, subst, temp, sentinel)
    ensures At(m2, RootPtr(p, subst), p, Fork(l, subst, red, Plug(s, r)), sentinel)
  {
    hide PathDistinct, Distinct, PathLinked, Substituted;
    var q, t, temp := Append(s, InRight(p, l, node, red)), Fork(l, node, red, Plug(s, r)), Ptr(r, sentinel);
    SuccessorRemoved(m, root, p, node, red, l, s, subst, c, r, sentinel);
    Transplantable(m, root, p, node, red, l, s, subst, c, r, sentinel);
    var m', m1 := HungBelow(m, q, r, sentinel), m[q.node := Refilled(q, m[q.node], temp)];
    PlugNodeSet(s, r);
    assert r.Fork? ==> r.node in NodeSet(r);
    assert s != Top ==> s.node in NodeSet(t.right);
    HungButParent(m, q, r, sentinel);
    SubstitutedAt(m', m1, m2, root, p, t, subst, temp, sentinel);
  }

  /** And `temp` where `subst` stood. */
  lemma TransplantedAt(m: Memory, m2: Memory, root: Node, p: Path, node: Node, red: bool, l: Shape, s: Path,
                       subst: Node, c: bool, r: Shape, sentinel: Node)
    requires At(m, root, Append(s, InRight(p, l, node, red)), Fork(Leaf, subst, c, r), sentinel) && l.Fork?
    requires sentinel in m
    requires var q, temp := Append(s, InRight(p, l, node, red)), Ptr(r, sentinel);
      q.node in m && Substituted(m[q.node := Refilled(q, m[q.node], temp)], m2, root, node, subst, temp, sentinel)
    ensures At(m2, if root == node then subst else root, Append(s, InRight(p, l, subst, red)), r, sentinel)
    ensures PathSet(Append(s, InRight(p, l, subst, red))) + NodeSet(r) <= m2.Keys
  {
    SuccessorMoved(m, m2, root, p, node, red, l, s, subst, c, r, sentinel);
    SuccessorRemoved(m, root, p, node, red, l, s, subst, c, r, sentinel);
    var base := InRight(p, l, subst, red);
    AscendAll(m2, RootPtr(p, subst), s, base, r, sentinel);
    Ascend(m2, RootPtr(p, subst), base, Plug(s, r), sentinel);
    RootInPath(p, node);
    PathInMemory(m2, Append(s, base), Ptr(r, sentinel), sentinel);
    LinkedInMemory(m2, r, sentinel);
  }
}
