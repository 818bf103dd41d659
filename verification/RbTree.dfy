/** The red-black tree of `ngx_rbtree.c`: rotations, insertion, deletion, minimum and successor. */
module RbTree {
  import opened RbShape
  import opened RbBalance
  import opened RbKeys
  import opened RbMemory

  class Tree {
    var root: Node
    const sentinel: Node
    /** Which function `tree->insert` points to. */
    const insert: InsertFn
    /** The tree that the links spell out, and the nodes that it may write to. */
    ghost var shape: Shape
    ghost var repr: set<Node>

    /** `ngx_rbtree_init` */
    constructor (s: Node, insert: InsertFn)
      modifies s`red
      ensures Valid() && Nodes() == [] && sentinel == s && this.insert == insert
    {
      root, sentinel, this.insert := s, s, insert;
      shape, repr := Leaf, {s};
      new;
      s.red := false;
    }

    ghost function Links(): Memory
      reads this`repr, repr`left, repr`right, repr`parent, repr`red
    {
      map n | n in repr :: Cell(n.left, n.right, n.parent, n.red)
    }

    /** The nodes spell out `t` plugged into `p`. */
    ghost predicate Here(p: Path, t: Shape)
      reads this`root, this`repr, repr`left, repr`right, repr`parent, repr`red
    {
      && sentinel in repr && !sentinel.red
      && PathSet(p) + NodeSet(t) <= repr
      && At(Links(), root, p, t, sentinel)
    }

    /** A red-black tree with a black root. */
    ghost predicate Valid()
      reads this`root, this`shape, this`repr, repr`left, repr`right, repr`parent, repr`red
    {
      && repr == NodeSet(shape) + {sentinel}
      && Here(Top, shape)
      && RedBlack(shape) && !IsRed(shape)
    }

    ghost function Nodes(): seq<Node>
      reads this`shape
    {
      InOrder(shape)
    }

    lemma Up(p: Path, t: Shape)
      requires p != Top
      ensures Here(p, t) <==> Here(p.up, Filled(p, t))
    {
      Ascend(Links(), root, p, t, sentinel);
      assert PathSet(p) + NodeSet(t) == PathSet(p.up) + NodeSet(Filled(p, t));
    }

    lemma UpAll(s: Path, base: Path, t: Shape)
      ensures Here(Append(s, base), t) <==> Here(base, Plug(s, t))
    {
      AscendAll(Links(), root, s, base, t, sentinel);
      PlugNodeSet(Append(s, base), t);
      PlugNodeSet(base, Plug(s, t));
      PlugAppend(s, base, t);
    }

    lemma UpToRoot(p: Path, t: Shape)
      ensures Here(p, t) <==> Here(Top, Plug(p, t))
    {
      AppendTop(p);
      UpAll(p, Top, t);
    }

    // ---------- rotations and painting ----------

    method LeftRotateLinks(node: Node)
      requires node in repr && node.right != null && node.right in repr && node.right != node
      requires node.right.left != null && node.right.left in repr && node.right.left !in {node, node.right}
      requires node != root ==> (node.parent != null && node.parent in repr
                                 && node.parent !in {node, node.right, node.right.left})
      modifies this`root, repr`left, repr`right, repr`parent
      ensures LeftMoved(old(Links()), Links(), old(root), node, sentinel)
      ensures root == if old(root) == node then old(node.right) else old(root)
    {
      var temp := node.right;
      node.right := temp.left;

      if temp.left != sentinel {
        temp.left.parent := node;
      }

      temp.parent := node.parent;

      if node == root {
        root := temp;
      } else if node == node.parent.left {
        node.parent.left := temp;
      } else {
        node.parent.right := temp;
      }

      temp.left := node;
      node.parent := temp;
    }

    /** The nodes that a left rotation touches are real and distinct. */
    lemma LeftNeighbours(p: Path, t: Shape)
      requires t.Fork? && t.right.Fork? && Here(p, t)
      ensures t.node in repr && t.node.right == t.right.node && t.right.node in repr && t.right.node != t.node
      ensures t.right.node.left == Ptr(t.right.left, sentinel) && t.right.node.left in repr
      ensures t.right.node.left !in {t.node, t.right.node}
      ensures p != Top <==> t.node != root
      ensures p != Top ==> (t.node.parent == p.node && p.node in repr
                            && p.node !in {t.node, t.right.node, t.right.node.left})
    {
      RootInPath(p, t.node);
      assert Linked(Links(), t.right, sentinel) && NodeSet(t.right) <= NodeSet(t);
      assert t.right.left.Fork? ==> t.right.left.node in NodeSet(t.right.left);
    }

    /** `ngx_rbtree_left_rotate` */
    method LeftRotate(node: Node, ghost p: Path, ghost t: Shape)
      requires t.Fork? && t.node == node && t.right.Fork? && Here(p, t)
      modifies this`root, repr`left, repr`right, repr`parent
      ensures Here(p, RotatedLeft(t)) && sentinel.parent == old(sentinel.parent)
    {
      ghost var m := Links();
      LeftNeighbours(p, t);
      RotationKeepsNodes(t);
      LeftRotateLinks(node);
      assert Links()[sentinel] == m[sentinel];
      LeftMovedAt(m, Links(), old(root), p, t, sentinel);
    }

    method RightRotateLinks(node: Node)
      requires node in repr && node.left != null && node.left in repr && node.left != node
      requires node.left.right != null && node.left.right in repr && node.left.right !in {node, node.left}
      requires node != root ==> (node.parent != null && node.parent in repr
                                 && node.parent !in {node, node.left, node.left.right})
      requires node != root ==> (node.parent.left == node <==> node.parent.right != node)
      modifies this`root, repr`left, repr`right, repr`parent
      ensures RightMoved(old(Links()), Links(), old(root), node, sentinel)
      ensures root == if old(root) == node then old(node.left) else old(root)
    {
      var temp := node.left;
      node.left := temp.right;

      if temp.right != sentinel {
        temp.right.parent := node;
      }

      temp.parent := node.parent;

      if node == root {
        root := temp;
      } else if node == node.parent.right {
        node.parent.right := temp;
      } else {
        node.parent.left := temp;
      }

      temp.right := node;
      node.parent := temp;
    }

    lemma RightNeighbours(p: Path, t: Shape)
      requires t.Fork? && t.left.Fork? && Here(p, t)
      ensures t.node in repr && t.node.left == t.left.node && t.left.node in repr && t.left.node != t.node
      ensures t.left.node.right == Ptr(t.left.right, sentinel) && t.left.node.right in repr
      ensures t.left.node.right !in {t.node, t.left.node}
      ensures p != Top <==> t.node != root
      ensures p != Top ==> (t.node.parent == p.node && p.node in repr
                            && p.node !in {t.node, t.left.node, t.left.node.right})
      ensures p != Top ==> (p.node.left == t.node <==> p.node.right != t.node)
    {
      RootInPath(p, t.node);
      assert Linked(Links(), t.left, sentinel) && NodeSet(t.left) <= NodeSet(t);
      assert t.left.right.Fork? ==> t.left.right.node in NodeSet(t.left.right);
      assert p.InLeft? && p.right.Fork? ==> p.right.node in NodeSet(p.right);
      assert p.InRight? && p.left.Fork? ==> p.left.node in NodeSet(p.left);
    }

    /** `ngx_rbtree_right_rotate` */
    method RightRotate(node: Node, ghost p: Path, ghost t: Shape)
      requires t.Fork? && t.node == node && t.left.Fork? && Here(p, t)
      modifies this`root, repr`left, repr`right, repr`parent
      ensures Here(p, RotatedRight(t)) && sentinel.parent == old(sentinel.parent)
    {
      ghost var m := Links();
      RightNeighbours(p, t);
      RotationKeepsNodes(RotatedRight(t));
      RightRotateLinks(node);
      assert Links()[sentinel] == m[sentinel];
      RightMovedAt(m, Links(), old(root), p, t, sentinel);
    }

    /** `ngx_rbt_red`, `ngx_rbt_black` and `ngx_rbt_copy_color` */
    method Paint(node: Node, red: bool, ghost p: Path, ghost t: Shape)
      requires t.Fork? && t.node == node && Here(p, t)
      modifies node`red
      ensures Here(p, t.(red := red))
    {
      ghost var m := Links();
      node.red := red;
      assert Links() == m[node := m[node].(red := red)];
      RepaintedAt(m, Links(), root, p, t, red, sentinel);
    }

    method PaintLeft(node: Node, red: bool, ghost p: Path, ghost t: Shape)
      requires t.Fork? && t.left.Fork? && t.left.node == node && Here(p, t)
      modifies node`red
      ensures Here(p, t.(left := t.left.(red := red)))
    {
      ghost var q := InLeft(p, t.node, t.red, t.right);
      Up(q, t.left);
      Paint(node, red, q, t.left);
      Up(q, t.left.(red := red));
    }

    method PaintRight(node: Node, red: bool, ghost p: Path, ghost t: Shape)
      requires t.Fork? && t.right.Fork? && t.right.node == node && Here(p, t)
      modifies node`red
      ensures Here(p, t.(right := t.right.(red := red)))
    {
      ghost var q := InRight(p, t.left, t.node, t.red);
      Up(q, t.right);
      Paint(node, red, q, t.right);
      Up(q, t.right.(red := red));
    }

    // ---------- insertion ----------

    /** Brings a red node that is an inner grandchild to the outside. */
    method StraightenLeft(node: Node, ghost p: Path, ghost t: Shape) returns (node': Node, ghost f: Shape)
      requires Here(p, t) && Unbalanced(p, t) && t.node == node
      requires p != Top && p.red && p.up.InLeft?
      modifies this`root, repr`left, repr`right, repr`parent
      ensures Here(p.up, f) && RedPairLeft(p.up, f) && f.left.node == node'
      ensures InOrder(f) == InOrder(Filled(p, t))
    {
      node' := node;
      f := Filled(p, t);
      Up(p, t);
      if node == node.parent.right {
        node' := node.parent;
        LeftRotate(node', p.up, f);
        RotationKeepsOrder(f);
        f := RotatedLeft(f);
      }
    }

    /** Paints the upper red node black and the grandparent red, and rotates the grandparent down. */
    method LiftLeft(node: Node, ghost q: Path, ghost f: Shape) returns (ghost p: Path)
      requires Here(q, f) && RedPairLeft(q, f) && f.left.node == node && !IsRed(q.right)
      modifies this`root, repr`left, repr`right, repr`parent, repr`red
      ensures p == LiftedLeft(q, f) && Here(p, f.left)
    {
      Paint(node.parent, false, q, f);
      Up(q, f.(red := false));
      ghost var g := Filled(q, f.(red := false));
      Paint(node.parent.parent, true, q.up, g);
      RightRotate(node.parent.parent, q.up, g.(red := true));
      p := LiftedLeft(q, f);
      assert Filled(p, f.left) == RotatedRight(g.(red := true));
      Up(p, f.left);
    }

    method StraightenRight(node: Node, ghost p: Path, ghost t: Shape) returns (node': Node, ghost f: Shape)
      requires Here(p, t) && Unbalanced(p, t) && t.node == node
      requires p != Top && p.red && p.up.InRight?
      modifies this`root, repr`left, repr`right, repr`parent
      ensures Here(p.up, f) && RedPairRight(p.up, f) && f.right.node == node'
      ensures InOrder(f) == InOrder(Filled(p, t))
    {
      node' := node;
      f := Filled(p, t);
      Up(p, t);
      if node == node.parent.left {
        node' := node.parent;
        RightRotate(node', p.up, f);
        RotationKeepsOrder(RotatedRight(f));
        f := RotatedRight(f);
      }
    }

    method LiftRight(node: Node, ghost q: Path, ghost f: Shape) returns (ghost p: Path)
      requires Here(q, f) && RedPairRight(q, f) && f.right.node == node && !IsRed(q.left)
      modifies this`root, repr`left, repr`right, repr`parent, repr`red
      ensures p == LiftedRight(q, f) && Here(p, f.right)
    {
      Paint(node.parent, false, q, f);
      Up(q, f.(red := false));
      ghost var g := Filled(q, f.(red := false));
      Paint(node.parent.parent, true, q.up, g);
      LeftRotate(node.parent.parent, q.up, g.(red := true));
      p := LiftedRight(q, f);
      assert Filled(p, f.right) == RotatedLeft(g.(red := true));
      Up(p, f.right);
    }

    /** `left` and `right` are the red parent and the red uncle, in either order. */
    method Flip(left: Node, right: Node, node: Node, ghost p: Path, ghost t: Shape)
      requires Here(p, t) && t.Fork? && t.node == node
      requires t.left.Fork? && t.left.node == left && t.right.Fork? && t.right.node == right
      modifies left`red, right`red, node`red
      ensures Here(p, Flipped(t))
    {
      PaintLeft(left, false, p, t);
      ghost var t1 := t.(left := t.left.(red := false));
      PaintRight(right, false, p, t1);
      Paint(node, true, p, t1.(right := t.right.(red := false)));
    }

    /** What the loop tests on its way up: whether it is at the root, its parent's colour, and its
        parent's side. */
    lemma Above(p: Path, t: Shape)
      requires Here(p, t)
      ensures p == Top <==> root == Ptr(t, sentinel)
      ensures p != Top && t.Fork? ==> t.node.parent == p.node
      ensures p != Top ==> p.node in repr && p.node.red == p.red
      ensures p != Top && t.Fork? ==> (p.InLeft? <==> p.node.left == t.node)
      ensures p != Top && p.up != Top ==> p.node.parent == p.up.node
    {
      RootInPath(p, Ptr(t, sentinel));
      if p.InRight? && p.left.Fork? {
        assert p.left.node in NodeSet(p.left);
      }
    }

    /** The parent, the grandparent and the uncle that the loop looks at. */
    lemma Relatives(p: Path, t: Shape)
      requires Here(p, t) && t.Fork? && p != Top && p.up != Top
      ensures t.node.parent == p.node && p.node.parent == p.up.node
      ensures p.up.InLeft? <==> p.up.node.left == p.node
      ensures p.up.InLeft? ==> p.up.node.right == Ptr(p.up.right, sentinel) && p.up.node.right.red == IsRed(p.up.right)
      ensures p.up.InRight? ==> p.up.node.left == Ptr(p.up.left, sentinel) && p.up.node.left.red == IsRed(p.up.left)
    {
      Up(p, t);
      Above(p.up, Filled(p, t));
      assert p.up.InLeft? ==> Linked(Links(), p.up.right, sentinel);
      assert p.up.InRight? ==> Linked(Links(), p.up.left, sentinel);
    }

    /** One turn of the loop when the parent is the grandparent's left child. */
    method RebalanceLeft(node: Node, ghost p: Path, ghost t: Shape)
      returns (node': Node, ghost p': Path, ghost t': Shape)
      requires Here(p, t) && Unbalanced(p, t) && t.node == node && p != Top && p.red && p.up.InLeft?
      modifies this`root, repr`left, repr`right, repr`parent, repr`red
      ensures Here(p', t') && Unbalanced(p', t') && t'.node == node'
      ensures InOrder(Plug(p', t')) == InOrder(Plug(p, t)) && Depth(p') < Depth(p)
    {
      hide At;
      Relatives(p, t);
      ghost var g := Filled(p.up, Filled(p, t));
      var temp := node.parent.parent.right;
      if temp.red {
        Up(p, t);
        Up(p.up, Filled(p, t));
        FlippedUnbalanced(p, t);
        Flip(node.parent, temp, node.parent.parent, p.up.up, g);
        node', p', t' := node.parent.parent, p.up.up, Flipped(g);
      } else {
        ghost var f;
        node', f := StraightenLeft(node, p, t);
        LiftedLeftUnbalanced(p.up, f);
        PlugSameOrder(p.up, Filled(p, t), f);
        p' := LiftLeft(node', p.up, f);
        t' := f.left;
      }
    }

    method RebalanceRight(node: Node, ghost p: Path, ghost t: Shape)
      returns (node': Node, ghost p': Path, ghost t': Shape)
      requires Here(p, t) && Unbalanced(p, t) && t.node == node && p != Top && p.red && p.up.InRight?
      modifies this`root, repr`left, repr`right, repr`parent, repr`red
      ensures Here(p', t') && Unbalanced(p', t') && t'.node == node'
      ensures InOrder(Plug(p', t')) == InOrder(Plug(p, t)) && Depth(p') < Depth(p)
    {
      hide At;
      Relatives(p, t);
      ghost var g := Filled(p.up, Filled(p, t));
      var temp := node.parent.parent.left;
      if temp.red {
        Up(p, t);
        Up(p.up, Filled(p, t));
        FlippedUnbalanced(p, t);
        Flip(temp, node.parent, node.parent.parent, p.up.up, g);
        node', p', t' := node.parent.parent, p.up.up, Flipped(g);
      } else {
        ghost var f;
        node', f := StraightenRight(node, p, t);
        LiftedRightUnbalanced(p.up, f);
        PlugSameOrder(p.up, Filled(p, t), f);
        p' := LiftRight(node', p.up, f);
        t' := f.right;
      }
    }

    /** The loop of `ngx_rbtree_insert`. */
    method RebalanceLoop(node0: Node, ghost p0: Path, ghost t0: Shape) returns (ghost p: Path, ghost t: Shape)
      requires Here(p0, t0) && Unbalanced(p0, t0) && t0.node == node0
      modifies this`root, repr`left, repr`right, repr`parent, repr`red
      ensures Here(p, t) && Unbalanced(p, t) && (p == Top || !p.red)
      ensures InOrder(Plug(p, t)) == InOrder(Plug(p0, t0))
    {
      var node := node0;
      p, t := p0, t0;
      Above(p, t);
      while node != root && node.parent.red
        invariant Here(p, t) && Unbalanced(p, t) && t.node == node
        invariant InOrder(Plug(p, t)) == InOrder(Plug(p0, t0))
        invariant p != Top <==> node != root
        invariant p != Top ==> node.parent == p.node && p.node.red == p.red
        decreases Depth(p)
      {
        UnbalancedUp(p, t);
        Relatives(p, t);
        if node.parent == node.parent.parent.left {
          node, p, t := RebalanceLeft(node, p, t);
        } else {
          node, p, t := RebalanceRight(node, p, t);
        }
        Above(p, t);
      }
    }

    /** The loop and the painting after it. */
    method Rebalance(node: Node, ghost p0: Path, ghost t0: Shape)
      requires Here(p0, t0) && Unbalanced(p0, t0) && t0.node == node
      requires repr == NodeSet(Plug(p0, t0)) + {sentinel}
      modifies this`root, this`shape, repr`left, repr`right, repr`parent, repr`red
      ensures Valid() && Nodes() == InOrder(Plug(p0, t0))
    {
      ghost var p, t := RebalanceLoop(node, p0, t0);
      UpToRoot(p, t);
      UnbalancedMended(p, t);
      ghost var whole := Plug(p, t);
      SameOrderSameNodes(Plug(p0, t0), whole.(red := false));
      PaintRoot(whole);
    }

    method PaintRoot(ghost t: Shape)
      requires Here(Top, t) && t.Fork? && RedBlack(t.(red := false))
      requires repr == NodeSet(t) + {sentinel}
      modifies this`shape, repr`red
      ensures Valid() && shape == t.(red := false)
    {
      Paint(root, false, Top, t);
      shape := t.(red := false);
    }

    ghost function Keys(): KeyMap
      reads this`repr, repr`key
    {
      map n | n in repr :: n.key
    }

    /** If the keys come in order and all lie in the window, then `k` belongs into the hole. */
    ghost predicate Belongs(k: Key, p: Path, whole: Shape, key: KeyMap, base: Key) {
      Ordered(InOrder(whole), key, insert, base) && InWindow(insert, base, k) ==>
        NoneAbove(Before(p), k, key, insert, base) && AllAbove(After(p), k, key, insert, base)
    }

    /** One comparison decides below which child a key belongs. */
    lemma Narrowed(k: Key, p: Path, t: Shape, key: KeyMap, base: Key)
      requires t.Fork? && t.node in key && Belongs(k, p, Plug(p, t), key, base)
      ensures Less(insert, k, key[t.node]) ==>
        Belongs(k, InLeft(p, t.node, t.red, t.right), Plug(p, t), key, base)
      ensures !Less(insert, k, key[t.node]) ==>
        Belongs(k, InRight(p, t.left, t.node, t.red), Plug(p, t), key, base)
    {
      Sides(p, t);
      if Ordered(InOrder(Plug(p, t)), key, insert, base) && InWindow(insert, base, k) {
        Parted(Before(p) + InOrder(t.left), t.node, InOrder(t.right) + After(p), k, key, insert, base);
      }
    }

    /** The loop of `ngx_rbtree_insert_value` and of `ngx_rbtree_insert_timer_value`, which differ
        only in how they compare keys: down to the first empty place the comparisons lead to. */
    method FindPlace(root0: Node, node: Node, ghost base: Key) returns (temp: Node, goLeft: bool, ghost p: Path)
      requires Here(Top, shape) && shape.Fork? && root0 == root && node in repr
      ensures p != Top && p.node == temp && goLeft == p.InLeft?
      ensures Here(p, Leaf) && Plug(p, Leaf) == shape
      ensures Belongs(node.key, p, shape, Keys(), base)
    {
      temp := root0;
      p := Top;
      ghost var t := shape;
      goLeft := Less(insert, node.key, temp.key);
      while (if goLeft then temp.left else temp.right) != sentinel
        invariant Here(p, t) && t.Fork? && t.node == temp && Plug(p, t) == shape
        invariant Belongs(node.key, p, shape, Keys(), base)
        invariant goLeft == Less(insert, node.key, temp.key)
        decreases t
      {
        Narrowed(node.key, p, t, Keys(), base);
        if goLeft {
          p, t := InLeft(p, t.node, t.red, t.right), t.left;
          temp := temp.left;
        } else {
          p, t := InRight(p, t.left, t.node, t.red), t.right;
          temp := temp.right;
        }
        Up(p, t);
        goLeft := Less(insert, node.key, temp.key);
      }
      Narrowed(node.key, p, t, Keys(), base);
      p := if goLeft then InLeft(p, t.node, t.red, t.right) else InRight(p, t.left, t.node, t.red);
      Up(p, Leaf);
    }

    /** What those two functions do with the place: the node is hung there and painted red. */
    method Graft(temp: Node, node: Node, goLeft: bool, ghost p: Path)
      requires p != Top && p.node == temp && goLeft == p.InLeft? && Here(p, Leaf)
      requires node in repr && node !in PathSet(p) && node != sentinel
      modifies repr`left, repr`right, node`parent, node`red
      ensures Here(p, Fork(Leaf, node, true, Leaf))
    {
      ghost var m := Links();
      if goLeft {
        temp.left := node;
      } else {
        temp.right := node;
      }
      node.parent := temp;
      node.left := sentinel;
      node.right := sentinel;
      node.red := true;
      GraftedAt(m, Links(), root, p, node, sentinel);
    }

    /** Nodes may join or leave the set of nodes that the tree may write to. */
    ghost method SetRepr(repr': set<Node>)
      requires Here(Top, shape)
      requires NodeSet(shape) + {sentinel} <= repr'
      modifies this`repr
      ensures repr == repr' && Here(Top, shape)
    {
      ghost var m := Links();
      repr := repr';
      LinkedFrame(m, Links(), shape, sentinel);
    }

    /** Inserting into the empty tree. */
    method InsertFirst(node: Node)
      requires Valid() && root == sentinel && node !in repr
      modifies this`root, this`shape, this`repr, node`left, node`right, node`parent, node`red
      ensures Valid() && repr == old(repr) + {node}
      ensures old(Nodes()) == [] && Nodes() == [node]
      ensures root == node && node.parent == null
    {
      RootInPath(Top, root);
      node.parent := null;
      node.left := sentinel;
      node.right := sentinel;
      node.red := false;
      root := node;

      repr := repr + {node};
      shape := Fork(Leaf, node, false, Leaf);
      assert Linked(Links(), shape, sentinel);
      assert InOrder(shape) == [] + [node] + [];
    }

    lemma Inserted(p: Path, node: Node, key: KeyMap, base: Key)
      requires RedBlack(Plug(p, Leaf)) && !IsRed(Plug(p, Leaf)) && node in key
      requires Belongs(key[node], p, Plug(p, Leaf), key, base)
      ensures var t, s, k := Fork(Leaf, node, true, Leaf), InOrder(Plug(p, Leaf)), |Before(p)|;
        && Unbalanced(p, t)
        && PathSet(p) == NodeSet(Plug(p, Leaf))
        && NodeSet(Plug(p, t)) == NodeSet(Plug(p, Leaf)) + {node}
        && k <= |s| && InOrder(Plug(p, t)) == s[..k] + [node] + s[k..]
        && PlacedByKey(s[..k], node, s[k..], key, insert, base)
    {
      var t, s, k := Fork(Leaf, node, true, Leaf), InOrder(Plug(p, Leaf)), |Before(p)|;
      InsertedUnbalanced(p, node);
      PlugInOrder(p, Leaf);
      PlugInOrder(p, t);
      PlugNodeSet(p, Leaf);
      PlugNodeSet(p, t);
      assert s == Before(p) + After(p) && s[..k] == Before(p) && s[k..] == After(p);
      InsertedIsOrdered(Before(p), node, After(p), key, insert, base);
    }

    method Hang(temp: Node, node: Node, goLeft: bool, ghost p: Path)
      requires p != Top && p.node == temp && goLeft == p.InLeft? && Here(p, Leaf)
      requires node !in PathSet(p) && node != sentinel
      requires var t := Fork(Leaf, node, true, Leaf);
        Unbalanced(p, t) && repr == NodeSet(Plug(p, t)) + {sentinel}
      modifies this`root, this`shape, repr`left, repr`right, repr`parent, repr`red
      ensures Valid() && Nodes() == InOrder(Plug(p, Fork(Leaf, node, true, Leaf)))
    {
      ghost var t := Fork(Leaf, node, true, Leaf);
      PlugNodeSet(p, t);
      Graft(temp, node, goLeft, p);
      Rebalance(node, p, t);
    }

    /** Inserting into a tree that has a root. */
    method InsertBelow(node: Node, ghost base: Key) returns (ghost k: nat)
      requires Here(Top, shape) && shape.Fork? && RedBlack(shape) && !IsRed(shape)
      requires repr == NodeSet(shape) + {sentinel} + {node} && node !in NodeSet(shape) && node != sentinel
      modifies this`root, this`shape, repr`left, repr`right, repr`parent, repr`red
      ensures Valid()
      ensures k <= |old(Nodes())|
      ensures Nodes() == old(Nodes())[..k] + [node] + old(Nodes())[k..]
      ensures PlacedByKey(old(Nodes())[..k], node, old(Nodes())[k..], Keys(), insert, base)
    {
      var temp, goLeft;
      ghost var p;
      temp, goLeft, p := FindPlace(root, node, base);
      ghost var key := Keys();
      Inserted(p, node, key, base);
      k := |Before(p)|;
      Hang(temp, node, goLeft, p);
      assert Keys() == key;
    }

    /** `ngx_rbtree_insert`: the node goes to place `k` of the in-order sequence.  If the keys lie in
        one window, that place is after every node whose key is not greater. */
    method Insert(node: Node, ghost base: Key) returns (ghost k: nat)
      requires Valid() && node !in repr
      modifies this`root, this`shape, this`repr, repr`left, repr`right, repr`parent, repr`red
      modifies node`left, node`right, node`parent, node`red
      ensures Valid() && repr == old(repr) + {node}
      ensures k <= |old(Nodes())|
      ensures Nodes() == old(Nodes())[..k] + [node] + old(Nodes())[k..]
      ensures PlacedByKey(old(Nodes())[..k], node, old(Nodes())[k..], Keys(), insert, base)
      ensures old(root) == sentinel ==> root == node && node.parent == null
    {
      RootInPath(Top, root);
      if root == sentinel {
        InsertFirst(node);
        k := 0;
        InsertedIsOrdered([], node, [], Keys(), insert, base);
      } else {
        SetRepr(repr + {node});
        k := InsertBelow(node, base);
      }
    }

    /** Giving a node a key and inserting it: the node goes to place `k`, and ordered keys stay in order. */
    method InsertKeyed(node: Node, key: Key, ghost base: Key) returns (ghost k: nat)
      requires Valid() && node !in repr
      modifies this`root, this`shape, this`repr, repr`left, repr`right, repr`parent, repr`red
      modifies node`key, node`left, node`right, node`parent, node`red
      ensures Valid() && repr == old(repr) + {node} && node.key == key
      ensures k <= |old(Nodes())|
      ensures Nodes() == old(Nodes())[..k] + [node] + old(Nodes())[k..]
      ensures PlacedByKey(old(Nodes())[..k], node, old(Nodes())[k..], Keys(), insert, base)
      ensures old(Ordered(Nodes(), Keys(), insert, base)) && InWindow(insert, base, key) ==>
        Ordered(Nodes(), Keys(), insert, base)
    {
      hide Tree.Valid;
      ghost var s, keys := Nodes(), Keys();
      InOrderElements(shape);
      node.key := key;
      k := Insert(node, base);
      if Ordered(s, keys, insert, base) && InWindow(insert, base, key) {
        PlacedIsOrdered(s, k, node, keys, Keys(), insert, base);
      }
    }

    // ---------- deletion ----------

    /** `ngx_rbtree_min`: the leftmost node below `node0`. */
    method Min(node0: Node, ghost base: Path, ghost t0: Shape) returns (node: Node, ghost s: Path, ghost t: Shape)
      requires t0.Fork? && t0.node == node0 && Here(base, t0)
      ensures Plug(s, t) == t0 && Before(s) == [] && t.Fork? && t.left == Leaf && t.node == node
      ensures Here(Append(s, base), t)
      ensures InOrder(t0)[0] == node
    {
      node, s, t := node0, Top, t0;
      while node.left != sentinel
        invariant Plug(s, t) == t0 && Before(s) == [] && t.Fork? && t.node == node
        invariant Here(Append(s, base), t)
        decreases t
      {
        ghost var s' := InLeft(s, t.node, t.red, t.right);
        assert Filled(Append(s', base), t.left) == t && Append(s', base).up == Append(s, base);
        Up(Append(s', base), t.left);
        s, t := s', t.left;
        node := node.left;
      }
      PlugInOrder(s, t);
    }

    /** `if (subst == subst->parent->left) subst->parent->left = temp; else ...` */
    method Unhang(subst: Node, temp: Node, ghost q: Path, ghost t: Shape)
      requires q != Top && t.Fork? && t.node == subst && Here(q, t)
      modifies q.node`left, q.node`right
      ensures Links() == old(Links())[q.node := Refilled(q, old(Links())[q.node], temp)]
    {
      ghost var m := Links();
      RedirectedIsRefilled(m, q, subst, temp, sentinel);
      if subst == subst.parent.left {
        subst.parent.left := temp;
      } else {
        subst.parent.right := temp;
      }
      assert Links() == m[q.node := Refilled(q, m[q.node], temp)];
    }

    /** The place of a node with at most one child goes to that child. */
    method Bypass(subst: Node, temp: Node, ghost q: Path, ghost t: Shape, ghost r: Shape)
      requires q != Top && t.Fork? && t.node == subst && Here(q, t)
      requires (t.left == Leaf && r == t.right) || (t.right == Leaf && r == t.left)
      requires temp == Ptr(r, sentinel)
      modifies repr`left, repr`right, repr`parent
      ensures Here(q, r) && temp.parent == q.node
    {
      ghost var m := Links();
      BypassedAt(m, ParentSet(m[q.node := Refilled(q, m[q.node], temp)], temp, q.node), root, q, t, r, sentinel);
      Unhang(subst, temp, q, t);
      SetParent(temp, subst);
    }

    /** `temp->parent = subst->parent;` */
    method SetParent(temp: Node, subst: Node)
      requires temp in repr && subst in repr
      modifies temp`parent
      ensures Links() == ParentSet(old(Links()), temp, old(subst.parent))
    {
      temp.parent := subst.parent;
    }

    /** The successor takes over the fields of the deleted node, and its child looks at its parent. */
    method TakeOver(node: Node, subst: Node, temp: Node)
      requires {node, subst, temp} <= repr && node != subst && temp !in {node, subst}
      modifies temp`parent, subst`left, subst`right, subst`parent, subst`red
      ensures var m := old(Links());
              Links()
              == ParentSet(m, temp, if m[subst].parent == node then subst else m[subst].parent)[subst := m[node]]
    {
      if subst.parent == node {
        temp.parent := subst;
      } else {
        temp.parent := subst.parent;
      }

      subst.left := node.left;
      subst.right := node.right;
      subst.parent := node.parent;
      subst.red := node.red;
    }

    /** What pointed down to the deleted node points to the successor. */
    method Redirect(node: Node, subst: Node)
      requires node in repr && (node != root ==> node.parent in repr && node.parent != node)
      modifies this`root, repr`left, repr`right
      ensures root == if old(root) == node then subst else old(root)
      ensures var m := old(Links());
              Links()
              == if node == old(root) then m else m[m[node].parent := Redirected(m[m[node].parent], node, subst)]
    {
      if node == root {
        root := subst;
      } else {
        if node == node.parent.left {
          node.parent.left := subst;
        } else {
          node.parent.right := subst;
        }
      }
    }

    /** The children that the successor has taken over look at it. */
    method Adopt(subst: Node)
      requires {subst, subst.left, subst.right} <= repr
      requires subst.left !in {subst, sentinel, subst.right} && subst.right != subst
      modifies repr`parent
      ensures var m := old(Links());
              var m3 := ParentSet(m, m[subst].left, subst);
              Links() == if m[subst].right == sentinel then m3 else ParentSet(m3, m[subst].right, subst)
    {
      if subst.left != sentinel {
        subst.left.parent := subst;
      }

      if subst.right != sentinel {
        subst.right.parent := subst;
      }
    }

    /** The successor's move into the place of the deleted node. */
    method SubstituteLinks(node: Node, subst: Node, temp: Node)
      requires temp in repr && sentinel in repr && Movable(Links(), root, node, subst, temp, sentinel)
      modifies this`root, repr`left, repr`right, repr`parent, subst`red
      ensures Substituted(old(Links()), Links(), old(root), node, subst, temp, sentinel)
      ensures root == if old(root) == node then subst else old(root)
      ensures temp.parent == if old(subst.parent) == node then subst else old(subst.parent)
    {
      ghost var m := Links();
      TakeOver(node, subst, temp);
      ghost var m1 := Links();
      Redirect(node, subst);
      ghost var m2 := Links();
      Adopt(subst);
      SubstitutedBySteps(m, m1, m2, ParentSet(m2, m[node].left, subst), Links(), old(root), node, subst, temp,
                         sentinel);
    }

    /** The successor leaves its place and takes that of the deleted node. */
    method Transplant(node: Node, subst: Node, temp: Node, ghost p: Path, ghost red: bool, ghost l: Shape,
                      ghost s: Path, ghost c: bool, ghost r: Shape)
      requires Here(Append(s, InRight(p, l, node, red)), Fork(Leaf, subst, c, r))
      requires l.Fork? && temp == Ptr(r, sentinel)
      modifies this`root, repr`left, repr`right, repr`parent, subst`red
      ensures Here(Append(s, InRight(p, l, subst, red)), r)
      ensures temp.parent == Append(s, InRight(p, l, subst, red)).node
    {
      hide Substituted, Movable, Append, At, Refilled;
      AppendLowest(s, p, l, node, red);
      AppendLowest(s, p, l, subst, red);
      ghost var q := Append(s, InRight(p, l, node, red));
      ghost var m := Links();
      Transplantable(m, root, p, node, red, l, s, subst, c, r, sentinel);
      Unhang(subst, temp, q, Fork(Leaf, subst, c, r));
      SubstituteLinks(node, subst, temp);
      TransplantedAt(m, Links(), old(root), p, node, red, l, s, subst, c, r, sentinel);
    }

    // The steps of the fix-up loop.  `temp` may be the sentinel, whose parent then is the parent of
    // the deficient empty place.

    /** `w` is red: it changes colours with the parent, which is rotated down. */
    method RaiseSiblingLeft(temp: Node, ghost p: Path, ghost t: Shape) returns (ghost q: Path)
      requires Here(p, t) && temp == Ptr(t, sentinel) && p.InLeft? && p.right.Fork? && temp.parent == p.node
      modifies this`root, repr`left, repr`right, repr`parent, repr`red
      ensures q == SiblingRaisedLeft(p) && Here(q, t) && temp.parent == q.node
    {
      var w := temp.parent.right;
      Up(p, t);
      PaintRight(w, false, p.up, Filled(p, t));
      ghost var f := Fork(t, p.node, p.red, p.right.(red := false));
      Paint(temp.parent, true, p.up, f);
      LeftRotate(temp.parent, p.up, f.(red := true));
      q := SiblingRaisedLeft(p);
      Up(q, t);
      Up(q.up, Filled(q, t));
    }

    method RaiseSiblingRight(temp: Node, ghost p: Path, ghost t: Shape) returns (ghost q: Path)
      requires Here(p, t) && temp == Ptr(t, sentinel) && p.InRight? && p.left.Fork? && temp.parent == p.node
      modifies this`root, repr`left, repr`right, repr`parent, repr`red
      ensures q == SiblingRaisedRight(p) && Here(q, t) && temp.parent == q.node
    {
      var w := temp.parent.left;
      Up(p, t);
      PaintLeft(w, false, p.up, Filled(p, t));
      ghost var f := Fork(p.left.(red := false), p.node, p.red, t);
      Paint(temp.parent, true, p.up, f);
      RightRotate(temp.parent, p.up, f.(red := true));
      q := SiblingRaisedRight(p);
      Up(q, t);
      Up(q.up, Filled(q, t));
    }

    /** `w` and its children are black: `w` turns red and the parent becomes deficient. */
    method ReddenSibling(w: Node, ghost p: Path, ghost t: Shape) returns (ghost t': Shape)
      requires Here(p, t) && p != Top
      requires var s := if p.InLeft? then p.right else p.left; s.Fork? && s.node == w
      modifies w`red
      ensures t' == SiblingReddened(p, t) && Here(p.up, t')
    {
      ghost var z := if p.InLeft? then InRight(p.up, t, p.node, p.red) else InLeft(p.up, p.node, p.red, t);
      ghost var v := if p.InLeft? then p.right else p.left;
      Up(p, t);
      Up(z, v);
      Paint(w, true, z, v);
      Up(z, v.(red := true));
      t' := SiblingReddened(p, t);
    }

    /** Only the inner child of `w` is red: it is raised above `w`. */
    method RaiseInnerLeft(w: Node, ghost p: Path, ghost t: Shape) returns (ghost q: Path)
      requires Here(p, t) && p.InLeft? && p.right.Fork? && p.right.node == w && p.right.left.Fork?
      modifies this`root, repr`left, repr`right, repr`parent, repr`red
      ensures q == p.(right := InnerRaisedLeft(p.right)) && Here(q, t) && sentinel.parent == old(sentinel.parent)
    {
      ghost var z := InRight(p.up, t, p.node, p.red);
      Up(p, t);
      Up(z, p.right);
      PaintLeft(w.left, false, z, p.right);
      ghost var v := p.right.(left := p.right.left.(red := false));
      Paint(w, true, z, v);
      RightRotate(w, z, v.(red := true));
      q := p.(right := InnerRaisedLeft(p.right));
      Up(z, q.right);
      Up(q, t);
    }

    method RaiseInnerRight(w: Node, ghost p: Path, ghost t: Shape) returns (ghost q: Path)
      requires Here(p, t) && p.InRight? && p.left.Fork? && p.left.node == w && p.left.right.Fork?
      modifies this`root, repr`left, repr`right, repr`parent, repr`red
      ensures q == p.(left := InnerRaisedRight(p.left)) && Here(q, t) && sentinel.parent == old(sentinel.parent)
    {
      ghost var z := InLeft(p.up, p.node, p.red, t);
      Up(p, t);
      Up(z, p.left);
      PaintRight(w.right, false, z, p.left);
      ghost var v := p.left.(right := p.left.right.(red := false));
      Paint(w, true, z, v);
      LeftRotate(w, z, v.(red := true));
      q := p.(left := InnerRaisedRight(p.left));
      Up(z, q.left);
      Up(q, t);
    }

    /** The outer child of `w` is red: `w` takes the place and the colour of the parent. */
    method MendLeft(temp: Node, w: Node, ghost p: Path, ghost t: Shape)
      requires Here(p, t) && temp == Ptr(t, sentinel) && p.InLeft? && temp.parent == p.node
      requires p.right.Fork? && p.right.node == w && p.right.right.Fork?
      modifies this`root, repr`left, repr`right, repr`parent, repr`red
      ensures Here(p.up, MendedLeft(p, t))
    {
      ghost var z := InRight(p.up, t, p.node, p.red);
      Up(p, t);
      Up(z, p.right);
      Paint(w, temp.parent.red, z, p.right);
      ghost var v := p.right.(red := p.red);
      Up(z, v);
      ghost var f := Fork(t, p.node, p.red, v);
      Paint(temp.parent, false, p.up, f);
      ghost var z' := InRight(p.up, t, p.node, false);
      Up(z', v);
      PaintRight(w.right, false, z', v);
      v := v.(right := v.right.(red := false));
      Up(z', v);
      LeftRotate(temp.parent, p.up, Fork(t, p.node, false, v));
    }

    method MendRight(temp: Node, w: Node, ghost p: Path, ghost t: Shape)
      requires Here(p, t) && temp == Ptr(t, sentinel) && p.InRight? && temp.parent == p.node
      requires p.left.Fork? && p.left.node == w && p.left.left.Fork?
      modifies this`root, repr`left, repr`right, repr`parent, repr`red
      ensures Here(p.up, MendedRight(p, t))
    {
      ghost var z := InLeft(p.up, p.node, p.red, t);
      Up(p, t);
      Up(z, p.left);
      Paint(w, temp.parent.red, z, p.left);
      ghost var v := p.left.(red := p.red);
      Up(z, v);
      ghost var f := Fork(v, p.node, p.red, t);
      Paint(temp.parent, false, p.up, f);
      ghost var z' := InLeft(p.up, p.node, false, t);
      Up(z', v);
      PaintLeft(w.left, false, z', v);
      v := v.(left := v.left.(red := false));
      Up(z', v);
      RightRotate(temp.parent, p.up, Fork(v, p.node, false, t));
    }

    /** The sibling's pointers and colours, as the fix-up loop reads them. */
    lemma SiblingLeft(p: Path, t: Shape)
      requires Here(p, t) && p.InLeft? && p.right.Fork?
      ensures p.node in repr && p.node.right == p.right.node && p.right.node in repr && p.right.node.red == p.right.red
      ensures var w := p.right.node;
        && w.left == Ptr(p.right.left, sentinel) && w.right == Ptr(p.right.right, sentinel)
        && w.left in repr && w.left.red == IsRed(p.right.left)
        && w.right in repr && w.right.red == IsRed(p.right.right)
      ensures p.up != Top ==> p.node.parent == p.up.node
    {
      assert Linked(Links(), p.right.left, sentinel) && Linked(Links(), p.right.right, sentinel);
      assert p.right.left.Fork? ==> p.right.left.node in NodeSet(p.right.left);
      assert p.right.right.Fork? ==> p.right.right.node in NodeSet(p.right.right);
    }

    /** The rest of a turn of the fix-up loop, once the sibling is black. */
    method FixLeftBlack(temp: Node, ghost p: Path, ghost t: Shape)
      returns (temp': Node, ghost p': Path, ghost t': Shape)
      requires Here(p, t) && Deficient(p, t) && !IsRed(t) && temp == Ptr(t, sentinel)
      requires p.InLeft? && temp.parent == p.node && !IsRed(p.right)
      modifies this`root, repr`left, repr`right, repr`parent, repr`red
      ensures Here(p', t') && Deficient(p', t') && temp' == Ptr(t', sentinel)
      ensures p' != Top ==> temp'.parent == p'.node
      ensures InOrder(Plug(p', t')) == InOrder(Plug(p, t))
      ensures p' == Top || (p' == p.up && IsRed(t') == p.red)
    {
      SiblingExists(p, t);
      SiblingLeft(p, t);
      var w := temp.parent.right;
      if !w.left.red && !w.right.red {
        BlackSibling(p, t);
        temp' := temp.parent;
        t' := ReddenSibling(w, p, t);
        p' := p.up;
      } else {
        ghost var q := p;
        if !w.right.red {
          InnerRedLeft(p, t);
          q := RaiseInnerLeft(w, p, t);
          w := temp.parent.right;
        }
        OuterRedLeft(q, t);
        MendLeft(temp, w, q, t);
        temp', p', t' := root, Top, Plug(q.up, MendedLeft(q, t));
        UpToRoot(q.up, MendedLeft(q, t));
      }
    }

    /** One turn of the fix-up loop when `temp` is a left child. */
    method FixLeft(temp: Node, ghost p: Path, ghost t: Shape)
      returns (temp': Node, ghost p': Path, ghost t': Shape)
      requires Here(p, t) && Deficient(p, t) && !IsRed(t) && temp == Ptr(t, sentinel)
      requires p.InLeft? && temp.parent == p.node
      modifies this`root, repr`left, repr`right, repr`parent, repr`red
      ensures Here(p', t') && Deficient(p', t') && temp' == Ptr(t', sentinel)
      ensures p' != Top ==> temp'.parent == p'.node
      ensures InOrder(Plug(p', t')) == InOrder(Plug(p, t))
      ensures Depth(p') + (if IsRed(t') then 0 else 1) < Depth(p) + 1
    {
      SiblingExists(p, t);
      SiblingLeft(p, t);
      ghost var q := p;
      var w := temp.parent.right;
      if w.red {
        RedSiblingLeft(p, t);
        q := RaiseSiblingLeft(temp, p, t);
      }
      temp', p', t' := FixLeftBlack(temp, q, t);
    }

    /** The sibling's pointers and colours, as the fix-up loop reads them. */
    lemma SiblingRight(p: Path, t: Shape)
      requires Here(p, t) && p.InRight? && p.left.Fork?
      ensures p.node in repr && p.node.left == p.left.node && p.left.node in repr && p.left.node.red == p.left.red
      ensures var w := p.left.node;
        && w.left == Ptr(p.left.left, sentinel) && w.right == Ptr(p.left.right, sentinel)
        && w.left in repr && w.left.red == IsRed(p.left.left)
        && w.right in repr && w.right.red == IsRed(p.left.right)
      ensures p.up != Top ==> p.node.parent == p.up.node
    {
      assert Linked(Links(), p.left.left, sentinel) && Linked(Links(), p.left.right, sentinel);
      assert p.left.left.Fork? ==> p.left.left.node in NodeSet(p.left.left);
      assert p.left.right.Fork? ==> p.left.right.node in NodeSet(p.left.right);
    }

    /** The rest of a turn of the fix-up loop, once the sibling is black. */
    method FixRightBlack(temp: Node, ghost p: Path, ghost t: Shape)
      returns (temp': Node, ghost p': Path, ghost t': Shape)
      requires Here(p, t) && Deficient(p, t) && !IsRed(t) && temp == Ptr(t, sentinel)
      requires p.InRight? && temp.parent == p.node && !IsRed(p.left)
      modifies this`root, repr`left, repr`right, repr`parent, repr`red
      ensures Here(p', t') && Deficient(p', t') && temp' == Ptr(t', sentinel)
      ensures p' != Top ==> temp'.parent == p'.node
      ensures InOrder(Plug(p', t')) == InOrder(Plug(p, t))
      ensures p' == Top || (p' == p.up && IsRed(t') == p.red)
    {
      SiblingExists(p, t);
      SiblingRight(p, t);
      var w := temp.parent.left;
      if !w.left.red && !w.right.red {
        BlackSibling(p, t);
        temp' := temp.parent;
        t' := ReddenSibling(w, p, t);
        p' := p.up;
      } else {
        ghost var q := p;
        if !w.left.red {
          InnerRedRight(p, t);
          q := RaiseInnerRight(w, p, t);
          w := temp.parent.left;
        }
        OuterRedRight(q, t);
        MendRight(temp, w, q, t);
        temp', p', t' := root, Top, Plug(q.up, MendedRight(q, t));
        UpToRoot(q.up, MendedRight(q, t));
      }
    }

    /** One turn of the fix-up loop when `temp` is a right child. */
    method FixRight(temp: Node, ghost p: Path, ghost t: Shape)
      returns (temp': Node, ghost p': Path, ghost t': Shape)
      requires Here(p, t) && Deficient(p, t) && !IsRed(t) && temp == Ptr(t, sentinel)
      requires p.InRight? && temp.parent == p.node
      modifies this`root, repr`left, repr`right, repr`parent, repr`red
      ensures Here(p', t') && Deficient(p', t') && temp' == Ptr(t', sentinel)
      ensures p' != Top ==> temp'.parent == p'.node
      ensures InOrder(Plug(p', t')) == InOrder(Plug(p, t))
      ensures Depth(p') + (if IsRed(t') then 0 else 1) < Depth(p) + 1
    {
      SiblingExists(p, t);
      SiblingRight(p, t);
      ghost var q := p;
      var w := temp.parent.left;
      if w.red {
        RedSiblingRight(p, t);
        q := RaiseSiblingRight(temp, p, t);
      }
      temp', p', t' := FixRightBlack(temp, q, t);
    }

    /** The fix-up loop of `ngx_rbtree_delete`. */
    method FixUpLoop(temp0: Node, ghost p0: Path, ghost t0: Shape) returns (temp: Node, ghost p: Path, ghost t: Shape)
      requires Here(p0, t0) && Deficient(p0, t0) && temp0 == Ptr(t0, sentinel)
      requires p0 != Top ==> temp0.parent == p0.node
      modifies this`root, repr`left, repr`right, repr`parent, repr`red
      ensures Here(p, t) && Deficient(p, t) && temp == Ptr(t, sentinel) && (p == Top || IsRed(t))
      ensures InOrder(Plug(p, t)) == InOrder(Plug(p0, t0))
    {
      temp, p, t := temp0, p0, t0;
      Above(p, t);
      while temp != root && !temp.red
        invariant Here(p, t) && Deficient(p, t) && temp == Ptr(t, sentinel)
        invariant p != Top ==> temp.parent == p.node
        invariant InOrder(Plug(p, t)) == InOrder(Plug(p0, t0))
        decreases Depth(p) + if IsRed(t) then 0 else 1
      {
        Above(p, t);
        SideOfDeficient(p, t);
        if temp == temp.parent.left {
          temp, p, t := FixLeft(temp, p, t);
        } else {
          temp, p, t := FixRight(temp, p, t);
        }
      }
      Above(p, t);
    }

    /** Even if `temp` is the sentinel, testing which child it is finds the side of the empty place. */
    lemma SideOfDeficient(p: Path, t: Shape)
      requires Here(p, t) && Deficient(p, t) && p != Top
      ensures p.InLeft? <==> p.node.left == Ptr(t, sentinel)
    {
      SiblingExists(p, t);
      if p.InRight? {
        assert p.left.node in NodeSet(p.left);
        assert t.Fork? ==> t.node in NodeSet(t);
      }
    }

    /** The loop and the painting after it. */
    method FixUp(temp0: Node, ghost p0: Path, ghost t0: Shape) returns (ghost whole: Shape)
      requires Here(p0, t0) && Deficient(p0, t0) && temp0 == Ptr(t0, sentinel)
      requires p0 != Top ==> temp0.parent == p0.node
      modifies this`root, repr`left, repr`right, repr`parent, repr`red
      ensures Here(Top, whole) && RedBlack(whole) && !IsRed(whole)
      ensures InOrder(whole) == InOrder(Plug(p0, t0))
    {
      var temp;
      ghost var p, t;
      temp, p, t := FixUpLoop(temp0, p0, t0);
      DeficientMended(p, t);
      whole := Plug(p, Black(t));
      PaintBlack(temp, p, t);
      UpToRoot(p, Black(t));
    }

    /** `ngx_rbt_black(temp)`, where `temp` may be the sentinel. */
    method PaintBlack(temp: Node, ghost p: Path, ghost t: Shape)
      requires Here(p, t) && temp == Ptr(t, sentinel)
      modifies temp`red
      ensures Here(p, Black(t))
    {
      ghost var m := Links();
      temp.red := false;
      if t.Fork? {
        assert Links() == m[temp := m[temp].(red := false)];
        RepaintedAt(m, Links(), root, p, t, false, sentinel);
      } else {
        assert Links() == m;
      }
    }

    /** `node` leaves the tree with its links and its key cleared. */
    method Retire(node: Node, ghost p: Path, ghost t: Shape)
      requires Here(p, t) && node !in PathSet(p) + NodeSet(t) && node in repr && node != sentinel
      modifies this`repr, node`left, node`right, node`parent, node`key
      ensures repr == old(repr) - {node} && Here(p, t)
      ensures node.left == null && node.right == null && node.parent == null && node.key == 0
    {
      ghost var m := Links();
      node.left := null;
      node.right := null;
      node.parent := null;
      node.key := 0;
      repr := repr - {node};
      LinkedFrame(m, Links(), t, sentinel);
      PathFrame(m, Links(), p, Ptr(t, sentinel), sentinel);
    }

    ghost predicate Cleared(node: Node)
      reads node
    {
      node.left == null && node.right == null && node.parent == null && node.key == 0
    }

    /** The rest of a deletion, once the links bypass `node`. */
    method Settle(node: Node, temp: Node, red: bool, ghost q: Path, ghost r: Shape)
      requires Here(q, r) && node in repr && node != sentinel
      requires repr == NodeSet(Plug(q, r)) + {sentinel} + {node} && node !in NodeSet(Plug(q, r))
      requires temp == Ptr(r, sentinel) && (q != Top ==> temp.parent == q.node)
      requires if red then RedBlack(Plug(q, r)) && !IsRed(Plug(q, r)) else Deficient(q, r)
      modifies this`root, this`shape, this`repr, repr`left, repr`right, repr`parent, repr`red, node`key
      ensures Valid() && repr == old(repr) - {node} && Nodes() == InOrder(Plug(q, r)) && Cleared(node)
    {
      hide Linked;
      PlugNodeSet(q, r);
      Retire(node, q, r);
      shape := Plug(q, r);
      if red {
        UpToRoot(q, r);
        return;
      }
      shape := FixUp(temp, q, r);
      SameOrderSameNodes(shape, Plug(q, r));
    }

    /** Deleting a node that has at most one child, hanging below another node. */
    method DeleteSparse(node: Node, temp: Node, ghost p: Path, ghost t: Shape, ghost r: Shape) returns (ghost k: nat)
      requires Valid() && Here(p, t) && shape == Plug(p, t) && p != Top && t.Fork? && t.node == node
      requires (t.left == Leaf && r == t.right) || (t.right == Leaf && r == t.left)
      requires temp == Ptr(r, sentinel)
      modifies this`root, this`shape, this`repr, repr`left, repr`right, repr`parent, repr`red, node`key
      ensures Valid() && repr == old(repr) - {node} && Cleared(node)
      ensures TakenOut(old(Nodes()), k, node, Nodes())
    {
      var red := node.red;
      RemovedFits(p, t, r);
      PlugNodeSet(p, t);
      PlugNodeSet(p, r);
      k := BypassedOrder(p, t, r);
      Bypass(node, temp, p, t, r);
      Settle(node, temp, red, p, r);
    }

    /** `*root = temp;` */
    method ReplaceRoot(temp: Node, ghost r: Shape)
      requires Here(Top, shape) && shape.Fork? && temp == Ptr(r, sentinel)
      requires (shape.left == Leaf && r == shape.right) || (shape.right == Leaf && r == shape.left)
      modifies this`root
      ensures Here(Top, r)
    {
      assert At(Links(), root, Top, shape, sentinel);
      root := temp;
    }

    /** Deleting the root when it has at most one child. */
    method DeleteRoot(node: Node, temp: Node, ghost r: Shape) returns (ghost k: nat)
      requires Valid() && shape.Fork? && shape.node == node
      requires (shape.left == Leaf && r == shape.right) || (shape.right == Leaf && r == shape.left)
      requires temp == Ptr(r, sentinel)
      modifies this`root, this`shape, this`repr, temp`red, node`left, node`right, node`parent, node`key
      ensures Valid() && repr == old(repr) - {node} && Cleared(node)
      ensures TakenOut(old(Nodes()), k, node, Nodes())
    {
      hide Linked;
      k := RootRemoved(shape, r);
      ReplaceRoot(temp, r);
      PaintBlack(temp, Top, r);
      Retire(node, Top, Black(r));
      shape := Black(r);
    }

    /** `subst = ngx_rbtree_min(node->right, sentinel)`.  The leftmost node has no left child, so the source's
        other choice of `temp` never runs. */
    method Successor(node: Node, ghost p: Path, ghost t: Shape)
      returns (subst: Node, temp: Node, ghost s: Path, ghost u: Shape)
      requires Here(p, t) && t.Fork? && t.node == node && t.right.Fork?
      ensures Plug(s, u) == t.right && Before(s) == [] && u.Fork? && u.left == Leaf && u.node == subst
      ensures Here(Append(s, InRight(p, t.left, node, t.red)), u)
      ensures subst.left == sentinel && temp == subst.right == Ptr(u.right, sentinel) && subst.red == u.red
    {
      ghost var base := InRight(p, t.left, node, t.red);
      Up(base, t.right);
      subst, s, u := Min(node.right, base, t.right);
      temp := subst.right;
    }

    /** Deleting a node that has two children. */
    method DeleteFull(node: Node, ghost p: Path, ghost t: Shape) returns (ghost k: nat)
      requires Valid() && Here(p, t) && shape == Plug(p, t) && t.Fork? && t.node == node
      requires t.left.Fork? && t.right.Fork?
      modifies this`root, this`shape, this`repr, repr`left, repr`right, repr`parent, repr`red, node`key
      ensures Valid() && repr == old(repr) - {node} && Cleared(node)
      ensures TakenOut(old(Nodes()), k, node, Nodes())
    {
      hide PathLinked;
      var subst, temp;
      ghost var s, u;
      subst, temp, s, u := Successor(node, p, t);
      var red := subst.red;
      k := TransplantedFits(p, t.left, node, t.red, s, u);
      Transplant(node, subst, temp, p, t.red, t.left, s, u.red, u.right);
      Settle(node, temp, red, Append(s, InRight(p, t.left, subst, t.red)), u.right);
    }

    /** `ngx_rbtree_delete`: exactly `node` leaves the in-order sequence, from its place `k`. */
    method Delete(node: Node) returns (ghost k: nat)
      requires Valid() && node in Nodes()
      modifies this`root, this`shape, this`repr, repr`left, repr`right, repr`parent, repr`red, node`key
      ensures Valid() && repr == old(repr) - {node} && Cleared(node)
      ensures TakenOut(old(Nodes()), k, node, Nodes())
    {
      InOrderElements(shape);
      ghost var p, t := Locate(Top, shape, node);
      UpToRoot(p, t);
      Above(p, t);
      if node.left == sentinel {
        if node == root {
          k := DeleteRoot(node, node.right, t.right);
        } else {
          k := DeleteSparse(node, node.right, p, t, t.right);
        }
      } else if node.right == sentinel {
        if node == root {
          k := DeleteRoot(node, node.left, t.left);
        } else {
          k := DeleteSparse(node, node.left, p, t, t.left);
        }
      } else {
        k := DeleteFull(node, p, t);
      }
    }

    // ---------- minimum and successor ----------

    method Minimum() returns (node: Node)
      requires Valid() && root != sentinel
      ensures Nodes() != [] && node == Nodes()[0]
    {
      ghost var s, t;
      node, s, t := Min(root, Top, shape);
    }

    /** The climb of `ngx_rbtree_next`: the first node below which `t0` is on the left. */
    method Climb(node0: Node, ghost p0: Path, ghost t0: Shape) returns (next: Node?)
      requires Here(p0, t0) && t0.Fork? && t0.node == node0
      ensures next == if After(p0) == [] then null else After(p0)[0]
    {
      var node := node0;
      ghost var p, t := p0, t0;
      while true
        invariant Here(p, t) && t.Fork? && t.node == node && After(p) == After(p0)
        decreases p
      {
        var parent := node.parent;
        Above(p, t);

        if node == root {
          return null;
        }

        if node == parent.left {
          return parent;
        }

        Up(p, t);
        p, t := p.up, Filled(p, t);
        node := parent;
      }
    }

    /** `ngx_rbtree_next`: the node at the next place of the in-order sequence, or null after the last. */
    method Next(node: Node, ghost k: nat) returns (next: Node?)
      requires Valid() && k < |Nodes()| && Nodes()[k] == node
      ensures next == if k + 1 < |Nodes()| then Nodes()[k + 1] else null
    {
      InOrderElements(shape);
      ghost var p, t := Locate(Top, shape, node);
      UpToRoot(p, t);
      PlaceOf(p, t, k);
      if node.right != sentinel {
        ghost var base, s, u := InRight(p, t.left, t.node, t.red), Top, t;
        Up(base, t.right);
        next, s, u := Min(node.right, base, t.right);
      } else {
        next := Climb(node, p, t);
      }
    }
  }
}
