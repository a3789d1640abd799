/** wepoll's intrusive red-black tree (`tree_add`, `tree_del`, `tree_find`), on node
    objects with parent links.

    A `Tree` is `Valid` when its root pointer and the link fields of its nodes spell out
    the ghost field `shape` and that shape is a red-black tree.  Inside an operation the
    shape is kept apart as a context and a focus (`At`), so that each step states what it
    does to the focus and nothing else. */
module RedBlackTree {
  import opened TreeShape

  function Child(n: TreeNode, side: Side): TreeNode?
    reads n
  {
    if side.Left? then n.left else n.right
  }

  method SetChild(n: TreeNode, side: Side, child: TreeNode?)
    modifies n`left, n`right
    ensures Child(n, side) == child
    ensures Child(n, side.Other()) == old(Child(n, side.Other()))
  {
    if side.Left? {
      n.left := child;
    } else {
      n.right := child;
    }
  }

  /** The fields of `s`'s nodes spell out `s`, and the root's parent is `p`. */
  ghost predicate Ok(s: Shape, p: TreeNode?)
    reads Nodes(s)
  {
    s.Node? ==>
      && s.n.key == s.key && s.n.red == s.red && s.n.parent == p
      && s.n.left == Root(s.l) && s.n.right == Root(s.r)
      && Ok(s.l, s.n) && Ok(s.r, s.n)
  }

  /** The fields of `c`'s nodes spell out `c`, with `h` in the hole. */
  ghost predicate OkCtx(c: Ctx, h: TreeNode?, p: TreeNode?)
    reads CtxNodes(c)
  {
    c.Frame? ==>
      && c.n.key == c.key && c.n.red == c.red && c.n.parent == Top(c.up, p)
      && Child(c.n, c.side) == h && Child(c.n, c.side.Other()) == Root(c.sib)
      && Ok(c.sib, c.n) && OkCtx(c.up, c.n, p)
  }

  class Tree {
    var root: TreeNode?
    ghost var shape: Shape

    ghost predicate Valid()
      reads this, Nodes(shape)
    {
      root == Root(shape) && Ok(shape, null) && RedBlack(shape)
    }

    /** The finite map the tree stands for. */
    ghost function Contents(): map<nat, TreeNode>
      reads this
    {
      Dict(Inorder(shape))
    }

    /** The tree taken apart at one position. */
    ghost predicate At(c: Ctx, s: Shape)
      reads this`root, CtxNodes(c), Nodes(s)
    {
      && Apart(c, s)
      && root == Outer(c, Root(s))
      && OkCtx(c, Root(s), null) && Ok(s, Top(c, null))
    }

    /** `tree_init` */
    constructor ()
      ensures Valid() && shape == Leaf && root == null
    {
      root, shape := null, Leaf;
      new;
      assert Balanced(shape, 0);
    }

    lemma {:induction false} AtWhole(c: Ctx, s: Shape)
      requires At(c, s) == true
      ensures At(Hole, Plug(c, s)) == true
      decreases c
    {
      if c.Frame? {
        AtWhole(c.up, Join(c.n, c.key, c.red, c.side, s, c.sib));
      }
    }

    lemma {:induction false} AtUp(c: Ctx, s: Shape)
      requires At(c, s) == true && c.Frame?
      ensures At(c.up, Join(c.n, c.key, c.red, c.side, s, c.sib)) == true
      ensures c.n.parent == Top(c.up, null) && Child(c.n, c.side) == Root(s)
      ensures Child(c.n, c.side.Other()) == Root(c.sib) && c.n.red == c.red && c.n.key == c.key
    {
    }

    lemma {:induction false} AtDown(c: Ctx, s: Shape, side: Side)
      requires At(c, s) == true && s.Node?
      ensures At(Frame(s.n, s.key, s.red, side, Sub(s, side.Other()), c), Sub(s, side)) == true
    {
    }

    lemma {:induction false} AtFocus(c: Ctx, s: Shape)
      requires At(c, s) == true && s.Node?
      ensures s.n.parent == Top(c, null) && s.n.red == s.red && s.n.key == s.key
      ensures s.n.left == Root(s.l) && s.n.right == Root(s.r)
    {
    }

    lemma {:induction false} AtPart(c: Ctx, s: Shape)
      requires At(Hole, Plug(c, s)) == true
      ensures At(c, s) == true
      decreases c
    {
      if c.Frame? {
        AtPart(c.up, Join(c.n, c.key, c.red, c.side, s, c.sib));
        AtDown(c.up, Join(c.n, c.key, c.red, c.side, s, c.sib), c.side);
      }
    }

    /** The same tree, seen from another position. */
    lemma {:induction false} Refocus(c: Ctx, s: Shape, c': Ctx, s': Shape)
      requires At(c, s) == true && Plug(c, s) == Plug(c', s')
      ensures At(c', s') == true
    {
      AtWhole(c, s);
      AtPart(c', s');
    }

    /** `node->red = red` */
    method Paint(node: TreeNode, red: bool, ghost c: Ctx, ghost s: Shape)
      requires At(c, s) == true && s.Node? && s.n == node
      modifies node`red
      ensures At(c, s.(red := red)) == true
    {
      node.red := red;
    }

    /** `parent->red = red`, seen from the child. */
    method PaintParent(parent: TreeNode, red: bool, ghost c: Ctx, ghost s: Shape)
      requires At(c, s) == true && c.Frame? && c.n == parent
      modifies parent`red
      ensures At(c.(red := red), s) == true
    {
      parent.red := red;
    }

    /** `sibling->red = red`, seen from the other child. */
    method PaintSibling(sibling: TreeNode, red: bool, ghost c: Ctx, ghost s: Shape)
      requires At(c, s) == true && c.Frame? && c.sib.Node? && c.sib.n == sibling
      modifies sibling`red
      ensures At(c.(sib := c.sib.(red := red)), s) == true
    {
      sibling.red := red;
      assert Ok(c.sib.(red := red), c.n);
    }

    // ---------- rotation ----------

    /** What hangs below `parent` (or the root pointer) in place of `node`. */
    method Replace(parent: TreeNode?, node: TreeNode, q: TreeNode?, ghost c: Ctx)
      requires DistinctCtx(c) && node !in CtxNodes(c)
      requires OkCtx(c, node, null) && root == Outer(c, node) && parent == Top(c, null)
      modifies this`root, if parent == null then {} else {parent}
      ensures OkCtx(c, q, null) && root == Outer(c, q)
    {
      if parent != null {
        assert c.side.Right? ==> parent.left == Root(c.sib);
        if parent.left == node {
          parent.left := q;
        } else {
          parent.right := q;
        }
      } else {
        root := q;
      }
    }

    /** `TREE__ROTATE(cis, trans)`: relink the parent, then the two nodes. */
    method Rotate(node: TreeNode, cis: Side, ghost c: Ctx, ghost s: Shape)
      requires At(c, s) == true && s.Node? && s.n == node && Sub(s, cis.Other()).Node?
      modifies this`root, CtxNodes(c), Nodes(s)
      ensures At(c, Rotated(s, cis)) == true
    {
      RotatedApart(s, cis);
      var q := Child(node, cis.Other());
      var parent := node.parent;
      assert allocated(Nodes(s)) && allocated(CtxNodes(c));
      Replace(parent, node, q, c);
      TurnShape(node, q, parent, cis, s);
    }

    // ---------- insertion ----------

    /** A red node `node` that may sit below a red parent; all else is in order. */
    ghost predicate Inserting(c: Ctx, s: Shape, h: nat) {
      IsRed(s) && Balanced(s, h) && Accepts(c, h)
    }

    /** `TREE__REBALANCE_AFTER_INSERT(cis, trans)`, red uncle: recolour and climb. */
    method RecolourUncle(parent: TreeNode, uncle: TreeNode, grandparent: TreeNode, cis: Side,
                         ghost c: Ctx, ghost s: Shape, ghost h: nat)
      returns (ghost c': Ctx, ghost s': Shape)
      requires At(c, s) == true && Inserting(c, s, h) && c.Frame? && c.red && c.n == parent
      requires c.up.Frame? && c.up.n == grandparent && c.up.side == cis && Root(c.up.sib) == uncle && c.up.sib.red
      modifies this`root, CtxNodes(c), Nodes(s)
      ensures At(c', s') == true && Inserting(c', s', h + 1) && s'.n == grandparent
      ensures Inorder(Plug(c', s')) == Inorder(Plug(c, s)) && Length(c') < Length(c)
    {
      c', s' := Recoloured(c, s, h);
      ghost var c1, s1 := c.up, Join(c.n, c.key, false, c.side, s, c.sib);
      PaintParent(parent, false, c, s);
      AtUp(c.(red := false), s);
      PaintSibling(uncle, false, c1, s1);
      c1 := c1.(sib := c1.sib.(red := false));
      PaintParent(grandparent, true, c1, s1);
      AtUp(c1.(red := true), s1);
    }

    /** ..., black uncle, `node` an inner grandchild: rotate `parent` so that it becomes an outer one. */
    method RotateInner(parent: TreeNode, cis: Side, ghost c: Ctx, ghost s: Shape, ghost h: nat)
      returns (ghost c': Ctx, ghost s': Shape)
      requires At(c, s) == true && Inserting(c, s, h) && c.Frame? && c.red && c.n == parent
      requires c.side == cis.Other() && c.up.Frame?
      modifies this`root, CtxNodes(c), Nodes(s)
      ensures At(c', s') == true && Inserting(c', s', h) && s'.n == parent
      ensures c'.Frame? && c'.red && c'.n == s.n && c'.side == cis && c'.up == c.up
      ensures Inorder(Plug(c', s')) == Inorder(Plug(c, s))
    {
      ghost var j := Join(c.n, c.key, c.red, c.side, s, c.sib);
      SameNodes(c, s, c.up, j);
      AtUp(c, s);
      Rotate(parent, cis, c.up, j);
      RotatedApart(j, cis);
      PlugSame(c.up, j, Rotated(j, cis));
      AtDown(c.up, Rotated(j, cis), cis);
      c', s' := Frame(s.n, s.key, s.red, cis, Sub(s, cis.Other()), c.up), Sub(Rotated(j, cis), cis);
    }

    /** ..., black uncle, `node` an outer grandchild: recolour and rotate `grandparent`. */
    method RotateOuter(parent: TreeNode, grandparent: TreeNode, cis: Side,
                       ghost c: Ctx, ghost s: Shape, ghost h: nat)
      returns (ghost c': Ctx, ghost s': Shape)
      requires At(c, s) == true && Inserting(c, s, h) && c.Frame? && c.red && c.n == parent && c.side == cis
      requires c.up.Frame? && c.up.n == grandparent && c.up.side == cis && !IsRed(c.up.sib)
      modifies this`root, CtxNodes(c), Nodes(s)
      ensures At(c', s') == true && Inserting(c', s', h) && s' == s
      ensures c'.Frame? && !c'.red && Length(c') < Length(c)
      ensures Inorder(Plug(c', s')) == Inorder(Plug(c, s))
    {
      ghost var j := Join(c.n, c.key, false, cis, s, c.sib);
      ghost var g := Join(c.up.n, c.up.key, true, cis, j, c.up.sib);
      PaintParent(parent, false, c, s);
      AtUp(c.(red := false), s);
      PaintParent(grandparent, true, c.up, j);
      AtUp(c.up.(red := true), j);
      c' := RotatedOuter(c, s, h);
      Rotate(grandparent, cis.Other(), c.up.up, g);
      AtDown(c.up.up, Rotated(g, cis.Other()), cis);
      s' := s;
    }

    /** `TREE__REBALANCE_AFTER_INSERT(cis, trans)`, one turn of the loop. */
    method RebalanceAfterInsert(node: TreeNode, parent: TreeNode, cis: Side, ghost c: Ctx, ghost s: Shape, ghost h: nat)
      returns (next: TreeNode, ghost c': Ctx, ghost s': Shape, ghost h': nat)
      requires At(c, s) == true && Inserting(c, s, h) && s.n == node && c.Frame? && c.red && c.n == parent
      requires c.up.Frame? && c.up.side == cis
      modifies this`root, CtxNodes(c), Nodes(s)
      ensures At(c', s') == true && Inserting(c', s', h') && s'.n == next && Length(c') < Length(c)
      ensures Inorder(Plug(c', s')) == Inorder(Plug(c, s))
    {
      AtUp(c, s);
      AtUp(c.up, Join(c.n, c.key, c.red, c.side, s, c.sib));
      var grandparent := parent.parent;
      var uncle := Child(grandparent, cis.Other());
      if uncle != null && uncle.red {
        c', s' := RecolourUncle(parent, uncle, grandparent, cis, c, s, h);
        next, h' := grandparent, h + 1;
      } else {
        next, c', s', h' := node, c, s, h;
        var parent := parent;
        if node == Child(parent, cis.Other()) {
          c', s' := RotateInner(parent, cis, c, s, h);
          SameNodes(c, s, c', s');
          AtFocus(c', s');
          next := parent;
          parent := next.parent;
        }
        c', s' := RotateOuter(parent, grandparent, cis, c', s', h);
      }
    }

    lemma {:induction false} Descend(c: Ctx, s: Shape, side: Side, key: nat)
      requires At(c, s) == true && s.Node? && Slot(c, key) && Sorted(Inorder(Plug(c, s)))
      requires if side.Left? then key < s.key else s.key < key
      ensures var d := Frame(s.n, s.key, s.red, side, Sub(s, side.Other()), c);
              At(d, Sub(s, side)) == true && Slot(d, key) && Plug(d, Sub(s, side)) == Plug(c, s)
    {
      AtDown(c, s, side);
      SlotDown(c, s, side, key);
    }

    /** The descent of `tree_add`: the empty slot where `key` belongs, or the node that has it. */
    method FindSlot(key: nat) returns (parent: TreeNode?, side: Side, found: bool, ghost c: Ctx)
      requires Valid()
      ensures found <==> key in Contents()
      ensures !found ==>
                At(c, Leaf) == true && Plug(c, Leaf) == shape && parent == Top(c, null)
                && (c.Frame? ==> side == c.side)
      ensures !found ==> Slot(c, key)
    {
      parent, side, found, c := root, Left, false, Hole;
      ghost var s := shape;
      if parent != null {
        while true
          invariant parent != null && At(c, s) == true && s.Node? && s.n == parent
          invariant Plug(c, s) == shape && Slot(c, key)
          decreases s
        {
          AtFocus(c, s);
          if key < parent.key {
            side := Left;
          } else if key > parent.key {
            side := Right;
          } else {
            found := true;
            KeyAt(c, s);
            return;
          }
          Descend(c, s, side, key);
          var child := Child(parent, side);
          c, s := Frame(s.n, s.key, s.red, side, Sub(s, side.Other()), c), Sub(s, side);
          if child == null {
            break;
          }
          parent := child;
        }
      }
      SlotFree(c, key);
    }

    /** `tree_find`; `visited` counts the nodes looked at. */
    method Find(key: nat) returns (node: TreeNode?, ghost visited: nat)
      requires Valid()
      ensures node != null <==> key in Contents()
      ensures node != null ==> node == Contents()[key]
      ensures visited <= 2 * Log2(|Contents()| + 1)
    {
      node, visited := root, 0;
      ghost var c, s := Hole, shape;
      DepthBound(shape);
      while node != null
        invariant At(c, s) == true && node == Root(s) && Plug(c, s) == shape && Slot(c, key)
        invariant visited == Length(c)
        decreases s
      {
        visited := visited + 1;
        AtFocus(c, s);
        var side;
        if key < node.key {
          side := Left;
        } else if key > node.key {
          side := Right;
        } else {
          KeyAt(c, s);
          PathDepth(c, s, shape);
          return;
        }
        Descend(c, s, side, key);
        node := Child(node, side);
        c, s := Frame(s.n, s.key, s.red, side, Sub(s, side.Other()), c), Sub(s, side);
      }
      SlotFree(c, key);
      PathDepth(c, s, shape);
    }

    /** Hang a new red leaf into an empty slot and set its fields. */
    method Attach(parent: TreeNode?, side: Side, node: TreeNode, key: nat, ghost c: Ctx)
      requires At(c, Leaf) == true && node !in CtxNodes(c) && parent == Top(c, null) && (c.Frame? ==> side == c.side)
      modifies this`root, node, if parent == null then {} else {parent}
      ensures At(c, Node(node, key, true, Leaf, Leaf))
    {
      assert allocated(CtxNodes(c));
      if parent != null {
        SetChild(parent, side, node);
      } else {
        root := node;
      }
      assert OkCtx(c, node, null) == true;
      node.key := key;
      node.left, node.right := null, null;
      node.parent := parent;
      node.red := true;
    }

    /** `tree->root->red = false` */
    method BlackenRoot(ghost c: Ctx, ghost s: Shape, ghost h: nat)
      requires At(c, s) == true && Inserting(c, s, h) && (c.Frame? ==> !c.red)
      requires Sorted(Inorder(Plug(c, s)))
      modifies this, CtxNodes(c), Nodes(s)
      ensures Valid() && Inorder(shape) == Inorder(Plug(c, s))
    {
      ghost var w := Plug(c, s);
      AtWhole(c, s);
      PlugNodes(c, s);
      PlugDistinct(c, s);
      ghost var h';
      if c.Frame? {
        h' := PlugBalanced(c, s, h);
      } else {
        h' := h + 1;
      }
      assert w.Node?;
      Paint(root, false, Hole, w);
      shape := w.(red := false);
      assert Balanced(shape, h');
    }

    /** The rebalancing loop of `tree_add`. */
    method FixAfterInsert(node: TreeNode, ghost c0: Ctx, ghost s0: Shape, ghost h0: nat)
      requires At(c0, s0) && Inserting(c0, s0, h0) && s0.n == node
      requires Sorted(Inorder(Plug(c0, s0)))
      modifies this, CtxNodes(c0), Nodes(s0)
      ensures Valid() && Inorder(shape) == Inorder(Plug(c0, s0))
    {
      ghost var c, s, h := c0, s0, h0;
      AtFocus(c, s);
      var n, parent := node, node.parent;
      while parent != null && parent.red
        invariant At(c, s) == true && Inserting(c, s, h) && s.n == n && parent == Top(c, null)
        invariant Inorder(Plug(c, s)) == Inorder(Plug(c0, s0))
        invariant CtxNodes(c) + Nodes(s) == CtxNodes(c0) + Nodes(s0)
        decreases Length(c)
      {
        AtUp(c, s);
        AtUp(c.up, Join(c.n, c.key, c.red, c.side, s, c.sib));
        if parent == parent.parent.left {
          n, c, s, h := RebalanceAfterInsert(n, parent, Left, c, s, h);
        } else {
          n, c, s, h := RebalanceAfterInsert(n, parent, Right, c, s, h);
        }
        SameNodes(c0, s0, c, s);
        AtFocus(c, s);
        parent := n.parent;
      }
      if c.Frame? {
        AtUp(c, s);
      }
      BlackenRoot(c, s, h);
    }

    /** `tree_add` */
    method Add(node: TreeNode, key: nat) returns (r: int)
      requires Valid() && node !in Nodes(shape)
      modifies this, Nodes(shape), node
      ensures Valid()
      ensures r == if key in old(Contents()) then -1 else 0
      ensures r == -1 ==> shape == old(shape) && unchanged(node)
      ensures r == 0 ==> Contents() == old(Contents())[key := node]
      ensures r == 0 ==> node.key == key && Nodes(shape) == old(Nodes(shape)) + {node}
    {
      assert allocated(Nodes(shape));
      var parent, side, found, c := FindSlot(key);
      if found {
        return -1;
      }
      ghost var s := Node(node, key, true, Leaf, Leaf);
      ghost var h0: nat :| Balanced(shape, h0);
      ghost var h := UnplugBalanced(c, Leaf, h0);
      PlugNodes(c, Leaf);
      SlotInsert(c, key, node);
      Attach(parent, side, node, key, c);
      FixAfterInsert(node, c, s, h);
      PlugNodes(c, s);
      InorderNodes(shape);
      InorderNodes(Plug(c, s));
      KeyAt(c, s);
      KeyOf(key, node);
      return 0;
    }

    // ---------- removal ----------

    ghost predicate Settled(c: Ctx, s: Shape, h: nat) {
      Balanced(s, h) && Accepts(c, h) && (IsRed(s) ==> c.Frame? && !c.red)
    }

    /** Painted black, `s` is fine if it was red and one black short if it was not. */
    ghost predicate Deficit(c: Ctx, s: Shape, h: nat) {
      s.Node? && Balanced(s.(red := false), h) && if s.red then Accepts(c, h) else Accepts(c, h + 1)
    }

    /** `tree_del` up to the rebalancing, for a node with at most one child. */
    method UnlinkOuter(node: TreeNode, parent: TreeNode?, next: TreeNode?, ghost c: Ctx, ghost s: Shape, ghost x: Shape)
      requires At(c, s) == true && s.Node? && s.n == node && parent == Top(c, null) && next == Root(x)
      requires (s.l == Leaf && x == s.r) || (s.r == Leaf && x == s.l)
      modifies this`root, CtxNodes(c), Nodes(s)
      ensures At(c, x) == true
    {
      assert allocated(Nodes(s)) && allocated(CtxNodes(c));
      Replace(parent, node, next, c);
      Adopt(next, parent, x, node);
    }

    /** The successor takes over `node`'s parent, left child and colour. */
    method TakeOver(node: TreeNode, next: TreeNode, parent: TreeNode?, left: TreeNode, ghost c: Ctx, ghost l: Shape)
      requires DistinctCtx(c) && Distinct(l) && Nodes(l) !! CtxNodes(c)
      requires node !in CtxNodes(c) && next !in CtxNodes(c) && node !in Nodes(l) && next !in Nodes(l) && node != next
      requires OkCtx(c, node, null) && root == Outer(c, node) && parent == Top(c, null) && node.parent == parent
      requires Ok(l, node) && Root(l) == left
      modifies this`root, next`red, next`left, next`parent, left`parent, if parent == null then {} else {parent}
      ensures OkCtx(c, next, null) == true && root == Outer(c, next) && Ok(l, next) == true
      ensures next.red == node.red && next.left == left && next.parent == parent
    {
      assert allocated(Nodes(l)) && allocated(CtxNodes(c));
      Replace(parent, node, next, c);
      next.red := node.red;
      next.left := left;
      next.parent := node.parent;
      Adopt(left, next, l, node);
    }

    /** `tree_del` up to the rebalancing, for a node with two children. */
    method UnlinkInner(node: TreeNode, parent: TreeNode?, left: TreeNode, right: TreeNode, next: TreeNode,
                       ghost d: Ctx, ghost z: Ctx, ghost key: nat, ghost red: bool, ghost x: Shape)
      returns (n: TreeNode?, p: TreeNode)
      requires At(Above(d, z), Node(next, key, red, Leaf, x)) == true && LeftSpine(d)
      requires z.Frame? && z.n == node && z.side.Right? && parent == Top(z.up, null)
      requires Root(z.sib) == left && Outer(d, next) == right
      modifies this`root, CtxNodes(d), CtxNodes(z), Nodes(x), next
      ensures At(Above(d, z.(n := next, key := key)), x) == true
      ensures n == Root(x) && p == Top(Above(d, z.(n := next, key := key)), null)
    {
      ghost var c, l, z' := z.up, z.sib, z.(n := next, key := key);
      Disassemble(d, z, next, key, red, x);
      assert allocated(CtxNodes(d)) && allocated(Nodes(x)) && allocated(CtxNodes(c)) && allocated(Nodes(l));
      p, n := next.parent, next.right;
      TakeOver(node, next, parent, left, c, l);
      assert OkCtx(d, next, node) == true && Ok(x, next) == true;
      p := LiftChild(right, next, p, n, d, node, z', x);
    }

    /** The successor hands its right child to its parent and takes over `right`. */
    method LiftChild(right: TreeNode, next: TreeNode, parent: TreeNode, child: TreeNode?,
                     ghost d: Ctx, ghost was: TreeNode, ghost z: Ctx, ghost x: Shape)
      returns (p: TreeNode)
      requires Apart(Above(d, z), x) == true && LeftSpine(d) && z.Frame? && z.n == next && z.side.Right?
      requires OkCtx(d, next, was) == true && Ok(x, next) == true && Root(x) == child && Outer(d, next) == right
      requires (if d.Hole? then right == next else right in CtxNodes(d) && parent == d.n) && next.right == child
      requires OkCtx(z.up, next, null) == true && Ok(z.sib, next) == true && root == Outer(z.up, next)
      requires next.key == z.key && next.red == z.red && next.parent == Top(z.up, null) && next.left == Root(z.sib)
      modifies CtxNodes(d), Nodes(x), next
      ensures At(Above(d, z), x) == true && p == Top(Above(d, z), null)
    {
      PiecesApart(d, z, x);
      assert allocated(Nodes(x)) && allocated(CtxNodes(z.up)) && allocated(Nodes(z.sib)) && allocated(CtxNodes(d));
      if next != right {
        p := parent;
        MoveSpine(p, right, child, next, d, was);
        next.right := right;
        Adopt(child, p, x, next);
      } else {
        p := next;
      }
      assert OkCtx(d, Root(x), next) == true;
      Assemble(d, z, x);
    }

    lemma {:induction false} Disassemble(d: Ctx, z: Ctx, next: TreeNode, key: nat, red: bool, x: Shape)
      requires At(Above(d, z), Node(next, key, red, Leaf, x)) == true && z.Frame?
      ensures OkCtx(d, next, z.n) == true && Ok(x, next) == true
      ensures next.right == Root(x) && next.parent == Top(Above(d, z), null) && next.key == key
      ensures OkCtx(z.up, z.n, null) == true && Ok(z.sib, z.n) == true && root == Outer(z.up, z.n)
      ensures z.n.parent == Top(z.up, null) && z.n.red == z.red && Child(z.n, z.side) == Outer(d, next)
      ensures if d.Hole? then Outer(d, next) == next else Outer(d, next) in CtxNodes(d)
      ensures DistinctCtx(d) && DistinctCtx(z) && Distinct(x) && z.n != next
      ensures z.n !in CtxNodes(d) && next !in CtxNodes(d) && z.n !in Nodes(x) && next !in Nodes(x)
      ensures next !in Nodes(z.sib) && next !in CtxNodes(z.up)
      ensures CtxNodes(d) !! CtxNodes(z.up) && CtxNodes(d) !! Nodes(z.sib) && CtxNodes(d) !! Nodes(x)
      ensures Nodes(x) !! CtxNodes(z.up) && Nodes(x) !! Nodes(z.sib)
      ensures Apart(Above(d, z.(n := next, key := key)), x) == true
    {
      InnerApart(d, z, next, key, red, x);
      OkAbove(d, z, next, null);
      OuterOf(d, next);
    }

    lemma {:induction false} Assemble(d: Ctx, z: Ctx, x: Shape)
      requires Apart(Above(d, z), x) == true && z.Frame?
      requires OkCtx(d, Root(x), z.n) == true && Ok(x, Top(Above(d, z), null)) == true
      requires OkCtx(z.up, z.n, null) == true && Ok(z.sib, z.n) == true && root == Outer(z.up, z.n)
      requires z.n.key == z.key && z.n.red == z.red && z.n.parent == Top(z.up, null)
      requires Child(z.n, z.side) == Outer(d, Root(x)) && Child(z.n, z.side.Other()) == Root(z.sib)
      ensures At(Above(d, z), x) == true
    {
      OkAbove(d, z, Root(x), null);
    }

    /** `TREE__REBALANCE_AFTER_REMOVE(cis, trans)`, red sibling. */
    method LiftSibling(parent: TreeNode, sibling: TreeNode, ghost c: Ctx, ghost x: Shape, ghost h: nat, cis: Side)
      returns (ghost c': Ctx)
      requires At(c, x) == true && Gone(c, x, false, h) && c.Frame? && c.n == parent && c.side == cis
      requires IsRed(c.sib) && c.sib.n == sibling
      modifies this`root, CtxNodes(c), Nodes(x)
      ensures Inorder(Plug(c', x)) == Inorder(Plug(c, x)) && Length(c') == Length(c) + 1
      ensures c'.Frame? && c'.red && c'.n == parent && c'.side == cis && !IsRed(c'.sib)
      ensures Gone(c', x, false, h)
      ensures At(c', x) == true
    {
      ghost var j := Join(c.n, c.key, true, cis, x, c.sib.(red := false));
      c' := SiblingRotated(c, x, h);
      PaintSibling(sibling, false, c, x);
      PaintParent(parent, true, c.(sib := c.sib.(red := false)), x);
      Refocus(c.(sib := c.sib.(red := false), red := true), x, c.up, j);
      Rotate(parent, cis, c.up, j);
      Refocus(c.up, Rotated(j, cis), c', x);
    }

    /** ..., red inner nephew only: rotate the sibling. */
    method LiftNephew(sibling: TreeNode, ghost c: Ctx, ghost x: Shape, ghost h: nat, cis: Side)
      returns (ghost c': Ctx)
      requires At(c, x) == true && Gone(c, x, false, h) && c.Frame? && c.side == cis
      requires c.sib.Node? && !c.sib.red && c.sib.n == sibling
      requires IsRed(Sub(c.sib, cis)) && !IsRed(Sub(c.sib, cis.Other()))
      modifies this`root, CtxNodes(c), Nodes(x)
      ensures At(c', x) == true && Gone(c', x, false, h)
      ensures c'.Frame? && c'.n == c.n && c'.side == cis && c'.red == c.red && c'.up == c.up
      ensures c'.sib.Node? && !c'.sib.red && IsRed(Sub(c'.sib, cis.Other()))
      ensures Inorder(Plug(c', x)) == Inorder(Plug(c, x))
    {
      ghost var sib := c.sib;
      ghost var d := Frame(c.n, c.key, c.red, cis.Other(), x, c.up);
      ghost var sib' := InnerRotated(c, x, h);
      c' := c.(sib := sib');
      AtUp(c, x);
      AtDown(c.up, Join(c.n, c.key, c.red, cis, x, sib), cis.Other());
      AtFocus(d, sib);
      AtDown(d, sib, cis);
      ghost var e := Frame(sib.n, sib.key, sib.red, cis, Sub(sib, cis.Other()), d);
      Paint(Child(sibling, cis), false, e, Sub(sib, cis));
      PaintParent(sibling, true, e, Sub(sib, cis).(red := false));
      AtUp(e.(red := true), Sub(sib, cis).(red := false));
      ghost var j := Join(sib.n, sib.key, true, cis, Sub(sib, cis).(red := false), Sub(sib, cis.Other()));
      Rotate(sibling, cis.Other(), d, j);
      AtUp(d, sib');
      AtDown(c.up, Join(c.n, c.key, c.red, cis, x, sib'), cis);
    }

    /** ..., red outer nephew: rotate the parent, and the tree is in order again. */
    method Settle(parent: TreeNode, sibling: TreeNode, ghost c: Ctx, ghost x: Shape, ghost h: nat, cis: Side)
      returns (ghost s: Shape, ghost h': nat)
      requires At(c, x) == true && Gone(c, x, false, h) && !IsRed(x) && c.Frame? && c.n == parent && c.side == cis
      requires c.sib.Node? && !c.sib.red && c.sib.n == sibling && IsRed(Sub(c.sib, cis.Other()))
      modifies this`root, CtxNodes(c), Nodes(x)
      ensures At(c.up, s) == true && Balanced(s, h') && Accepts(c.up, h')
      ensures IsRed(s) ==> c.up.Frame? && !c.up.red
      ensures Inorder(Plug(c.up, s)) == Inorder(Plug(c, x))
    {
      ghost var sib := c.sib;
      var trans := cis.Other();
      s := OuterRotated(c, x, h);
      h' := if c.red then h + 1 else h + 2;
      AtUp(c, x);
      PaintSibling(sibling, parent.red, c, x);
      ghost var sib1 := sib.(red := c.red);
      AtUp(c.(sib := sib1), x);
      AtDown(c.up, Join(c.n, c.key, c.red, cis, x, sib1), trans);
      ghost var d := Frame(c.n, c.key, c.red, trans, x, c.up);
      AtFocus(d, sib1);
      AtDown(d, sib1, trans);
      ghost var e := Frame(sib.n, sib.key, c.red, trans, Sub(sib, cis), d);
      Paint(Child(sibling, trans), false, e, Sub(sib, trans));
      AtUp(e, Sub(sib, trans).(red := false));
      ghost var sib2 := Join(sib.n, sib.key, c.red, cis, Sub(sib, cis), Sub(sib, trans).(red := false));
      AtUp(d, sib2);
      Paint(parent, false, c.up, Join(c.n, c.key, c.red, cis, x, sib2));
      Rotate(parent, cis, c.up, Join(c.n, c.key, false, cis, x, sib2));
    }

    /** `TREE__REBALANCE_AFTER_REMOVE(cis, trans)`: either the tree is in order again, or the
        missing black has moved up to `parent`. */
    method RebalanceAfterRemove(parent: TreeNode, cis: Side, ghost c: Ctx, ghost x: Shape, ghost h: nat)
      returns (settled: bool, ghost c': Ctx, ghost s': Shape, ghost h': nat)
      requires At(c, x) == true && Gone(c, x, false, h) && !IsRed(x)
      requires c.Frame? && c.n == parent && c.side == cis
      modifies this`root, CtxNodes(c), Nodes(x)
      ensures At(c', s') == true && Inorder(Plug(c', s')) == Inorder(Plug(c, x))
      ensures settled ==> Settled(c', s', h')
      ensures !settled ==> s'.Node? && s'.n == parent && Deficit(c', s', h')
      ensures !settled ==> s'.red || Length(c') < Length(c)
    {
      c' := c;
      AtUp(c, x);
      var sibling := Child(parent, cis.Other());
      AtSibling(c, x);
      if sibling.red {
        c' := LiftSibling(parent, sibling, c, x, h, cis);
        SameNodes(c, x, c', x);
        AtUp(c', x);
        sibling := Child(parent, cis.Other());
      }
      settled, s', h' := RebalanceBlack(parent, sibling, cis, c', x, h);
      c' := c'.up;
    }

    /** ..., once the sibling is black. */
    method RebalanceBlack(parent: TreeNode, sibling0: TreeNode, cis: Side, ghost c: Ctx, ghost x: Shape, ghost h: nat)
      returns (settled: bool, ghost s': Shape, ghost h': nat)
      requires At(c, x) == true && Gone(c, x, false, h) && !IsRed(x)
      requires c.Frame? && c.n == parent && c.side == cis && c.sib.Node? && c.sib.n == sibling0 && !c.sib.red
      modifies this`root, CtxNodes(c), Nodes(x)
      ensures At(c.up, s') == true && Inorder(Plug(c.up, s')) == Inorder(Plug(c, x))
      ensures settled ==> Settled(c.up, s', h')
      ensures !settled ==> s'.Node? && s'.n == parent && s'.red == c.red && Deficit(c.up, s', h')
    {
      var sibling := sibling0;
      AtSibling(c, x);
      settled := (sibling.left != null && sibling.left.red) || (sibling.right != null && sibling.right.red);
      if settled {
        ghost var c' := c;
        var outer := Child(sibling, cis.Other());
        if outer == null || !outer.red {
          c' := LiftNephew(sibling, c, x, h, cis);
          SameNodes(c, x, c', x);
          AtUp(c', x);
          sibling := Child(parent, cis.Other());
        }
        s', h' := Settle(parent, sibling, c', x, h, cis);
      } else {
        s' := DeficitUp(c, x, h);
        h' := h + 1;
        PaintSibling(sibling, true, c, x);
        AtUp(c.(sib := c.sib.(red := true)), x);
      }
    }

    lemma {:induction false} AtSibling(c: Ctx, s: Shape)
      requires At(c, s) == true && c.Frame? && c.sib.Node?
      ensures c.sib.n.red == c.sib.red && c.sib.n.left == Root(c.sib.l) && c.sib.n.right == Root(c.sib.r)
      ensures c.sib.l.Node? ==> c.sib.l.n.red == c.sib.l.red
      ensures c.sib.r.Node? ==> c.sib.r.n.red == c.sib.r.red
    {
      assert Ok(c.sib, c.n);
      assert Ok(c.sib.l, c.sib.n) && Ok(c.sib.r, c.sib.n);
    }

    /** All is in order: record the shape. */
    ghost method Close(c: Ctx, s: Shape, h: nat)
      requires At(c, s) == true && Balanced(s, h) && Accepts(c, h) && (IsRed(s) ==> c.Frame? && !c.red)
      requires Sorted(Inorder(Plug(c, s)))
      modifies this`shape
      ensures Valid() && shape == Plug(c, s)
    {
      AtWhole(c, s);
      PlugDistinct(c, s);
      ghost var h' := PlugBalanced(c, s, h);
      shape := Plug(c, s);
      assert Balanced(shape, h');
    }

    /** The rebalancing loop of `tree_del`. */
    method FixAfterRemove(node: TreeNode?, parent: TreeNode?, ghost c0: Ctx, ghost x0: Shape, ghost h0: nat)
      requires At(c0, x0) == true && Gone(c0, x0, false, h0) && !IsRed(x0)
      requires node == Root(x0) && parent == Top(c0, null) && Sorted(Inorder(Plug(c0, x0)))
      modifies this, CtxNodes(c0), Nodes(x0)
      ensures Valid() && Inorder(shape) == Inorder(Plug(c0, x0))
    {
      var n, p := node, parent;
      ghost var c, s, h := c0, x0, h0;
      while true
        invariant At(c, s) == true && Gone(c, s, false, h) && !IsRed(s)
        invariant n == Root(s) && p == Top(c, null)
        invariant Inorder(Plug(c, s)) == Inorder(Plug(c0, x0))
        invariant CtxNodes(c) + Nodes(s) == CtxNodes(c0) + Nodes(x0)
        decreases Length(c)
      {
        OuterOf(c, Root(s));
        if n == root {
          break;
        }
        var settled;
        AtUp(c, s);
        if n == p.left {
          settled, c, s, h := RebalanceAfterRemove(p, Left, c, s, h);
        } else {
          settled, c, s, h := RebalanceAfterRemove(p, Right, c, s, h);
        }
        SameNodes(c0, x0, c, s);
        if settled {
          n := root;
          AtWhole(c, s);
          PlugNodes(c, s);
          h := PlugBalanced(c, s, h);
          c, s := Hole, Plug(c, s);
          break;
        }
        AtFocus(c, s);
        n := p;
        p := p.parent;
        if n.red {
          break;
        }
      }
      if n != null {
        Paint(n, false, c, s);
        PlugSame(c, s, s.(red := false));
        s := s.(red := false);
      }
      Close(c, s, h);
    }

    /** The successor of a node with two children: leftmost in its right subtree. */
    method Successor(right: TreeNode, ghost base: Ctx, ghost r: Shape)
      returns (next: TreeNode, ghost d: Ctx, ghost s: Shape)
      requires At(base, r) == true && r.Node? && r.n == right
      ensures At(Above(d, base), s) == true && s.Node? && s.n == next && s.l == Leaf
      ensures LeftSpine(d) && Outer(d, next) == right && Plug(Above(d, base), s) == Plug(base, r)
    {
      next, d, s := right, Hole, r;
      AtFocus(base, r);
      while next.left != null
        invariant At(Above(d, base), s) == true && s.Node? && s.n == next && next.left == Root(s.l)
        invariant LeftSpine(d) && Outer(d, next) == right && Plug(Above(d, base), s) == Plug(base, r)
        decreases s
      {
        AtDown(Above(d, base), s, Left);
        d, s := Frame(s.n, s.key, s.red, Left, s.r, d), s.l;
        next := next.left;
        AtFocus(Above(d, base), s);
      }
    }

    /** `tree_del` */
    method Delete(node: TreeNode)
      requires Valid() && node in Nodes(shape)
      modifies this, Nodes(shape)
      ensures Valid()
      ensures Contents() == old(Contents()) - {old(node.key)}
      ensures Nodes(shape) == old(Nodes(shape)) - {node}
    {
      ghost var c, s := Locate(Hole, shape, node);
      AtPart(c, s);
      AtFocus(c, s);
      PlugNodes(c, s);
      var parent, left, right := node.parent, node.left, node.right;
      var n, p, red;
      ghost var c', x, h;
      if left == null || right == null {
        n := if left == null then right else left;
        x := if left == null then s.r else s.l;
        p, red, c' := parent, node.red, c;
        h := OuterGone(c, s, x);
        OuterNodes(c, s, x);
        UnlinkOuter(node, parent, n, c, s, x);
      } else {
        ghost var z, d, f := Frame(node, s.key, s.red, Right, s.l, c), Hole, s.r;
        AtDown(c, s, Right);
        var next;
        next, d, f := Successor(right, z, s.r);
        AtFocus(Above(d, z), f);
        PlugNodes(Above(d, z), f);
        AboveOrder(d, z);
        red, x := next.red, f.r;
        c' := Above(d, z.(n := next, key := f.key));
        h := InnerGone(d, z, next, f.key, f.red, x);
        InnerNodes(d, z, next, f.key, f.red, x);
        n, p := UnlinkInner(node, parent, left, right, next, d, z, f.key, f.red, x);
      }
      Finish(n, p, red, c', x, h);
      PlugNodes(c', x);
      InorderNodes(shape);
      InorderNodes(Plug(c', x));
    }

    /** `tree_del` after the unlinking: repaint or rebalance where that is needed. */
    method Finish(node: TreeNode?, parent: TreeNode?, red: bool, ghost c: Ctx, ghost x: Shape, ghost h: nat)
      requires At(c, x) == true && Gone(c, x, red, h) && node == Root(x) && parent == Top(c, null)
      requires Sorted(Inorder(Plug(c, x)))
      modifies this, CtxNodes(c), Nodes(x)
      ensures Valid() && Inorder(shape) == Inorder(Plug(c, x))
    {
      if red {
        Close(c, x, h);
        return;
      }
      if node != null {
        AtFocus(c, x);
      }
      if node != null && node.red {
        Paint(node, false, c, x);
        PlugSame(c, x, x.(red := false));
        Close(c, x.(red := false), h + 1);
        return;
      }
      FixAfterRemove(node, parent, c, x, h);
    }

    /** The key field of a stored node is its key. */
    lemma {:induction false} KeyOf(key: nat, node: TreeNode)
      requires Valid() && key in Contents() && Contents()[key] == node
      ensures node in Nodes(shape) && node.key == key
    {
      DictKeys(Inorder(shape));
      DictHas(Inorder(shape), Entry(key, node));
      OkEntry(shape, null, Entry(key, node));
    }
  }

  lemma {:induction false} OkEntry(s: Shape, p: TreeNode?, e: Entry)
    requires Ok(s, p) && e in Inorder(s)
    ensures e.node in Nodes(s) && e.node.key == e.key
  {
    if e in Inorder(s.l) {
      OkEntry(s.l, s.n, e);
    } else if e in Inorder(s.r) {
      OkEntry(s.r, s.n, e);
    }
  }

  /** `if (child) child->parent = parent` */
  method Adopt(child: TreeNode?, parent: TreeNode?, ghost s: Shape, ghost was: TreeNode?)
    requires Ok(s, was) && Distinct(s) && child == Root(s)
    modifies (if child == null then {} else {child})`parent
    ensures Ok(s, parent) == true
  {
    if child != null {
      assert Ok(s.l, s.n) && Ok(s.r, s.n);
      child.parent := parent;
    }
  }

  /** The parent of the successor gives it up, and the spine gets a new parent. */
  method MoveSpine(parent: TreeNode, right: TreeNode, child: TreeNode?, next: TreeNode,
                   ghost d: Ctx, ghost was: TreeNode)
    requires DistinctCtx(d) && d.Frame? && LeftSpine(d) && d.n == parent && next !in CtxNodes(d)
    requires OkCtx(d, next, was) && Outer(d, next) == right && (child != null ==> child !in CtxNodes(d))
    modifies parent`left, right`parent
    ensures OkCtx(d, child, next) == true && Outer(d, child) == right
  {
    assert allocated(CtxNodes(d));
    parent.left := child;
    assert OkCtx(d, child, was) == true;
    ghost var d', f := SplitBottom(d);
    OkAbove(d', f, child, was);
    AboveDistinct(d', f);
    assert f.n == right;
    right.parent := next;
    assert OkCtx(d', child, right) == true;
    assert OkCtx(f, Outer(d', child), next) == true;
    OkAbove(d', f, child, next);
  }

  /** The fields along a composite context, piece by piece. */
  lemma {:induction false} OkAbove(d: Ctx, base: Ctx, h: TreeNode?, p: TreeNode?)
    ensures OkCtx(Above(d, base), h, p) <==> OkCtx(d, h, Top(base, p)) && OkCtx(base, Outer(d, h), p)
    ensures Outer(Above(d, base), h) == Outer(base, Outer(d, h))
  {
    if d.Frame? {
      OkAbove(d.up, base, d.n, p);
    }
  }

  // (`== true` keeps the verifier from unfolding the predicate when it checks a call.)
  lemma {:induction false} OkJoin(n: TreeNode, side: Side, x: Shape, y: Shape, p: TreeNode?)
    requires n.parent == p && Child(n, side) == Root(x) && Child(n, side.Other()) == Root(y)
    requires (Ok(x, n) && Ok(y, n)) == true
    ensures Ok(Join(n, n.key, n.red, side, x, y), p)
  {
  }

  lemma {:induction false} OkSub(s: Shape, side: Side, p: TreeNode?)
    requires Ok(s, p) && s.Node?
    ensures Ok(Sub(s, side), s.n) && Child(s.n, side) == Root(Sub(s, side))
    ensures s.n.parent == p && s.n.key == s.key && s.n.red == s.red
  {
  }

  /** The pointer assignments of a rotation below the parent; `b` changes parents. */
  method Turn(p: TreeNode, q: TreeNode, parent: TreeNode?, cis: Side, ghost b: Shape)
    requires p != q && p !in Nodes(b) && q !in Nodes(b) && Child(q, cis) == Root(b)
    requires Ok(b, q) && Distinct(b)
    modifies p`left, p`right, p`parent, q`left, q`right, q`parent, (if b.Leaf? then {} else {b.n})`parent
    ensures q.parent == parent && Child(q, cis) == p && Child(q, cis.Other()) == old(Child(q, cis.Other()))
    ensures p.parent == q && Child(p, cis.Other()) == Root(b) && Child(p, cis) == old(Child(p, cis))
    ensures Ok(b, p)
  {
    q.parent := parent;
    p.parent := q;
    if cis.Left? {
      p.right := q.left;
      if p.right != null {
        p.right.parent := p;
      }
      q.left := p;
    } else {
      p.left := q.right;
      if p.left != null {
        p.left.parent := p;
      }
      q.right := p;
    }
  }

  method TurnShape(p: TreeNode, q: TreeNode, parent: TreeNode?, cis: Side, ghost s: Shape)
    requires Ok(s, parent) && Distinct(s)
    requires s.Node? && s.n == p && Sub(s, cis.Other()).Node? && Sub(s, cis.Other()).n == q
    modifies Nodes(s)
    ensures Ok(Rotated(s, cis), parent) == true
  {
    ghost var a, sq := Sub(s, cis), Sub(s, cis.Other());
    ghost var b, d := Sub(sq, cis), Sub(sq, cis.Other());
    OkSub(s, cis, parent);
    OkSub(s, cis.Other(), parent);
    OkSub(sq, cis, p);
    OkSub(sq, cis.Other(), p);
    assert allocated(Nodes(a)) && allocated(Nodes(d));
    Turn(p, q, parent, cis, b);
    OkJoin(p, cis, a, b, q);
    OkJoin(q, cis, Join(p, p.key, p.red, cis, a, b), d, parent);
  }
}
