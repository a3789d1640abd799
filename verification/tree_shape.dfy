/** The pure side of wepoll's red-black tree.

    A `Shape` is the tree a root pointer stands for: it names the node object at
    every position together with the key and the colour stored there.  A `Ctx` is
    a shape with one hole, read from the hole outwards; the loops of `tree_add` and
    `tree_del` climb along it.  Everything in this module is about values; the
    module `RedBlackTree` ties them to the node objects and their pointer fields. */
module TreeShape {

  /** `tree_node_t`: three links, the key, and the colour bit. */
  class TreeNode {
    var left: TreeNode?
    var right: TreeNode?
    var parent: TreeNode?
    var key: nat
    var red: bool

    /** `tree_node_init`: all bytes zero. */
    constructor ()
      ensures left == null && right == null && parent == null && key == 0 && !red
    {
      left, right, parent, key, red := null, null, null, 0, false;
    }
  }

  /** The macro arguments `cis` and `trans` of the rotation and rebalancing code. */
  datatype Side = Left | Right {
    function Other(): Side {
      if Left? then Right else Left
    }
  }

  datatype Shape = Leaf | Node(n: TreeNode, key: nat, red: bool, l: Shape, r: Shape)

  /** `side` is the side of the hole; `sib` is the other subtree of the frame's node. */
  datatype Ctx = Hole | Frame(n: TreeNode, key: nat, red: bool, side: Side, sib: Shape, up: Ctx)

  /** A node whose `side` child is `cis` and whose other child is `trans`. */
  function Join(n: TreeNode, key: nat, red: bool, side: Side, cis: Shape, trans: Shape): Shape {
    if side.Left? then Node(n, key, red, cis, trans) else Node(n, key, red, trans, cis)
  }

  function Sub(s: Shape, side: Side): Shape
    requires s.Node?
  {
    if side.Left? then s.l else s.r
  }

  function Root(s: Shape): TreeNode? {
    if s.Leaf? then null else s.n
  }

  function IsRed(s: Shape): bool {
    s.Node? && s.red
  }

  function Top(c: Ctx, p: TreeNode?): TreeNode? {
    if c.Hole? then p else c.n
  }

  /** The root of a tree whose context has `h` in its hole. */
  function Outer(c: Ctx, h: TreeNode?): TreeNode? {
    if c.Hole? then h else Outer(c.up, c.n)
  }

  function Plug(c: Ctx, s: Shape): Shape
    decreases c
  {
    match c
    case Hole => s
    case Frame(n, k, red, side, sib, up) => Plug(up, Join(n, k, red, side, s, sib))
  }

  function Nodes(s: Shape): set<TreeNode> {
    match s
    case Leaf => {}
    case Node(n, _, _, l, r) => {n} + Nodes(l) + Nodes(r)
  }

  function CtxNodes(c: Ctx): set<TreeNode> {
    match c
    case Hole => {}
    case Frame(n, _, _, _, sib, up) => {n} + Nodes(sib) + CtxNodes(up)
  }

  /** No node object occurs at two positions. */
  ghost predicate Distinct(s: Shape) {
    s.Node? ==>
      && s.n !in Nodes(s.l) && s.n !in Nodes(s.r) && Nodes(s.l) !! Nodes(s.r)
      && Distinct(s.l) && Distinct(s.r)
  }

  ghost predicate DistinctCtx(c: Ctx) {
    c.Frame? ==>
      && c.n !in Nodes(c.sib) && c.n !in CtxNodes(c.up) && Nodes(c.sib) !! CtxNodes(c.up)
      && Distinct(c.sib) && DistinctCtx(c.up)
  }

  ghost predicate Apart(c: Ctx, s: Shape) {
    DistinctCtx(c) && Distinct(s) && CtxNodes(c) !! Nodes(s)
  }

  lemma {:induction false} PlugNodes(c: Ctx, s: Shape)
    ensures Nodes(Plug(c, s)) == CtxNodes(c) + Nodes(s)
    decreases c
  {
    if c.Frame? {
      PlugNodes(c.up, Join(c.n, c.key, c.red, c.side, s, c.sib));
    }
  }

  lemma {:induction false} PlugDistinct(c: Ctx, s: Shape)
    ensures Distinct(Plug(c, s)) <==> Apart(c, s)
    decreases c
  {
    if c.Frame? {
      PlugDistinct(c.up, Join(c.n, c.key, c.red, c.side, s, c.sib));
    }
  }

  // ---------- contents: the in-order sequence of entries ----------

  datatype Entry = Entry(key: nat, node: TreeNode)

  function Inorder(s: Shape): seq<Entry> {
    match s
    case Leaf => []
    case Node(n, k, _, l, r) => Inorder(l) + [Entry(k, n)] + Inorder(r)
  }

  /** The entries to the left and to the right of a context's hole. */
  function Before(c: Ctx): seq<Entry> {
    match c
    case Hole => []
    case Frame(n, k, _, side, sib, up) =>
      if side.Left? then Before(up) else Before(up) + (Inorder(sib) + [Entry(k, n)])
  }

  function After(c: Ctx): seq<Entry> {
    match c
    case Hole => []
    case Frame(n, k, _, side, sib, up) =>
      if side.Left? then ([Entry(k, n)] + Inorder(sib)) + After(up) else After(up)
  }

  lemma {:induction false} PlugInorder(c: Ctx, s: Shape)
    ensures Inorder(Plug(c, s)) == Before(c) + Inorder(s) + After(c)
    decreases c
  {
    if c.Frame? {
      PlugInorder(c.up, Join(c.n, c.key, c.red, c.side, s, c.sib));
    }
  }

  lemma {:induction false} PlugSame(c: Ctx, s: Shape, s': Shape)
    requires Inorder(s) == Inorder(s')
    ensures Inorder(Plug(c, s)) == Inorder(Plug(c, s'))
  {
    PlugInorder(c, s);
    PlugInorder(c, s');
  }

  lemma {:induction false} InorderNodes(s: Shape)
    ensures Nodes(s) == set e | e in Inorder(s) :: e.node
  {
    if s.Node? {
      InorderNodes(s.l);
      InorderNodes(s.r);
      assert Inorder(s)[|Inorder(s.l)|] == Entry(s.key, s.n);
    }
  }

  /** Equal contents mean the same node objects. */
  lemma {:induction false} SameNodes(c: Ctx, s: Shape, c': Ctx, s': Shape)
    requires Inorder(Plug(c, s)) == Inorder(Plug(c', s'))
    ensures CtxNodes(c) + Nodes(s) == CtxNodes(c') + Nodes(s')
  {
    InorderNodes(Plug(c, s));
    InorderNodes(Plug(c', s'));
    PlugNodes(c, s);
    PlugNodes(c', s');
  }

  ghost predicate Sorted(es: seq<Entry>) {
    forall i, j :: 0 <= i < j < |es| ==> es[i].key < es[j].key
  }

  /** The finite map a sorted sequence of entries stands for. */
  function Dict(es: seq<Entry>): map<nat, TreeNode> {
    if es == [] then map[] else Dict(es[1..])[es[0].key := es[0].node]
  }

  lemma {:induction false} DictKeys(es: seq<Entry>)
    ensures Dict(es).Keys == set e | e in es :: e.key
  {
    if es != [] {
      DictKeys(es[1..]);
      assert es == [es[0]] + es[1..];
    }
  }

  lemma {:induction false} DictLookup(es: seq<Entry>, i: nat)
    requires Sorted(es) && i < |es|
    ensures es[i].key in Dict(es) && Dict(es)[es[i].key] == es[i].node
  {
    if i > 0 {
      DictLookup(es[1..], i - 1);
    }
  }

  /** Which keys and values a dictionary holds, entry by entry. */
  lemma {:induction false} DictHas(es: seq<Entry>, e: Entry)
    requires Sorted(es)
    ensures e in es <==> e.key in Dict(es) && Dict(es)[e.key] == e.node
  {
    DictKeys(es);
    if e.key in Dict(es) {
      var x :| x in es && x.key == e.key;
      var i :| 0 <= i < |es| && es[i] == x;
      DictLookup(es, i);
    }
    if e in es {
      var i :| 0 <= i < |es| && es[i] == e;
      DictLookup(es, i);
    }
  }

  /** Inserting one entry in order is the map update. */
  lemma {:induction false} DictInsert(a: seq<Entry>, e: Entry, b: seq<Entry>)
    requires Sorted(a + [e] + b)
    ensures Dict(a + [e] + b) == Dict(a + b)[e.key := e.node]
  {
    var es := a + [e] + b;
    if a == [] {
      assert es[1..] == b && a + b == b;
    } else {
      assert es[1..] == a[1..] + [e] + b;
      assert (a + b)[1..] == a[1..] + b;
      assert es[0].key < es[|a|].key;
      DictInsert(a[1..], e, b);
    }
  }

  lemma {:induction false} DictAbsent(a: seq<Entry>, e: Entry, b: seq<Entry>)
    requires Sorted(a + [e] + b)
    ensures e.key !in Dict(a + b)
  {
    SortedMiddle(a, e, b, a + [e] + b);
    DictKeys(a + b);
  }

  /** The hole is where `key` belongs. */
  ghost predicate Slot(c: Ctx, key: nat) {
    && (forall e :: e in Before(c) ==> e.key < key)
    && (forall e :: e in After(c) ==> key < e.key)
  }

  lemma {:induction false} SlotDown(c: Ctx, s: Shape, side: Side, key: nat)
    requires Slot(c, key) && s.Node? && Sorted(Inorder(Plug(c, s)))
    requires if side.Left? then key < s.key else s.key < key
    ensures Slot(Frame(s.n, s.key, s.red, side, Sub(s, side.Other()), c), key)
  {
    PlugInorder(c, s);
    SortedParts(Before(c), Inorder(s.l), Entry(s.key, s.n), Inorder(s.r), After(c), Inorder(Plug(c, s)));
  }

  lemma {:induction false} SortedParts(a: seq<Entry>, l: seq<Entry>, e: Entry, r: seq<Entry>, b: seq<Entry>,
          w: seq<Entry>)
    requires Sorted(w) && w == a + (l + [e] + r) + b
    ensures forall x :: x in l ==> x.key < e.key
    ensures forall x :: x in r ==> e.key < x.key
  {
    assert w == (a + l) + [e] + (r + b);
    SortedMiddle(a + l, e, r + b, w);
  }

  lemma {:induction false} SortedMiddle(a: seq<Entry>, e: Entry, b: seq<Entry>, w: seq<Entry>)
    requires Sorted(w) && w == a + [e] + b
    ensures forall x :: x in a ==> x.key < e.key
    ensures forall x :: x in b ==> e.key < x.key
  {
    assert w[|a|] == e;
    forall x | x in a
      ensures x.key < e.key
    {
      var i :| 0 <= i < |a| && a[i] == x;
      assert w[i] == x;
    }
    forall x | x in b
      ensures e.key < x.key
    {
      var i :| 0 <= i < |b| && b[i] == x;
      assert w[|a| + 1 + i] == x;
    }
  }

  lemma {:induction false} KeyAt(c: Ctx, s: Shape)
    requires s.Node?
    ensures s.key in Dict(Inorder(Plug(c, s)))
    ensures Sorted(Inorder(Plug(c, s))) ==> Dict(Inorder(Plug(c, s)))[s.key] == s.n
  {
    PlugInorder(c, s);
    DictKeys(Inorder(Plug(c, s)));
    var w := Inorder(Plug(c, s));
    assert w[|Before(c)| + |Inorder(s.l)|] == Entry(s.key, s.n);
    assert Entry(s.key, s.n) in w;
    if Sorted(w) {
      DictHas(w, Entry(s.key, s.n));
    }
  }

  lemma {:induction false} SlotFree(c: Ctx, key: nat)
    requires Slot(c, key)
    ensures key !in Dict(Inorder(Plug(c, Leaf)))
  {
    PlugInorder(c, Leaf);
    DictKeys(Inorder(Plug(c, Leaf)));
  }

  lemma {:induction false} SlotInsert(c: Ctx, key: nat, node: TreeNode)
    requires Slot(c, key) && Sorted(Inorder(Plug(c, Leaf)))
    ensures var w := Inorder(Plug(c, Node(node, key, true, Leaf, Leaf)));
            Sorted(w) && Dict(w) == Dict(Inorder(Plug(c, Leaf)))[key := node]
  {
    PlugInorder(c, Leaf);
    PlugInorder(c, Node(node, key, true, Leaf, Leaf));
    assert Inorder(Plug(c, Leaf)) == Before(c) + After(c);
    assert Inorder(Plug(c, Node(node, key, true, Leaf, Leaf))) == Before(c) + [Entry(key, node)] + After(c);
    SortedInsert(Before(c), Entry(key, node), After(c));
    DictInsert(Before(c), Entry(key, node), After(c));
  }

  lemma {:induction false} SortedInsert(a: seq<Entry>, e: Entry, b: seq<Entry>)
    requires Sorted(a + b)
    requires forall x :: x in a ==> x.key < e.key
    requires forall x :: x in b ==> e.key < x.key
    ensures Sorted(a + [e] + b)
  {
    var w := a + [e] + b;
    forall i, j | 0 <= i < j < |w|
      ensures w[i].key < w[j].key
    {
      if i == |a| {
        assert w[j] == b[j - |a| - 1];
      } else if j == |a| {
        assert w[i] == a[i];
      } else {
        assert w[i] == (a + b)[if i < |a| then i else i - 1];
        assert w[j] == (a + b)[if j < |a| then j else j - 1];
      }
    }
  }

  lemma {:induction false} DictSize(es: seq<Entry>)
    requires Sorted(es)
    ensures |Dict(es)| == |es|
  {
    if es != [] {
      DictSize(es[1..]);
      DictKeys(es[1..]);
      assert es[0].key !in Dict(es[1..]);
    }
  }

  // ---------- red-black balance ----------

  /** A balanced shape of black height `h` in which no red node has a red child. */
  ghost predicate Balanced(s: Shape, h: nat) {
    match s
    case Leaf => h == 0
    case Node(_, _, red, l, r) =>
      if red then !IsRed(l) && !IsRed(r) && Balanced(l, h) && Balanced(r, h)
      else h > 0 && Balanced(l, h - 1) && Balanced(r, h - 1)
  }

  /** A context that turns a balanced shape of black height `h`, red only if the hole
      may hold a red root, into a red-black tree. */
  ghost predicate Accepts(c: Ctx, h: nat) {
    match c
    case Hole => true
    case Frame(_, _, red, _, sib, up) =>
      && Balanced(sib, h)
      && (red ==> !IsRed(sib) && up.Frame? && !up.red)
      && Accepts(up, if red then h else h + 1)
  }

  /** All the red-black invariants at once: balance, black root, search order. */
  ghost predicate RedBlack(s: Shape) {
    && !IsRed(s)
    && (exists h: nat :: Balanced(s, h))
    && Sorted(Inorder(s))
    && Distinct(s)
  }

  lemma {:induction false} PlugBalanced(c: Ctx, s: Shape, h: nat) returns (h': nat)
    requires Accepts(c, h) && Balanced(s, h)
    requires IsRed(s) ==> c.Frame? && !c.red
    ensures Balanced(Plug(c, s), h')
    ensures !IsRed(Plug(c, s))
    decreases c
  {
    if c.Hole? {
      h' := h;
    } else {
      h' := PlugBalanced(c.up, Join(c.n, c.key, c.red, c.side, s, c.sib), if c.red then h else h + 1);
    }
  }

  function Length(c: Ctx): nat {
    if c.Hole? then 0 else 1 + Length(c.up)
  }

  /** A red-black tree taken apart at any position. */
  lemma {:induction false} UnplugBalanced(c: Ctx, s: Shape, h': nat) returns (h: nat)
    requires Balanced(Plug(c, s), h') && !IsRed(Plug(c, s))
    ensures Accepts(c, h) && Balanced(s, h)
    ensures IsRed(s) ==> c.Frame? && !c.red
    decreases c
  {
    if c.Hole? {
      h := h';
    } else {
      h := UnplugBalanced(c.up, Join(c.n, c.key, c.red, c.side, s, c.sib), h');
      h := if c.red then h else h - 1;
    }
  }

  // ---------- rotations and recolouring ----------

  /** The focus after a rotation towards `cis`. */
  function Rotated(s: Shape, cis: Side): Shape
    requires s.Node? && Sub(s, cis.Other()).Node?
  {
    var q := Sub(s, cis.Other());
    Join(q.n, q.key, q.red, cis,
         Join(s.n, s.key, s.red, cis, Sub(s, cis), Sub(q, cis)), Sub(q, cis.Other()))
  }

  lemma {:induction false} RotatedApart(s: Shape, cis: Side)
    requires s.Node? && Sub(s, cis.Other()).Node?
    ensures Nodes(Rotated(s, cis)) == Nodes(s)
    ensures Distinct(Rotated(s, cis)) == Distinct(s)
    ensures Inorder(Rotated(s, cis)) == Inorder(s)
  {
  }

  lemma {:induction false} Recoloured(c: Ctx, s: Shape, h: nat) returns (c': Ctx, s': Shape)
    requires IsRed(s) && Balanced(s, h) && Accepts(c, h)
    requires c.Frame? && c.red && c.up.Frame? && IsRed(c.up.sib)
    ensures c' == c.up.up
    ensures s' == Join(c.up.n, c.up.key, true, c.up.side,
                       Join(c.n, c.key, false, c.side, s, c.sib), c.up.sib.(red := false))
    ensures Balanced(s', h + 1) && Accepts(c', h + 1) && IsRed(s')
    ensures Inorder(Plug(c', s')) == Inorder(Plug(c, s)) && Length(c') < Length(c)
  {
    c' := c.up.up;
    s' := Join(c.up.n, c.up.key, true, c.up.side,
               Join(c.n, c.key, false, c.side, s, c.sib), c.up.sib.(red := false));
    PlugSame(c', s', Join(c.up.n, c.up.key, c.up.red, c.up.side, Join(c.n, c.key, c.red, c.side, s, c.sib), c.up.sib));
  }

  /** The recoloured grandparent, rotated away from the inserted node. */
  lemma {:induction false} RotatedOuter(c: Ctx, s: Shape, h: nat) returns (c': Ctx)
    requires IsRed(s) && Balanced(s, h) && Accepts(c, h)
    requires c.Frame? && c.red && c.up.Frame? && c.up.side == c.side && !IsRed(c.up.sib)
    ensures var side := c.side;
            var g := Join(c.up.n, c.up.key, true, side, Join(c.n, c.key, false, side, s, c.sib), c.up.sib);
            && c' == Frame(c.n, c.key, false, side, Sub(Rotated(g, side.Other()), side.Other()), c.up.up)
            && CtxNodes(c.up.up) + Nodes(g) == CtxNodes(c) + Nodes(s)
    ensures Accepts(c', h) && Length(c') < Length(c)
    ensures Inorder(Plug(c', s)) == Inorder(Plug(c, s))
  {
    var side := c.side;
    var g := Join(c.up.n, c.up.key, true, side, Join(c.n, c.key, false, side, s, c.sib), c.up.sib);
    c' := Frame(c.n, c.key, false, side, Sub(Rotated(g, side.Other()), side.Other()), c.up.up);
    RotatedApart(g, side.Other());
    assert Rotated(g, side.Other()) == Join(c'.n, c'.key, false, side, s, c'.sib);
    var g0 := Join(c.up.n, c.up.key, c.up.red, side, Join(c.n, c.key, c.red, side, s, c.sib), c.up.sib);
    PlugSame(c.up.up, Rotated(g, side.Other()), g0);
  }

  lemma {:induction false} PaintedSame(s: Shape, red: bool, h: nat)
    requires s.Node? && Balanced(s, h)
    ensures Nodes(s.(red := red)) == Nodes(s) && Inorder(s.(red := red)) == Inorder(s)
    ensures s.red
            ==> Balanced(s.l, h) && Balanced(s.r, h) && !IsRed(s.l) && !IsRed(s.r) && Balanced(s.(red := false), h + 1)
  {
  }

  /** A red sibling, rotated up: the sibling of the deficient node is black afterwards. */
  lemma {:induction false} SiblingRotated(c: Ctx, x: Shape, h: nat) returns (c': Ctx)
    requires c.Frame? && IsRed(c.sib) && Accepts(c, h + 1)
    ensures var side, sib := c.side, c.sib;
            var j := Join(c.n, c.key, true, side, x, sib.(red := false));
            && c' == Frame(c.n, c.key, true, side, Sub(sib, side),
               Frame(sib.n, sib.key, false, side, Sub(sib, side.Other()), c.up))
            && Rotated(j, side) == Join(sib.n, sib.key, false, side, Join(c.n, c.key, true, side, x, Sub(sib, side)),
               Sub(sib, side.Other()))
            && CtxNodes(c.up) + Nodes(j) == CtxNodes(c) + Nodes(x)
    ensures Accepts(c', h + 1) && !IsRed(c'.sib)
    ensures Inorder(Plug(c', x)) == Inorder(Plug(c, x))
  {
    var side, sib := c.side, c.sib;
    var j := Join(c.n, c.key, true, side, x, sib.(red := false));
    c' := Frame(c.n, c.key, true, side, Sub(sib, side),
      Frame(sib.n, sib.key, false, side, Sub(sib, side.Other()), c.up));
    RotatedApart(j, side);
    PlugSame(c.up, Rotated(j, side), Join(c.n, c.key, c.red, side, x, sib));
  }

  /** A black sibling with a red inner child only, rotated so that the red child is the outer one. */
  lemma {:induction false} InnerRotated(c: Ctx, x: Shape, h: nat) returns (sib': Shape)
    requires c.Frame? && c.sib.Node? && !c.sib.red && Accepts(c, h + 1)
    requires IsRed(Sub(c.sib, c.side)) && !IsRed(Sub(c.sib, c.side.Other()))
    ensures var cis, sib := c.side, c.sib;
            var j := Join(sib.n, sib.key, true, cis, Sub(sib, cis).(red := false), Sub(sib, cis.Other()));
            sib' == Rotated(j, cis.Other()) && Nodes(j) == Nodes(sib)
    ensures sib'.Node? && !sib'.red && IsRed(Sub(sib', c.side.Other()))
    ensures Accepts(c.(sib := sib'), h + 1)
    ensures Inorder(Plug(c.(sib := sib'), x)) == Inorder(Plug(c, x))
  {
    var cis, sib := c.side, c.sib;
    var j := Join(sib.n, sib.key, true, cis, Sub(sib, cis).(red := false), Sub(sib, cis.Other()));
    sib' := Rotated(j, cis.Other());
    RotatedApart(j, cis.Other());
    PaintedSame(Sub(sib, cis), false, h);
    assert Inorder(j) == Inorder(sib);
    PlugSame(c.up, Join(c.n, c.key, c.red, cis, x, sib'), Join(c.n, c.key, c.red, cis, x, sib));
  }

  /** A black sibling with a red outer child, rotated up: the missing black is made good. */
  lemma {:induction false} OuterRotated(c: Ctx, x: Shape, h: nat) returns (s: Shape)
    requires c.Frame? && c.sib.Node? && !c.sib.red && Accepts(c, h + 1)
    requires Balanced(x, h) && !IsRed(x) && IsRed(Sub(c.sib, c.side.Other()))
    ensures var cis, sib := c.side, c.sib;
            var j := Join(c.n, c.key, false, cis, x,
                          Join(sib.n, sib.key, c.red, cis, Sub(sib, cis), Sub(sib, cis.Other()).(red := false)));
            s == Rotated(j, cis) && CtxNodes(c.up) + Nodes(j) == CtxNodes(c) + Nodes(x)
    ensures Balanced(s, if c.red then h + 1 else h + 2) && Accepts(c.up, if c.red then h + 1 else h + 2)
    ensures IsRed(s) ==> c.up.Frame? && !c.up.red
    ensures Inorder(Plug(c.up, s)) == Inorder(Plug(c, x))
  {
    var cis, sib := c.side, c.sib;
    var j := Join(c.n, c.key, false, cis, x,
                  Join(sib.n, sib.key, c.red, cis, Sub(sib, cis), Sub(sib, cis.Other()).(red := false)));
    s := Rotated(j, cis);
    RotatedApart(j, cis);
    PaintedSame(Sub(sib, cis.Other()), false, h);
    assert Inorder(Sub(j, cis.Other())) == Inorder(sib);
    PlugSame(c.up, s, Join(c.n, c.key, c.red, cis, x, sib));
  }

  /** A black sibling without red children turns red: the deficit moves to the parent. */
  lemma {:induction false} DeficitUp(c: Ctx, x: Shape, h: nat) returns (s: Shape)
    requires c.Frame? && c.sib.Node? && !c.sib.red && Accepts(c, h + 1)
    requires Balanced(x, h) && !IsRed(x) && !IsRed(c.sib.l) && !IsRed(c.sib.r)
    ensures s == Join(c.n, c.key, c.red, c.side, x, c.sib.(red := true))
    ensures Balanced(s.(red := false), h + 1) && Accepts(c.up, if c.red then h + 1 else h + 2)
    ensures Inorder(Plug(c.up, s)) == Inorder(Plug(c, x))
  {
    s := Join(c.n, c.key, c.red, c.side, x, c.sib.(red := true));
    PlugSame(c.up, s, Join(c.n, c.key, c.red, c.side, x, c.sib));
  }

  // ---------- removal: the successor takes the place of an inner node ----------

  /** The context `d` with `base` around it. */
  function Above(d: Ctx, base: Ctx): Ctx {
    if d.Hole? then base else d.(up := Above(d.up, base))
  }

  /** A path that always turns left. */
  ghost predicate LeftSpine(d: Ctx) {
    d.Frame? ==> d.side.Left? && LeftSpine(d.up)
  }

  lemma {:induction false} AboveOrder(d: Ctx, base: Ctx)
    ensures Before(Above(d, base)) == Before(base) + Before(d)
    ensures After(Above(d, base)) == After(d) + After(base)
    ensures CtxNodes(Above(d, base)) == CtxNodes(d) + CtxNodes(base)
  {
    if d.Frame? {
      AboveOrder(d.up, base);
    }
  }

  lemma {:induction false} AboveDistinct(d: Ctx, base: Ctx)
    ensures DistinctCtx(Above(d, base)) <==> DistinctCtx(d) && DistinctCtx(base) && CtxNodes(d) !! CtxNodes(base)
  {
    if d.Frame? {
      AboveDistinct(d.up, base);
      AboveOrder(d.up, base);
    }
  }

  lemma {:induction false} OuterOf(c: Ctx, h: TreeNode?)
    ensures if c.Hole? then Outer(c, h) == h else Outer(c, h) in CtxNodes(c)
  {
    if c.Frame? {
      OuterOf(c.up, c.n);
    }
  }

  lemma {:induction false} PiecesApart(d: Ctx, z: Ctx, x: Shape)
    requires Apart(Above(d, z), x) == true && z.Frame?
    ensures DistinctCtx(d) && DistinctCtx(z) && Distinct(x) && z.n !in CtxNodes(d) && z.n !in Nodes(x)
    ensures CtxNodes(d) !! CtxNodes(z.up) && CtxNodes(d) !! Nodes(z.sib) && CtxNodes(d) !! Nodes(x)
    ensures Nodes(x) !! CtxNodes(z.up) && Nodes(x) !! Nodes(z.sib)
  {
    AboveDistinct(d, z);
    AboveOrder(d, z);
  }

  /** Where the pieces of an inner removal lie apart. */
  lemma {:induction false} InnerApart(d: Ctx, z: Ctx, next: TreeNode, key: nat, red: bool, x: Shape)
    requires Apart(Above(d, z), Node(next, key, red, Leaf, x)) == true && z.Frame?
    ensures DistinctCtx(d) && DistinctCtx(z) && Distinct(x) && z.n != next
    ensures z.n !in CtxNodes(d) && next !in CtxNodes(d) && z.n !in Nodes(x) && next !in Nodes(x)
    ensures next !in Nodes(z.sib) && next !in CtxNodes(z.up)
    ensures CtxNodes(d) !! CtxNodes(z.up) && CtxNodes(d) !! Nodes(z.sib) && CtxNodes(d) !! Nodes(x)
    ensures Nodes(x) !! CtxNodes(z.up) && Nodes(x) !! Nodes(z.sib)
    ensures Apart(Above(d, z.(n := next, key := key)), x) == true
  {
    AboveDistinct(d, z);
    AboveDistinct(d, z.(n := next, key := key));
    AboveOrder(d, z);
    AboveOrder(d, z.(n := next, key := key));
  }

  lemma {:induction false} SpineOrder(d: Ctx)
    requires LeftSpine(d)
    ensures Before(d) == []
  {
    if d.Frame? {
      SpineOrder(d.up);
    }
  }

  /** A spine's outermost frame. */
  lemma {:induction false} SplitBottom(d: Ctx) returns (d': Ctx, f: Ctx)
    requires d.Frame?
    ensures f.Frame? && f.up.Hole? && d == Above(d', f)
    ensures LeftSpine(d) ==> LeftSpine(d') && LeftSpine(f)
  {
    if d.up.Hole? {
      d', f := Hole, d;
    } else {
      d', f := SplitBottom(d.up);
      d' := d.(up := d');
    }
  }

  lemma {:induction false} AboveAccepts(d: Ctx, base: Ctx, base': Ctx, h: nat)
    requires Accepts(Above(d, base), h)
    requires base.Frame? && base'.Frame? && base'.red == base.red && base'.sib == base.sib && base'.up == base.up
    ensures Accepts(Above(d, base'), h)
  {
    if d.Frame? {
      AboveAccepts(d.up, base, base', if d.red then h else h + 1);
    }
  }

  /** Taking the inner node `z` out and putting its successor in its place. */
  lemma {:induction false} SpliceOrder(d: Ctx, z: Ctx, n: TreeNode, key: nat, red: bool, x: Shape)
    requires LeftSpine(d) && z.Frame? && z.side.Right?
    ensures Inorder(Plug(Above(d, z), Node(n, key, red, Leaf, x)))
         == (Before(z.up) + Inorder(z.sib)) + [Entry(z.key, z.n)]
           + ([Entry(key, n)] + Inorder(x) + After(d) + After(z.up))
    ensures Inorder(Plug(Above(d, z.(n := n, key := key)), x))
         == (Before(z.up) + Inorder(z.sib)) + ([Entry(key, n)] + Inorder(x) + After(d) + After(z.up))
  {
    SpineOrder(d);
    var z' := z.(n := n, key := key);
    AboveOrder(d, z);
    AboveOrder(d, z');
    PlugInorder(Above(d, z), Node(n, key, red, Leaf, x));
    PlugInorder(Above(d, z'), x);
    assert Inorder(Node(n, key, red, Leaf, x)) == [Entry(key, n)] + Inorder(x);
    Regroup(Before(z.up), Inorder(z.sib), [Entry(z.key, z.n)], [Entry(key, n)] + Inorder(x), After(d), After(z.up));
    Regroup(Before(z.up), Inorder(z.sib), [Entry(key, n)], Inorder(x), After(d), After(z.up));
  }

  lemma {:induction false} Regroup(a: seq<Entry>, l: seq<Entry>, e: seq<Entry>, x: seq<Entry>, d: seq<Entry>,
          u: seq<Entry>)
    ensures (a + (l + e) + []) + x + (d + u) == (a + l) + e + (x + d + u)
    ensures (a + (l + e) + []) + x + (d + u) == (a + l) + (e + x + d + u)
  {
  }

  lemma {:induction false} DictRemove(a: seq<Entry>, e: Entry, b: seq<Entry>)
    requires Sorted(a + [e] + b)
    ensures Sorted(a + b)
    ensures Dict(a + b) == Dict(a + [e] + b) - {e.key}
  {
    DictInsert(a, e, b);
    DictAbsent(a, e, b);
    assert forall i :: 0 <= i < |a + b| ==> (a + b)[i] == (a + [e] + b)[if i < |a| then i else i + 1];
  }

  lemma {:induction false} Locate(c: Ctx, s: Shape, node: TreeNode) returns (c': Ctx, s': Shape)
    requires node in Nodes(s)
    ensures Plug(c', s') == Plug(c, s) && s'.Node? && s'.n == node
    decreases s
  {
    if s.n == node {
      c', s' := c, s;
    } else if node in Nodes(s.l) {
      c', s' := Locate(Frame(s.n, s.key, s.red, Left, s.r, c), s.l, node);
    } else {
      c', s' := Locate(Frame(s.n, s.key, s.red, Right, s.l, c), s.r, node);
    }
  }

  /** Balance once a node of colour `red` is gone and `x` is in its place. */
  ghost predicate Gone(c: Ctx, x: Shape, red: bool, h: nat) {
    && Balanced(x, h)
    && (if red then !IsRed(x) && Accepts(c, h) else Accepts(c, h + 1))
  }

  /** Contents once the entry of `key` is gone. */
  ghost predicate Without(w: seq<Entry>, key: nat, w': seq<Entry>) {
    Sorted(w') && Dict(w') == Dict(w) - {key}
  }

  /** Removing a node with at most one child `x`. */
  lemma {:induction false} OuterGone(c: Ctx, s: Shape, x: Shape) returns (h: nat)
    requires RedBlack(Plug(c, s)) && s.Node?
    requires (s.l == Leaf && x == s.r) || (s.r == Leaf && x == s.l)
    ensures Gone(c, x, s.red, h)
    ensures Without(Inorder(Plug(c, s)), s.key, Inorder(Plug(c, x)))
  {
    var h0: nat :| Balanced(Plug(c, s), h0);
    h := UnplugBalanced(c, s, h0);
    h := if s.red then h else h - 1;
    var a, b := OuterOrder(c, s, x);
    RemoveAt(a, Entry(s.key, s.n), b, Inorder(Plug(c, s)), Inorder(Plug(c, x)));
  }

  lemma {:induction false} OuterOrder(c: Ctx, s: Shape, x: Shape) returns (a: seq<Entry>, b: seq<Entry>)
    requires s.Node? && ((s.l == Leaf && x == s.r) || (s.r == Leaf && x == s.l))
    ensures Inorder(Plug(c, s)) == a + [Entry(s.key, s.n)] + b && Inorder(Plug(c, x)) == a + b
  {
    PlugInorder(c, s);
    PlugInorder(c, x);
    if s.l == Leaf {
      a, b := Before(c), Inorder(x) + After(c);
    } else {
      a, b := Before(c) + Inorder(x), After(c);
    }
  }

  lemma {:induction false} OuterNodes(c: Ctx, s: Shape, x: Shape)
    requires RedBlack(Plug(c, s)) && s.Node?
    requires (s.l == Leaf && x == s.r) || (s.r == Leaf && x == s.l)
    ensures CtxNodes(c) + Nodes(x) == Nodes(Plug(c, s)) - {s.n}
  {
    PlugNodes(c, s);
    PlugDistinct(c, s);
  }

  lemma {:induction false} RemoveAt(a: seq<Entry>, e: Entry, b: seq<Entry>, w: seq<Entry>, w': seq<Entry>)
    requires Sorted(w) && w == a + [e] + b && w' == a + b
    ensures Without(w, e.key, w')
  {
    DictRemove(a, e, b);
  }

  /** Removing a node with two children: its successor `next` moves into its place. */
  lemma {:induction false} InnerGone(d: Ctx, z: Ctx, next: TreeNode, key: nat, red: bool, x: Shape) returns (h: nat)
    requires RedBlack(Plug(Above(d, z), Node(next, key, red, Leaf, x)))
    requires LeftSpine(d) && z.Frame? && z.side.Right?
    ensures Gone(Above(d, z.(n := next, key := key)), x, red, h)
    ensures Without(Inorder(Plug(Above(d, z), Node(next, key, red, Leaf, x))), z.key,
                    Inorder(Plug(Above(d, z.(n := next, key := key)), x)))
  {
    var s, z' := Node(next, key, red, Leaf, x), z.(n := next, key := key);
    var h0: nat :| Balanced(Plug(Above(d, z), s), h0);
    h := UnplugBalanced(Above(d, z), s, h0);
    AboveAccepts(d, z, z', h);
    h := if red then h else h - 1;
    SpliceOrder(d, z, next, key, red, x);
    RemoveAt(Before(z.up) + Inorder(z.sib), Entry(z.key, z.n), [Entry(key, next)] + Inorder(x) + After(d) + After(z.up),
             Inorder(Plug(Above(d, z), s)), Inorder(Plug(Above(d, z'), x)));
  }

  lemma {:induction false} InnerNodes(d: Ctx, z: Ctx, next: TreeNode, key: nat, red: bool, x: Shape)
    requires RedBlack(Plug(Above(d, z), Node(next, key, red, Leaf, x))) && z.Frame?
    ensures CtxNodes(Above(d, z.(n := next, key := key))) + Nodes(x)
         == Nodes(Plug(Above(d, z), Node(next, key, red, Leaf, x))) - {z.n}
  {
    var s := Node(next, key, red, Leaf, x);
    PlugNodes(Above(d, z), s);
    PlugDistinct(Above(d, z), s);
    InnerApart(d, z, next, key, red, x);
    AboveOrder(d, z);
    AboveOrder(d, z.(n := next, key := key));
    AboveDistinct(d, z);
  }

  // ---------- size against height: the cost of a search ----------

  function Pow2(n: nat): (p: nat)
    ensures p > 0
  {
    if n == 0 then 1 else 2 * Pow2(n - 1)
  }

  /** The longest path from the root, in nodes. */
  function Depth(s: Shape): nat {
    match s
    case Leaf => 0
    case Node(_, _, _, l, r) => 1 + if Depth(l) < Depth(r) then Depth(r) else Depth(l)
  }

  lemma {:induction false} BalancedSize(s: Shape, h: nat)
    requires Balanced(s, h)
    ensures Pow2(h) <= |Inorder(s)| + 1
    ensures Depth(s) <= 2 * h + if IsRed(s) then 1 else 0
  {
    if s.Node? {
      var h' := if s.red then h else h - 1;
      BalancedSize(s.l, h');
      BalancedSize(s.r, h');
    }
  }

  /** Base-2 logarithm, rounded down. */
  function Log2(n: nat): nat {
    if n < 2 then 0 else 1 + Log2(n / 2)
  }

  lemma {:induction false} Log2Bound(h: nat, n: nat)
    requires Pow2(h) <= n
    ensures h <= Log2(n)
  {
    if h > 0 {
      Log2Bound(h - 1, n / 2);
    }
  }

  /** The nodes looked at on the way down, the focus included, are at most `Depth`. */
  lemma {:induction false} PathDepth(c: Ctx, s: Shape, w: Shape)
    requires Plug(c, s) == w
    ensures Length(c) + (if s.Node? then 1 else 0) <= Depth(w)
  {
    PlugDepth(c, s);
    assert s.Node? ==> Depth(s) >= 1;
  }

  lemma {:induction false} PlugDepth(c: Ctx, s: Shape)
    ensures Length(c) + Depth(s) <= Depth(Plug(c, s))
    decreases c
  {
    if c.Frame? {
      PlugDepth(c.up, Join(c.n, c.key, c.red, c.side, s, c.sib));
    }
  }

  /** No path of a red-black tree with n keys is longer than 2 log2(n + 1). */
  lemma {:induction false} DepthBound(w: Shape)
    requires RedBlack(w)
    ensures Depth(w) <= 2 * Log2(|Dict(Inorder(w))| + 1)
  {
    var h: nat :| Balanced(w, h);
    BalancedSize(w, h);
    Log2Bound(h, |Inorder(w)| + 1);
    DictSize(Inorder(w));
  }
}
