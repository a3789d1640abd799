/** wepoll's intrusive circular queue.  A queue is a head node; every node is always on
    exactly one ring, alone if it is on no queue.  `Ring(c)` says that the link fields of
    the nodes of `c`, starting at a head, close up into that circle. */
module Queue {

  /** `queue_node_t` */
  class QueueNode {
    var prev: QueueNode
    var next: QueueNode

    /** `queue_node_init`, and `queue_init` for a head */
    constructor ()
      ensures Ring([this])
    {
      prev, next := this, this;
    }
  }

  function Succ(i: nat, n: nat): nat
    requires i < n
  {
    if i + 1 == n then 0 else i + 1
  }

  ghost predicate Distinct(c: seq<QueueNode>) {
    forall i, j :: 0 <= i < j < |c| ==> c[i] != c[j]
  }

  /** The `i`-th node and its successor on the circle point at each other. */
  ghost predicate Linked(c: seq<QueueNode>, i: nat)
    requires i < |c|
    reads c
  {
    c[i].next == c[Succ(i, |c|)] && c[Succ(i, |c|)].prev == c[i]
  }

  ghost predicate Ring(c: seq<QueueNode>)
    reads c
  {
    |c| > 0 && Distinct(c) && forall i :: 0 <= i < |c| ==> Linked(c, i)
  }

  /** `queue_is_enqueued` */
  method IsEnqueued(node: QueueNode, ghost c: seq<QueueNode>) returns (r: bool)
    requires Ring(c) && node in c
    ensures r <==> |c| > 1
  {
    r := node.prev != node;
    ghost var i :| 0 <= i < |c| && c[i] == node;
    assert Linked(c, if i == 0 then |c| - 1 else i - 1);
  }

  /** `queue_is_empty` */
  method IsEmpty(head: QueueNode, ghost s: seq<QueueNode>) returns (r: bool)
    requires Ring([head] + s)
    ensures r <==> s == []
  {
    var e := IsEnqueued(head, [head] + s);
    r := !e;
  }

  /** `queue_first` */
  method First(head: QueueNode, ghost s: seq<QueueNode>) returns (node: QueueNode?)
    requires Ring([head] + s)
    ensures node == if s == [] then null else s[0]
  {
    var empty := IsEmpty(head, s);
    node := if empty then null else head.next;
    assert Linked([head] + s, 0);
  }

  /** `queue_last` */
  method Last(head: QueueNode, ghost s: seq<QueueNode>) returns (node: QueueNode?)
    requires Ring([head] + s)
    ensures node == if s == [] then null else s[|s| - 1]
  {
    var empty := IsEmpty(head, s);
    node := if empty then null else head.prev;
    assert Linked([head] + s, |s|);
  }

  /** `queue_prepend` */
  method Prepend(head: QueueNode, node: QueueNode, ghost s: seq<QueueNode>)
    requires Ring([head] + s) && node !in [head] + s
    modifies [head] + s, node
    ensures Ring([head] + ([node] + s))
  {
    ghost var c, c' := [head] + s, [head] + ([node] + s);
    assert Linked(c, 0);
    assert Distinct(c') by {
      assert forall i :: 1 < i < |c'| ==> c'[i] == c[i - 1] && c[i - 1] in c;
    }
    node.next := head.next;
    node.prev := head;
    node.next.prev := node;
    head.next := node;
    forall i | 0 <= i < |c'|
      ensures Linked(c', i)
    {
      assert i > 1 ==> old(Linked(c, i - 1));
    }
  }

  /** `queue_append` */
  method Append(head: QueueNode, node: QueueNode, ghost s: seq<QueueNode>)
    requires Ring([head] + s) && node !in [head] + s
    modifies [head] + s, node
    ensures Ring([head] + (s + [node]))
  {
    ghost var c, c' := [head] + s, [head] + (s + [node]);
    assert Linked(c, |s|);
    assert Distinct(c') by {
      assert forall i :: 0 <= i < |c| ==> c'[i] == c[i] && c[i] in c;
    }
    node.next := head;
    node.prev := head.prev;
    node.prev.next := node;
    head.prev := node;
    forall i | 0 <= i < |c'|
      ensures Linked(c', i)
    {
      assert i < |s| ==> old(Linked(c, i));
    }
  }

  function Without<T>(c: seq<T>, k: nat): seq<T>
    requires k < |c|
  {
    c[..k] + c[k + 1..]
  }

  /** `queue__detach_node`: the ring closes up behind the node. */
  method Detach(node: QueueNode, ghost c: seq<QueueNode>, ghost k: nat)
    requires Ring(c) && 0 < k < |c| && c[k] == node
    modifies c
    ensures Ring(Without(c, k))
  {
    ghost var c' := Without(c, k);
    assert Linked(c, k - 1) && Linked(c, k);
    node.prev.next := node.next;
    node.next.prev := node.prev;
    forall i | 0 <= i < |c'|
      ensures Linked(c', i)
    {
      assert i < k - 1 ==> old(Linked(c, i));
      assert i >= k ==> old(Linked(c, i + 1));
    }
  }

  /** `queue_remove`: the node ends up on a ring of its own. */
  method Remove(node: QueueNode, ghost c: seq<QueueNode>, ghost k: nat)
    requires Ring(c) && 0 < k < |c| && c[k] == node
    modifies c
    ensures Ring(Without(c, k)) && Ring([node])
  {
    Detach(node, c, k);
    node.prev, node.next := node, node;
  }

  /** `queue_move_to_start` */
  method MoveToStart(head: QueueNode, node: QueueNode, ghost s: seq<QueueNode>, ghost k: nat)
    requires Ring([head] + s) && k < |s| && s[k] == node
    modifies [head] + s
    ensures Ring([head] + ([node] + Without(s, k)))
  {
    assert Without([head] + s, k + 1) == [head] + Without(s, k);
    Detach(node, [head] + s, k + 1);
    Prepend(head, node, Without(s, k));
  }

  /** `queue_move_to_end` */
  method MoveToEnd(head: QueueNode, node: QueueNode, ghost s: seq<QueueNode>, ghost k: nat)
    requires Ring([head] + s) && k < |s| && s[k] == node
    modifies [head] + s
    ensures Ring([head] + (Without(s, k) + [node]))
  {
    assert Without([head] + s, k + 1) == [head] + Without(s, k);
    Detach(node, [head] + s, k + 1);
    Append(head, node, Without(s, k));
  }

  // ---------- one link field, two queues ----------

  /** `s` without its first `x`. */
  function Minus<T(==)>(s: seq<T>, x: T): seq<T> {
    if s == [] then [] else if s[0] == x then s[1..] else [s[0]] + Minus(s[1..], x)
  }

  lemma {:induction false} MinusAt<T>(s: seq<T>, k: nat)
    requires k < |s| && forall i :: 0 <= i < k ==> s[i] != s[k]
    ensures Minus(s, s[k]) == Without(s, k)
  {
    if k > 0 {
      MinusAt(s[1..], k - 1);
      assert s[1..][k - 1] == s[k];
      assert Without(s, k) == [s[0]] + Without(s[1..], k - 1);
    } else {
      assert Without(s, 0) == s[1..];
    }
  }

  lemma {:induction false} MinusIn<T>(s: seq<T>, x: T, y: T)
    requires y in Minus(s, x)
    ensures y in s
  {
    if s != [] && s[0] != x && s[0] != y {
      MinusIn(s[1..], x, y);
    }
  }

  lemma {:induction false} MinusKeeps<T>(s: seq<T>, x: T, y: T)
    requires y in s && y != x
    ensures y in Minus(s, x)
  {
    if s[0] != x && s[0] != y {
      MinusKeeps(s[1..], x, y);
    }
  }

  lemma {:induction false} MinusAbsent<T>(s: seq<T>, x: T)
    requires x !in s
    ensures Minus(s, x) == s
  {
    if s != [] {
      MinusAbsent(s[1..], x);
    }
  }

  /** Two queues and the nodes that are on neither. */
  ghost predicate Queues(h1: QueueNode, s1: seq<QueueNode>, h2: QueueNode, s2: seq<QueueNode>, live: set<QueueNode>)
    reads h1, h2, live
  {
    && h1 != h2 && h1 !in live && h2 !in live
    && (forall x :: x in s1 ==> x in live && x !in s2) && (forall x :: x in s2 ==> x in live)
    && Ring([h1] + s1) && Ring([h2] + s2)
    && (forall x :: x in live && x !in s1 && x !in s2 ==> Ring([x]))
  }

  /** `queue_append` of a node that is on neither queue. */
  method Enter(x: QueueNode, h1: QueueNode, ghost s1: seq<QueueNode>,
               ghost h2: QueueNode, ghost s2: seq<QueueNode>, ghost live: set<QueueNode>)
    requires Queues(h1, s1, h2, s2, live) && x in live && x !in s1 && x !in s2
    modifies h1, live
    ensures Queues(h1, s1 + [x], h2, s2, live)
  {
    ghost var c := [h2] + s2;
    assert forall i :: 0 <= i < |c| ==> c[i] != x && c[i] !in [h1] + s1;
    Append(h1, x, s1);
    assert Ring(c);
  }

  /** `queue_remove` of a node of the first queue. */
  method Leave(x: QueueNode, ghost h1: QueueNode, ghost s1: seq<QueueNode>,
               ghost h2: QueueNode, ghost s2: seq<QueueNode>, ghost live: set<QueueNode>)
    requires Queues(h1, s1, h2, s2, live) && x in s1
    modifies h1, live
    ensures Queues(h1, Minus(s1, x), h2, s2, live)
  {
    ghost var c := [h2] + s2;
    assert forall i :: 0 <= i < |c| ==> c[i] !in [h1] + s1;
    TakeOff(x, h1, s1);
    assert Ring(c);
    forall y | y in live && y !in Minus(s1, x) && y !in s2
      ensures Ring([y])
    {
      if y in s1 && y != x {
        MinusKeeps(s1, x, y);
      }
      assert y != x ==> y !in [h1] + s1;
    }
    forall y | y in Minus(s1, x)
      ensures y in live && y !in s2
    {
      MinusIn(s1, x, y);
    }
  }

  method LeaveEither(x: QueueNode, ghost h1: QueueNode, ghost s1: seq<QueueNode>,
                     ghost h2: QueueNode, ghost s2: seq<QueueNode>, ghost live: set<QueueNode>)
    requires Queues(h1, s1, h2, s2, live) && (x in s1 || x in s2)
    modifies h1, h2, live
    ensures Queues(h1, Minus(s1, x), h2, Minus(s2, x), live)
  {
    ghost var q, s, q', s' := h1, s1, h2, s2;
    if x !in s1 {
      q, s, q', s' := h2, s2, h1, s1;
    }
    MinusAbsent(s', x);
    Leave(x, q, s, q', s', live);
  }

  /** A port's update queue and deleted queue.  A socket has a single `queue_node`, so it is
      on at most one of them, and `queue_is_enqueued` does not say which. */
  class SockQueues {
    const update: QueueNode
    const deleted: QueueNode
    ghost var u: seq<QueueNode>
    ghost var d: seq<QueueNode>
    /** the queue nodes of all live sockets */
    ghost var live: set<QueueNode>

    ghost predicate Valid()
      reads this, update, deleted, live
    {
      Queues(update, u, deleted, d, live)
    }

    constructor ()
      ensures Valid() && u == [] && d == [] && live == {} && fresh(update) && fresh(deleted)
    {
      update := new QueueNode();
      deleted := new QueueNode();
      u, d, live := [], [], {};
      new;
      assert [update] + u == [update] && [deleted] + d == [deleted];
    }

    /** The circle that `x` is on. */
    ghost function RingOf(x: QueueNode): seq<QueueNode>
      reads this
    {
      if x in u then [update] + u else if x in d then [deleted] + d else [x]
    }

    method OnQueue(x: QueueNode) returns (r: bool)
      requires Valid() && x in live
      ensures r <==> x in u || x in d
    {
      r := IsEnqueued(x, RingOf(x));
    }

    /** `port_request_socket_update` */
    method RequestUpdate(x: QueueNode)
      requires Valid() && x in live
      modifies this`u, update, deleted, live
      ensures Valid()
      ensures u == if x in old(u) || x in old(d) then old(u) else old(u) + [x]
    {
      var on := OnQueue(x);
      if on {
        return;
      }
      Enter(x, update, u, deleted, d, live);
      u := u + [x];
    }

    /** `port_add_deleted_socket` */
    method AddDeleted(x: QueueNode)
      requires Valid() && x in live
      modifies this`d, update, deleted, live
      ensures Valid()
      ensures d == if x in old(u) || x in old(d) then old(d) else old(d) + [x]
    {
      var on := OnQueue(x);
      if on {
        return;
      }
      Enter(x, deleted, d, update, u, live);
      d := d + [x];
    }

    /** `port_cancel_socket_update` and `port_remove_deleted_socket`: both take the node off
        whichever queue it is on. */
    method Dequeue(x: QueueNode)
      requires Valid() && x in live
      modifies this`u, this`d, update, deleted, live
      ensures Valid()
      ensures u == Minus(old(u), x) && d == Minus(old(d), x)
    {
      var on := OnQueue(x);
      if !on {
        MinusAbsent(u, x);
        MinusAbsent(d, x);
        return;
      }
      LeaveEither(x, update, u, deleted, d, live);
      u, d := Minus(u, x), Minus(d, x);
    }
  }

  /** `queue_remove` of a node of the queue `s`. */
  method TakeOff(x: QueueNode, ghost head: QueueNode, ghost s: seq<QueueNode>)
    requires Ring([head] + s) && x in s
    modifies [head] + s
    ensures Ring([head] + Minus(s, x)) && Ring([x])
  {
    ghost var k := Position([head] + s, x);
    MinusRing([head] + s, k);
    assert ([head] + s)[1..] == s;
    Remove(x, [head] + s, k);
  }

  lemma {:induction false} Position(c: seq<QueueNode>, x: QueueNode) returns (k: nat)
    requires |c| > 1 && x in c[1..] && Distinct(c)
    ensures 0 < k < |c| && c[k] == x
  {
    var i :| 0 <= i < |c[1..]| && c[1..][i] == x;
    k := i + 1;
  }

  /** Dropping a queue's node from the circle that starts at the head. */
  lemma {:induction false} MinusRing(c: seq<QueueNode>, k: nat)
    requires Distinct(c) && 0 < k < |c|
    ensures Without(c, k) == [c[0]] + Minus(c[1..], c[k])
  {
    assert c[1..][k - 1] == c[k];
    MinusAt(c[1..], k - 1);
    assert Without(c, k) == [c[0]] + Without(c[1..], k - 1);
  }
}
