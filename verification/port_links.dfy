/** A port's tree and queues as they are: every socket has one tree node and one queue node in it.

    `EpollPort` keeps a map and two sequences; here the operations on the pointer structures are proved to do to
    that map and those sequences what `EpollPort` does to them. */
module PortLinks {
  import opened Queue
  import opened RedBlackTree
  import opened TreeShape

  /** The nodes inside a `sock_state_t`; `container_of` leads back from either. */
  class SockNodes {
    const queueNode: QueueNode
    const treeNode: TreeNode

    constructor ()
      ensures fresh(queueNode) && fresh(treeNode) && Ring([queueNode])
    {
      queueNode := new QueueNode();
      treeNode := new TreeNode();
      new;
    }
  }

  ghost function QueueNodes(l: seq<SockNodes>): (q: seq<QueueNode>)
    ensures |q| == |l| && forall i :: 0 <= i < |l| ==> q[i] == l[i].queueNode
  {
    seq(|l|, i requires 0 <= i < |l| => l[i].queueNode)
  }

  ghost function TreeNodes(m: map<nat, SockNodes>): map<nat, TreeNode> {
    map k | k in m :: m[k].treeNode
  }

  /** Different sockets have different nodes. */
  ghost predicate Separate(socks: set<SockNodes>) {
    forall s, s' | s in socks && s' in socks && s != s' :: s.queueNode != s'.queueNode && s.treeNode != s'.treeNode
  }

  lemma {:induction false} InQueue(l: seq<SockNodes>, socks: set<SockNodes>, s: SockNodes)
    requires Separate(socks) && s in socks && forall x | x in l :: x in socks
    ensures s.queueNode in QueueNodes(l) <==> s in l
  {
    if s in l {
      var i :| 0 <= i < |l| && l[i] == s;
      assert QueueNodes(l)[i] == s.queueNode;
    }
  }

  lemma {:induction false} InQueueNot(l: seq<SockNodes>, s: SockNodes)
    requires forall x | x in l :: x.queueNode != s.queueNode
    ensures s.queueNode !in QueueNodes(l)
  {
    assert forall i :: 0 <= i < |l| ==> l[i] in l;
  }

  /** Taking a socket off a queue is taking its node off. */
  lemma {:induction false} MinusNodes(l: seq<SockNodes>, socks: set<SockNodes>, s: SockNodes)
    requires Separate(socks) && s in socks && forall x | x in l :: x in socks
    ensures QueueNodes(Minus(l, s)) == Minus(QueueNodes(l), s.queueNode)
  {
    if l != [] {
      assert QueueNodes(l)[1..] == QueueNodes(l[1..]);
      assert l[0] in l && forall x | x in l[1..] :: x in l;
      MinusNodes(l[1..], socks, s);
      if l[0] != s {
        assert QueueNodes([l[0]] + Minus(l[1..], s)) == [l[0].queueNode] + QueueNodes(Minus(l[1..], s));
      }
    }
  }

  lemma {:induction false} MinusStays(l: seq<SockNodes>, socks: set<SockNodes>, s: SockNodes)
    requires forall x | x in l :: x in socks
    ensures forall x | x in Minus(l, s) :: x in socks
  {
    forall x | x in Minus(l, s)
      ensures x in socks
    {
      MinusIn(l, s, x);
    }
  }

  class Links {
    const tree: Tree
    const queues: SockQueues
    ghost var socks: set<SockNodes>
    ghost var registered: map<nat, SockNodes>
    ghost var updates: seq<SockNodes>
    ghost var deleted: seq<SockNodes>

    ghost predicate QueuesOk()
      reads this, queues, queues.update, queues.deleted, queues.live
    {
      && queues.Valid() && queues.live == (set s | s in socks :: s.queueNode)
      && queues.u == QueueNodes(updates) && queues.d == QueueNodes(deleted)
      && Separate(socks) && (forall s | s in updates :: s in socks) && (forall s | s in deleted :: s in socks)
    }

    ghost predicate TreeOk()
      reads this, tree, Nodes(tree.shape)
    {
      && tree.Valid() && tree.Contents() == TreeNodes(registered)
      && Separate(socks) && forall k | k in registered :: registered[k] in socks
    }

    /** No socket, empty queues, empty tree */
    constructor ()
      ensures QueuesOk() && TreeOk() && socks == {} && registered == map[] && updates == deleted == []
      ensures fresh(tree) && fresh(queues) && fresh(queues.update) && fresh(queues.deleted)
    {
      tree := new Tree();
      queues := new SockQueues();
      socks, registered, updates, deleted := {}, map[], [], [];
    }

    /** A socket that was just made: `queue_node_init`, `tree_node_init` */
    ghost method Adopt(s: SockNodes)
      requires QueuesOk() && TreeOk() && s !in socks && Ring([s.queueNode])
      requires s.queueNode != queues.update && s.queueNode != queues.deleted
      requires forall x | x in socks :: x.queueNode != s.queueNode && x.treeNode != s.treeNode
      modifies this`socks, queues`live
      ensures QueuesOk() && TreeOk() && socks == old(socks) + {s}
    {
      InQueueNot(updates, s);
      InQueueNot(deleted, s);
      socks := socks + {s};
      queues.live := queues.live + {s.queueNode};
    }

    /** `port_request_socket_update` */
    method RequestUpdate(s: SockNodes)
      requires QueuesOk() && s in socks
      modifies this`updates, queues`u, queues.update, queues.deleted, queues.live
      ensures QueuesOk()
      ensures updates == if s in old(updates) || s in old(deleted) then old(updates) else old(updates) + [s]
    {
      InQueue(updates, socks, s);
      InQueue(deleted, socks, s);
      ghost var on := s in updates || s in deleted;
      queues.RequestUpdate(s.queueNode);
      if !on {
        updates := updates + [s];
      }
    }

    /** `port_add_deleted_socket` */
    method AddDeleted(s: SockNodes)
      requires QueuesOk() && s in socks
      modifies this`deleted, queues`d, queues.update, queues.deleted, queues.live
      ensures QueuesOk()
      ensures deleted == if s in old(updates) || s in old(deleted) then old(deleted) else old(deleted) + [s]
    {
      InQueue(updates, socks, s);
      InQueue(deleted, socks, s);
      ghost var on := s in updates || s in deleted;
      queues.AddDeleted(s.queueNode);
      if !on {
        deleted := deleted + [s];
      }
    }

    /** `port_cancel_socket_update`, `port_remove_deleted_socket` */
    method OffQueues(s: SockNodes)
      requires QueuesOk() && s in socks
      modifies this`updates, this`deleted, queues`u, queues`d, queues.update, queues.deleted, queues.live
      ensures QueuesOk()
      ensures updates == Minus(old(updates), s) && deleted == Minus(old(deleted), s)
    {
      MinusNodes(updates, socks, s);
      MinusNodes(deleted, socks, s);
      MinusStays(updates, socks, s);
      MinusStays(deleted, socks, s);
      queues.Dequeue(s.queueNode);
      updates, deleted := Minus(updates, s), Minus(deleted, s);
    }

    /** `port_register_socket` */
    method Register(s: SockNodes, key: nat) returns (r: int)
      requires TreeOk() && s in socks && forall k | k in registered :: registered[k] != s
      modifies this`registered, tree, Nodes(tree.shape), s.treeNode
      ensures TreeOk()
      ensures r == if key in old(registered) then -1 else 0
      ensures registered == if r == 0 then old(registered)[key := s] else old(registered)
    {
      hide Ok, RedBlack, Dict, Inorder, Separate;
      Unregistered(s);
      assert TreeNodes(registered[key := s]) == TreeNodes(registered)[key := s.treeNode];
      r := tree.Add(s.treeNode, key);
      if r == 0 {
        registered := registered[key := s];
      }
    }

    /** `port_unregister_socket` */
    method Unregister(s: SockNodes, ghost key: nat)
      requires TreeOk() && key in registered && registered[key] == s
      modifies this`registered, tree, Nodes(tree.shape)
      ensures TreeOk() && registered == old(registered) - {key}
    {
      hide Ok, RedBlack, Dict, Inorder, Separate;
      tree.KeyOf(key, s.treeNode);
      assert TreeNodes(registered - {key}) == TreeNodes(registered) - {key};
      tree.Delete(s.treeNode);
      registered := registered - {key};
    }

    /** `port_find_socket`, up to `container_of` */
    method Find(key: nat) returns (node: TreeNode?)
      requires TreeOk()
      ensures node != null <==> key in registered
      ensures node != null ==> node == registered[key].treeNode
    {
      ghost var visited;
      node, visited := tree.Find(key);
    }

    /** The node of a socket that is not registered is not in the tree. */
    lemma {:induction false} Unregistered(s: SockNodes)
      requires TreeOk() && s in socks && forall k | k in registered :: registered[k] != s
      ensures s.treeNode !in Nodes(tree.shape)
    {
      if s.treeNode in Nodes(tree.shape) {
        InorderNodes(tree.shape);
        var e :| e in Inorder(tree.shape) && e.node == s.treeNode;
        DictHas(Inorder(tree.shape), e);
      }
    }
  }
}
