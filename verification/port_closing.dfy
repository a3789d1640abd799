/** Deleting a port: sockets are freed whether or not their requests have completed; what becomes of those requests
    is up to the system, which has lost the port to report them to. */
module PortClosing {
  import opened Queue
  import opened PortModel
  import opened PortInvariant

  /** A live socket is registered, or in the deleted queue. */
  ghost predicate Placed(p: Port, s: SockState)
    requires s in p.socks
  {
    if p.socks[s].deletePending then s in p.deleted && s !in p.updates
    else s !in p.deleted && p.socks[s].key in p.tree && p.tree[p.socks[s].key] == s
  }

  /** What is left of the invariant once sockets are freed without regard to their requests. */
  ghost predicate Closing(p: Port) {
    Links(p) && SlotsOk(p) && forall s | s in p.socks :: Placed(p, s)
  }

  /** Deletion can begin in any state of a port. */
  lemma {:induction false} CanClose(p: Port)
    requires Inv(p) == true
    ensures Closing(p) == true
  {
    hide Links, SlotsOk;
    forall s | s in p.socks
      ensures Placed(p, s)
    {
      assert SockOk(p, s);
    }
  }

  lemma {:induction false} UnregisterLinks(p: Port, s: SockState, cancels: bool)
    requires Links(p) == true && s in p.socks
    ensures Links(Unregister(p, s, cancels)) == true
  {
    hide RefsOk;
    var p0 := Put(p, s, Withdrawn(p.socks[s], cancels));
    PutRefs(p, s, Withdrawn(p.socks[s], cancels));
    OffQueuesRefs(p0, s);
    MinusOnce(p.updates, s);
    MinusOnce(p.deleted, s);
    LeaveTreeRefs(OffQueues(p0, s), s);
    UnregisterIs(p, s, cancels);
  }

  lemma {:induction false} UnregisterSlots(p: Port, s: SockState, cancels: bool)
    requires SlotsOk(p) == true && s in p.socks
    ensures SlotsOk(Unregister(p, s, cancels)) == true
  {
    SlotsSame(p, Unregister(p, s, cancels));
  }

  /** Out of the tree and off the queues; every other socket stays where it is. */
  lemma {:induction false} UnregisterOthers(p: Port, s: SockState, cancels: bool)
    requires Closing(p) == true && s in p.socks && !p.socks[s].deletePending
    ensures var q := Unregister(p, s, cancels);
            && q.socks.Keys == p.socks.Keys && q.socks[s].deletePending
            && forall x | x in p.socks && x != s :: Placed(q, x)
  {
    forall x | x in p.socks && x != s
      ensures Placed(Unregister(p, s, cancels), x)
    {
      UnregisterOther(p, s, cancels, x);
    }
  }

  lemma {:induction false} UnregisterOther(p: Port, s: SockState, cancels: bool, x: SockState)
    requires Links(p) == true && s in p.socks && x in p.socks && x != s && Placed(p, x)
    requires p.socks[s].key in p.tree && p.tree[p.socks[s].key] == s
    ensures Placed(Unregister(p, s, cancels), x)
  {
    MinusOnce(p.updates, s);
    MinusOnce(p.deleted, s);
  }

  lemma {:induction false} FreeClosing(p: Port, s: SockState)
    requires Links(p) == true && SlotsOk(p) == true
    requires s in p.socks && p.socks[s].deletePending
    requires forall x | x in p.socks && x != s :: Placed(p, x)
    ensures Closing(Free(p, s)) == true && Free(p, s).socks == p.socks - {s}
  {
    hide RefsOk, SlotsOk, Release;
    FreeLinks(p, s);
    FreeSlots(p, s);
    MinusOnce(p.updates, s);
    MinusOnce(p.deleted, s);
  }

  /** `sock_force_delete` frees the socket, and only that. */
  lemma {:induction false} ForceKeeps(p: Port, s: SockState, cancels: bool)
    requires Closing(p) == true && s in p.socks
    ensures var q := Delete(p, s, true, cancels);
            Closing(q) == true && q.socks.Keys == p.socks.Keys - {s}
  {
    var p1 := p;
    if !p.socks[s].deletePending {
      p1 := Unregister(p, s, cancels);
      UnregisterLinks(p, s, cancels);
      UnregisterSlots(p, s, cancels);
      UnregisterOthers(p, s, cancels);
    }
    FreeClosing(p1, s);
  }

  lemma {:induction false} FirstIn<T>(s: seq<T>, m: set<T>)
    requires forall x | x in s :: x in m
    ensures s == [] || m != {}
  {
    if s != [] {
      assert s[0] in m;
    }
  }

  /** Once the tree and the deleted queue are empty, so is everything else, and no group is in use. */
  lemma {:induction false} NothingLeft(p: Port)
    requires Closing(p) && p.tree == map[] && p.deleted == []
    ensures p.socks == map[] && p.updates == []
    ensures forall x | x in p.groups.order :: x.size == 0
  {
    assert p.socks.Keys == {};
    FirstIn(p.updates, p.socks.Keys);
    forall x | x in p.groups.order
      ensures x.size == 0
    {
      assert Members(p, x.group) == {};
    }
  }
}
