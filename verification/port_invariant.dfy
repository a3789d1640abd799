/** What every operation on a port keeps true. */
module PortInvariant {
  import opened Basics
  import opened Queue
  import opened PortModel

  ghost predicate Once<T>(s: seq<T>) {
    forall x | x in s :: multiset(s)[x] == 1
  }

  function Tokens(p: Port, s: SockState): nat {
    p.kernel[s] + p.fetched[s]
  }

  /** One request is outstanding, or none if the socket is idle; once the completion port has been closed, the
      request may also have been lost. */
  predicate Outstanding(p: Port, s: SockState)
    requires s in p.socks
  {
    Tokens(p, s) == (if p.socks[s].status.Idle? then 0 else 1) || (!p.open && Tokens(p, s) == 0)
  }

  /** A live socket: it is either registered under its key, or waiting in the deleted queue for
      its request to complete; it has its one outstanding request unless it is idle; and if
      it is registered, then what its user asked for is being monitored, or it is due for an
      update, or an update will follow because its request has been cancelled. */
  ghost predicate SockOk(p: Port, s: SockState)
    requires s in p.socks
  {
    var r := p.socks[s];
    && Outstanding(p, s)
    && (if r.deletePending then s in p.deleted && s !in p.updates && !r.status.Idle?
        else s !in p.deleted && r.key in p.tree && p.tree[r.key] == s)
    && (r.status.Pending? ==> r.requested == AfdEvents(r.pendingEvents))
    && (!r.status.Pending? ==> r.pendingEvents == 0)
    && (!r.deletePending ==>
         s in p.updates || r.status.Cancelled? || (r.status.Pending? && Covered(r.userEvents, r.pendingEvents)))
  }

  /** The sockets that hold a slot of a group. */
  ghost function Members(p: Port, n: PollGroup): set<SockState> {
    set s | s in p.socks && p.socks[s].group == n
  }

  /** Nothing but live sockets is referred to from the port. */
  ghost predicate Links(p: Port) {
    && Once(p.updates) && Once(p.deleted)
    && (forall s | s in p.updates :: s in p.socks && !p.socks[s].deletePending)
    && (forall s | s in p.deleted :: s in p.socks && p.socks[s].deletePending)
    && (forall k | k in p.tree ::
       p.tree[k] in p.socks && !p.socks[p.tree[k]].deletePending && p.socks[p.tree[k]].key == k)
  }

  /** Nothing but live sockets is referred to from anywhere. */
  ghost predicate RefsOk(p: Port) {
    && Links(p)
    && (forall s | s in p.kernel :: s in p.socks)
    && (forall s | s in p.fetched :: s in p.socks)
  }

  ghost predicate SlotsOk(p: Port) {
    && GroupsOk(p.groups)
    && (forall x | x in p.groups.order :: x.size == |Members(p, x.group)|)
    && (forall s | s in p.socks :: Copies(p.groups.order, p.socks[s].group) == 1)
  }

  ghost predicate Inv(p: Port) {
    RefsOk(p) && SlotsOk(p) && forall s | s in p.socks :: SockOk(p, s)
  }

  // ---------- queues ----------

  lemma {:induction false} MinusOnce<T>(s: seq<T>, x: T)
    requires Once(s)
    ensures Once(Minus(s, x)) && x !in Minus(s, x)
    ensures forall y | y in s :: y == x || y in Minus(s, x)
    ensures forall y | y in Minus(s, x) :: y in s
  {
    if x !in s {
      MinusAbsent(s, x);
    } else {
      var k :| 0 <= k < |s| && s[k] == x;
      var u, v := s[..k], s[k + 1..];
      assert s == u + [x] + v;
      assert multiset(s) == multiset(u) + multiset{x} + multiset(v);
      assert forall i :: 0 <= i < k ==> s[i] in u;
      MinusAt(s, k);
      assert Minus(s, x) == u + v;
      assert multiset(u + v) == multiset(u) + multiset(v);
      assert forall y | y in u + v :: y in s;
    }
  }

  lemma {:induction false} AppendOnce<T>(s: seq<T>, x: T)
    requires Once(s) && x !in s
    ensures Once(s + [x])
  {
    assert multiset(s + [x]) == multiset(s) + multiset{x};
    assert forall y | y in s + [x] :: y == x || y in s;
  }

  /** Two ports that agree about one socket. */
  ghost predicate Same(p: Port, p': Port, s: SockState)
    requires s in p.socks
  {
    && s in p'.socks && p'.socks[s] == p.socks[s] && Tokens(p', s) == Tokens(p, s) && p'.open == p.open
    && (s in p'.updates <==> s in p.updates) && (s in p'.deleted <==> s in p.deleted)
    && (p.socks[s].key in p.tree && p.tree[p.socks[s].key] == s ==>
          p.socks[s].key in p'.tree && p'.tree[p.socks[s].key] == s)
  }

  /** Everything but `s` is in order. */
  ghost predicate Rest(p: Port, s: SockState) {
    && RefsOk(p) && SlotsOk(p) && s in p.socks
    && forall x | x in p.socks && x != s :: SockOk(p, x)
  }

  lemma {:induction false} InvRest(p: Port, s: SockState)
    requires s in p.socks
    ensures Inv(p) <==> Rest(p, s) && SockOk(p, s)
  {
  }

  /** Slots do not change when no socket comes, goes, or changes its group. */
  lemma {:induction false} SlotsSame(p: Port, p': Port)
    requires SlotsOk(p) && p'.groups == p.groups && p'.socks.Keys == p.socks.Keys
    requires forall s | s in p.socks :: p'.socks[s].group == p.socks[s].group
    ensures SlotsOk(p')
  {
    forall x | x in p.groups.order
      ensures x.size == |Members(p', x.group)|
    {
      assert Members(p', x.group) == Members(p, x.group);
    }
  }

  lemma {:induction false} SameOk(p: Port, p': Port, x: SockState)
    requires x in p.socks && SockOk(p, x) && Same(p, p', x)
    ensures SockOk(p', x)
  {
  }

  /** A step about `s` that no other socket notices. */
  lemma {:induction false} RestStep(p: Port, p': Port, s: SockState)
    requires Rest(p, s) == true && RefsOk(p') == true && SlotsOk(p') == true
    requires p'.socks.Keys == p.socks.Keys
    requires forall x | x in p.socks && x != s :: Same(p, p', x)
    ensures Rest(p', s) == true
  {
  }

  /** A step that changes one socket's fields and leaves queues, tree and groups alone. */
  lemma {:induction false} PutKeeps(p: Port, s: SockState, r: Sock)
    requires Rest(p, s)
    requires r.group == p.socks[s].group && r.key == p.socks[s].key && r.deletePending == p.socks[s].deletePending
    ensures Rest(Put(p, s, r), s) == true
  {
    PutRefs(p, s, r);
    SlotsSame(p, Put(p, s, r));
    RestStep(p, Put(p, s, r), s);
  }

  lemma {:induction false} PutRefs(p: Port, s: SockState, r: Sock)
    requires Links(p) && s in p.socks && r.key == p.socks[s].key && r.deletePending == p.socks[s].deletePending
    ensures Links(Put(p, s, r)) == true && (RefsOk(p) ==> RefsOk(Put(p, s, r)) == true)
  {
  }

  lemma {:induction false} OffQueuesKeeps(p: Port, s: SockState)
    requires Rest(p, s)
    ensures Rest(OffQueues(p, s), s) == true && !Queued(OffQueues(p, s), s)
  {
    MinusOnce(p.updates, s);
    MinusOnce(p.deleted, s);
    OffQueuesRefs(p, s);
    SlotsSame(p, OffQueues(p, s));
    RestStep(p, OffQueues(p, s), s);
  }

  lemma {:induction false} OffQueuesRefs(p: Port, s: SockState)
    requires Links(p)
    ensures Links(OffQueues(p, s)) == true && (RefsOk(p) ==> RefsOk(OffQueues(p, s)) == true)
  {
    MinusOnce(p.updates, s);
    MinusOnce(p.deleted, s);
  }

  lemma {:induction false} RequestUpdateKeeps(p: Port, s: SockState)
    requires Rest(p, s) && !p.socks[s].deletePending
    ensures Rest(RequestUpdate(p, s), s) == true
    ensures s in RequestUpdate(p, s).updates && s !in RequestUpdate(p, s).deleted
  {
    var p' := RequestUpdate(p, s);
    assert s !in p.deleted;
    if s !in p.updates {
      AppendOnce(p.updates, s);
      assert p'.updates[|p.updates|] == s;
      SlotsSame(p, p');
      RestStep(p, p', s);
    }
  }

  lemma {:induction false} AddDeletedKeeps(p: Port, s: SockState)
    requires Rest(p, s) && p.socks[s].deletePending
    ensures Rest(AddDeleted(p, s), s) == true
    ensures s in AddDeleted(p, s).deleted && s !in AddDeleted(p, s).updates
  {
    var p' := AddDeleted(p, s);
    assert s !in p.updates;
    if s !in p.deleted {
      AppendOnce(p.deleted, s);
      assert p'.deleted[|p.deleted|] == s;
      SlotsSame(p, p');
      RestStep(p, p', s);
    }
  }

  /** Out of the tree: the rest of `port_unregister_socket` and `delete_pending = true`. */
  function LeaveTree(p: Port, s: SockState): Port
    requires s in p.socks
  {
    Put(p.(tree := p.tree - {p.socks[s].key}), s, p.socks[s].(deletePending := true))
  }

  lemma {:induction false} LeaveTreeRefs(p: Port, s: SockState)
    requires Links(p) && s in p.socks && !Queued(p, s)
    ensures Links(LeaveTree(p, s)) == true && (RefsOk(p) ==> RefsOk(LeaveTree(p, s)) == true)
  {
  }

  ghost predicate Registered(p: Port, s: SockState) {
    s in p.socks && p.socks[s].key in p.tree && p.tree[p.socks[s].key] == s
  }

  lemma {:induction false} LeaveTreeKeeps(p: Port, s: SockState)
    requires Rest(p, s) && !Queued(p, s) && Registered(p, s)
    ensures Rest(LeaveTree(p, s), s) == true
  {
    LeaveTreeRefs(p, s);
    SlotsSame(p, LeaveTree(p, s));
    RestStep(p, LeaveTree(p, s), s);
  }

  /** The socket's fields after `sock__delete` has tried to cancel its request. */
  function Withdrawn(r: Sock, cancels: bool): Sock {
    if r.status.Pending? && cancels then r.(status := Cancelled, pendingEvents := 0) else r
  }

  lemma {:induction false} UnregisterIs(p: Port, s: SockState, cancels: bool)
    requires s in p.socks
    ensures Unregister(p, s, cancels) == LeaveTree(OffQueues(Put(p, s, Withdrawn(p.socks[s], cancels)), s), s)
  {
  }

  /** `sock__delete` takes the socket out of the tree and off the queues, whatever became of its request. */
  lemma {:induction false} UnregisterKeeps(p: Port, s: SockState, cancels: bool)
    requires Rest(p, s) == true && Registered(p, s)
    ensures var p' := Unregister(p, s, cancels);
            && Rest(p', s) == true && !Queued(p', s) && p'.socks[s].deletePending
            && p'.socks[s].group == p.socks[s].group && Tokens(p', s) == Tokens(p, s) && p'.open == p.open
            && (p'.socks[s].status.Idle? <==> p.socks[s].status.Idle?)
  {
    var p1 := WithdrawnKeeps(p, s, cancels);
    LeaveTreeKeeps(p1, s);
    UnregisterIs(p, s, cancels);
  }

  lemma {:induction false} WithdrawnKeeps(p: Port, s: SockState, cancels: bool) returns (p1: Port)
    requires Rest(p, s) == true && Registered(p, s)
    ensures p1 == OffQueues(Put(p, s, Withdrawn(p.socks[s], cancels)), s)
    ensures Rest(p1, s) == true && !Queued(p1, s) && Registered(p1, s)
  {
    PutKeeps(p, s, Withdrawn(p.socks[s], cancels));
    p1 := OffQueues(Put(p, s, Withdrawn(p.socks[s], cancels)), s);
    OffQueuesKeeps(Put(p, s, Withdrawn(p.socks[s], cancels)), s);
  }

  lemma {:induction false} SizeIn(s: seq<Slots>, x: Slots)
    requires x in s && Copies(s, x.group) == 1
    ensures SizeOf(s, x.group) == x.size
  {
    var u, y, v := Around(s, x.group);
    CopiesIn(u, x.group);
    CopiesIn(v, x.group);
  }

  lemma {:induction false} MembersSize(p: Port, n: PollGroup)
    requires SlotsOk(p) && Copies(p.groups.order, n) == 1
    ensures SizeOf(p.groups.order, n) == |Members(p, n)|
  {
    CopiesIn(p.groups.order, n);
    var x :| x in p.groups.order && x.group == n;
    SizeIn(p.groups.order, x);
  }

  lemma {:induction false} ReleasedMembers(p: Port, s: SockState, n: PollGroup)
    requires SlotsOk(p) && s in p.socks && Copies(Free(p, s).groups.order, n) == 1
    ensures SizeOf(Free(p, s).groups.order, n) == |Members(Free(p, s), n)|
  {
    ReleaseCounts(p.groups, p.socks[s].group, n);
    MembersSize(p, n);
    assert Members(Free(p, s), n) == Members(p, n) - {s};
  }

  lemma {:induction false} FreeLinks(p: Port, s: SockState)
    requires Links(p) && s in p.socks && p.socks[s].deletePending
    ensures Links(Free(p, s)) == true
  {
    hide RefsOk, Release;
    OffQueuesRefs(p, s);
    MinusOnce(p.updates, s);
    MinusOnce(p.deleted, s);
  }

  lemma {:induction false} FreeRefs(p: Port, s: SockState)
    requires RefsOk(p) && s in p.socks && p.socks[s].deletePending && Tokens(p, s) == 0
    ensures RefsOk(Free(p, s)) == true
  {
    hide Links, Release;
    FreeLinks(p, s);
  }

  lemma {:induction false} FreeSlots(p: Port, s: SockState)
    requires SlotsOk(p) && s in p.socks
    ensures SlotsOk(Free(p, s)) == true
  {
    var p' := Free(p, s);
    ReleaseKeeps(p.groups, p.socks[s].group);
    forall x | x in p'.groups.order
      ensures x.size == |Members(p', x.group)|
    {
      ReleasedMembers(p, s, x.group);
      SizeIn(p'.groups.order, x);
    }
    forall x | x in p'.socks
      ensures Copies(p'.groups.order, p'.socks[x].group) == 1
    {
      ReleaseCounts(p.groups, p.socks[s].group, p'.socks[x].group);
    }
  }

  /** Freeing a socket that nothing refers to any more. */
  lemma {:induction false} FreeKeeps(p: Port, s: SockState)
    requires Rest(p, s) == true && p.socks[s].deletePending && Tokens(p, s) == 0
    ensures Inv(Free(p, s)) && Free(p, s).socks == p.socks - {s}
  {
    FreeRefs(p, s);
    FreeSlots(p, s);
    MinusOnce(p.updates, s);
    MinusOnce(p.deleted, s);
    forall x | x in Free(p, s).socks
      ensures SockOk(Free(p, s), x)
    {
      SameOk(p, Free(p, s), x);
    }
  }

  // ---------- the operations ----------

  /** What `sock__delete` relies on: `SockOk` but for the interest, and it may have just gone idle. */
  ghost predicate Deletable(p: Port, s: SockState) {
    && Rest(p, s)
    && Outstanding(p, s)
    && (if p.socks[s].deletePending then s in p.deleted else s !in p.deleted && Registered(p, s))
    && (p.socks[s].status.Pending? ==> p.socks[s].requested == AfdEvents(p.socks[s].pendingEvents))
    && (!p.socks[s].status.Pending? ==> p.socks[s].pendingEvents == 0)
  }

  /** The second half of `sock__delete`. */
  lemma {:induction false} WaitKeeps(p: Port, s: SockState)
    requires Rest(p, s) == true && p.socks[s].deletePending && !p.socks[s].status.Idle? && Outstanding(p, s)
    requires p.socks[s].status.Pending? ==> p.socks[s].requested == AfdEvents(p.socks[s].pendingEvents)
    requires !p.socks[s].status.Pending? ==> p.socks[s].pendingEvents == 0
    ensures Inv(AddDeleted(p, s)) == true
  {
    AddDeletedKeeps(p, s);
    InvRest(AddDeleted(p, s), s);
  }

  /** Deleting a socket frees it at once only if no request of its is outstanding. */
  lemma {:induction false} DeleteKeeps(p: Port, s: SockState, cancels: bool)
    requires Deletable(p, s)
    ensures Inv(Delete(p, s, false, cancels)) == true
  {
    var p1 := p;
    if !p.socks[s].deletePending {
      p1 := Unregister(p, s, cancels);
      UnregisterKeeps(p, s, cancels);
    }
    if p1.socks[s].status.Idle? {
      FreeKeeps(p1, s);
    } else {
      WaitKeeps(p1, s);
    }
  }

  /** `sock_set_event` puts the socket in the update queue unless all it asks for is monitored already. */
  lemma {:induction false} SetEventKeeps(p: Port, s: SockState, events: bv32, data: nat)
    requires Deletable(p, s) == true && s in p.socks && !p.socks[s].deletePending
    requires p.socks[s].status.Idle? || SockOk(p, s)
    ensures Inv(SetEvent(p, s, events, data)) == true
  {
    hide Inv, RefsOk, SlotsOk, AfdEvents;
    var r := p.socks[s].(userEvents := events | EPOLLERR | EPOLLHUP, userData := data);
    PutKeeps(p, s, r);
    var p1 := Put(p, s, r);
    if Covered(r.userEvents, r.pendingEvents) {
      InvRest(p1, s);
    } else {
      RequestUpdateKeeps(p1, s);
      InvRest(RequestUpdate(p1, s), s);
    }
  }

  /** `sock_update` leaves the socket off the update queue unless it fails. */
  lemma {:induction false} UpdateKeeps(p: Port, s: SockState, a: Answer)
    requires Inv(p) == true && s in p.updates && s in p.socks
    ensures Inv(Update(p, s, a).0) == true
  {
    hide Inv, RefsOk, SlotsOk, AfdEvents;
    InvRest(p, s);
    var r := p.socks[s];
    match r.status
    case Pending =>
      if Covered(r.userEvents, r.pendingEvents) {
        OffQueuesKeeps(p, s);
        InvRest(OffQueues(p, s), s);
      } else if a.cancels {
        PutKeeps(p, s, r.(status := Cancelled, pendingEvents := 0));
        OffQueuesKeeps(CancelPoll(p, s, true), s);
        InvRest(OffQueues(CancelPoll(p, s, true), s), s);
      }
    case Cancelled =>
      OffQueuesKeeps(p, s);
      InvRest(OffQueues(p, s), s);
    case Idle =>
      SubmitKeeps(p, s, a);
  }

  lemma {:induction false} SubmitKeeps(p: Port, s: SockState, a: Answer)
    requires Inv(p) && s in p.updates && p.socks[s].status.Idle?
    ensures Inv(Update(p, s, a).0) == true
  {
    InvRest(p, s);
    var r := p.socks[s].(requested := AfdEvents(p.socks[s].userEvents));
    PutKeeps(p, s, r);
    var p1 := Put(p, s, r);
    match a.submit
    case SocketClosed => DeleteKeeps(p1, s, a.cancels);
    case Refused => InvRest(p1, s);
    case Accepted => AcceptedKeeps(p1, s);
  }

  lemma {:induction false} AcceptedKeeps(p: Port, s: SockState)
    requires Deletable(p, s) == true && !p.socks[s].deletePending && p.socks[s].status.Idle?
    requires p.socks[s].requested == AfdEvents(p.socks[s].userEvents)
    ensures var p2 := Put(p, s, p.socks[s].(status := Pending, pendingEvents := p.socks[s].userEvents));
            Inv(OffQueues(p2.(kernel := p2.kernel + multiset{s}), s)) == true
  {
    var r := p.socks[s].(status := Pending, pendingEvents := p.socks[s].userEvents);
    PutKeeps(p, s, r);
    var p2 := Put(p, s, r);
    AcceptKeeps(p2, s);
    var p3 := p2.(kernel := p2.kernel + multiset{s});
    OffQueuesKeeps(p3, s);
    InvRest(OffQueues(p3, s), s);
  }

  /** Requests of `s` that come or go, and nothing else. */
  lemma {:induction false} TokensKeep(p: Port, p': Port, s: SockState)
    requires Rest(p, s) && p' == p.(kernel := p'.kernel, fetched := p'.fetched)
    requires forall x | x in p.socks && x != s :: Tokens(p', x) == Tokens(p, x)
    requires forall x | x in p'.kernel + p'.fetched :: x in p.socks
    ensures Rest(p', s) == true
  {
    hide SockOk, AfdEvents, Covered;
    SlotsSame(p, p');
    RestStep(p, p', s);
  }

  /** `afd_poll` creates one request. */
  lemma {:induction false} AcceptKeeps(p: Port, s: SockState)
    requires Rest(p, s) == true
    ensures Rest(p.(kernel := p.kernel + multiset{s}), s) == true
  {
    hide Links, SlotsOk, SockOk;
    TokensKeep(p, p.(kernel := p.kernel + multiset{s}), s);
  }

  /** Feeding a completion uses up the one request of a live socket. */
  lemma {:induction false} FeedKeeps(p: Port, s: SockState, c: Completion)
    requires Inv(p) && s in p.fetched
    ensures Inv(Feed(p, s, c).0) == true
  {
    Consumed(p, s);
    var p1 := Consume(p, s);
    if p1.socks[s].deletePending || Closed(c) {
      DeleteKeeps(p1, s, false);
    } else {
      StayKeeps(p1, s);
    }
  }

  lemma {:induction false} Consumed(p: Port, s: SockState)
    requires Inv(p) == true && s in p.fetched && s in p.socks
    ensures Deletable(Consume(p, s), s) == true
  {
    hide Inv, RefsOk, SlotsOk, AfdEvents;
    InvRest(p, s);
    ConsumeKeeps(p, s);
    PutKeeps(p.(fetched := p.fetched - multiset{s}), s, p.socks[s].(status := Idle, pendingEvents := 0));
  }

  /** A socket that stays after a completion is due for an update. */
  lemma {:induction false} StayKeeps(p: Port, s: SockState)
    requires Deletable(p, s) == true && !p.socks[s].deletePending && p.socks[s].status.Idle?
    ensures Inv(RequestUpdate(p, s)) == true
    ensures Inv(Put(RequestUpdate(p, s), s, p.socks[s].(userEvents := 0))) == true
  {
    RequestUpdateKeeps(p, s);
    var p2 := RequestUpdate(p, s);
    InvRest(p2, s);
    PutKeeps(p2, s, p.socks[s].(userEvents := 0));
    InvRest(Put(p2, s, p.socks[s].(userEvents := 0)), s);
  }

  lemma {:induction false} ConsumeKeeps(p: Port, s: SockState)
    requires Rest(p, s) == true && s in p.fetched
    ensures Rest(p.(fetched := p.fetched - multiset{s}), s) == true
  {
    hide Links, SlotsOk, SockOk;
    TokensKeep(p, p.(fetched := p.fetched - multiset{s}), s);
  }
}
