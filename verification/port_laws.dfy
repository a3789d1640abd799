/** What each operation on a port does for its user: which requests it makes, what it reports, and what it leaves of the
    interests that are registered. */
module PortLaws {
  import opened Basics
  import opened Queue
  import opened PortModel
  import opened PortInvariant
  import opened PortEvents
  import opened PortRuns

  /** What is registered under a key. */
  datatype Wish = Wish(sock: SockState, events: bv32, data: nat)

  function Stored(p: Port, key: nat): Wish
    requires key in p.tree && p.tree[key] in p.socks
  {
    Wish(p.tree[key], p.socks[p.tree[key]].userEvents, p.socks[p.tree[key]].userData)
  }

  /** If the key is still registered, then as before. */
  ghost predicate Unmoved(p: Port, q: Port, key: nat) {
    key in q.tree ==>
      && key in p.tree && p.tree[key] in p.socks && q.tree[key] in q.socks
      && Stored(q, key) == Stored(p, key)
  }

  /** No other socket comes, goes or changes. */
  ghost predicate Elsewhere(p: Port, q: Port, s: SockState) {
    && (forall x | x in p.socks && x != s :: x in q.socks && q.socks[x] == p.socks[x])
    && (forall x | x in q.socks && x != s :: x in p.socks)
  }

  // ---------- sock__delete ----------

  /** The key goes, and no other; the memory goes unless a request is out, which is withdrawn if it can be. */
  lemma {:induction false} DeleteDone(p: Port, s: SockState, force: bool, cancels: bool)
    requires s in p.socks
    ensures var q, r := Delete(p, s, force, cancels), p.socks[s];
            && Elsewhere(p, q, s) == true
            && q.tree == (if r.deletePending then p.tree else p.tree - {r.key})
            && q.kernel == p.kernel && q.fetched == p.fetched && q.polls == p.polls && q.open == p.open
            && (s in q.socks <==> !force && !r.status.Idle?)
            && (s in q.socks ==>
                  q.socks[s] == if r.deletePending then r else Withdrawn(r, cancels).(deletePending := true))
  {
    hide Unregister, Free;
    var p1 := p;
    if !p.socks[s].deletePending {
      p1 := Unregister(p, s, cancels);
      UnregisterDone(p, s, cancels);
    }
    FreeDone(p1, s);
    assert Elsewhere(p1, AddDeleted(p1, s), s);
  }

  lemma {:induction false} UnregisterDone(p: Port, s: SockState, cancels: bool)
    requires s in p.socks
    ensures var q, r := Unregister(p, s, cancels), p.socks[s];
            && Elsewhere(p, q, s) == true && q.tree == p.tree - {r.key}
            && q.kernel == p.kernel && q.fetched == p.fetched && q.polls == p.polls && q.open == p.open
            && s in q.socks && q.socks[s] == Withdrawn(r, cancels).(deletePending := true)
  {
    hide Unregister;
    UnregisterIs(p, s, cancels);
  }

  lemma {:induction false} FreeDone(p: Port, s: SockState)
    requires s in p.socks
    ensures var q := Free(p, s);
            && Elsewhere(p, q, s) == true && q.tree == p.tree && s !in q.socks
            && q.kernel == p.kernel && q.fetched == p.fetched && q.polls == p.polls && q.open == p.open
  {
    hide Release;
  }

  // ---------- sock_update ----------

  /** When `sock_update` succeeds: a request that must be withdrawn can be, or a new one is not refused. */
  predicate Works(r: Sock, a: Answer) {
    match r.status
    case Idle => a.submit != Refused
    case Cancelled => true
    case Pending => a.cancels || Covered(r.userEvents, r.pendingEvents)
  }

  /** No interest changes, and no key goes but that of a socket found closed. */
  ghost predicate SameWish(p: Port, q: Port, s: SockState, gone: bool)
    requires s in p.socks
  {
    && Elsewhere(p, q, s) && q.tree == (if gone then p.tree - {p.socks[s].key} else p.tree)
    && (s in q.socks ==> q.socks[s].userEvents == p.socks[s].userEvents && q.socks[s].userData == p.socks[s].userData)
    && (s !in q.socks ==> gone)
  }

  lemma {:induction false} UpdateTree(p: Port, s: SockState, a: Answer)
    requires s in p.socks && !p.socks[s].deletePending
    ensures SameWish(p, Update(p, s, a).0, s, p.socks[s].status.Idle? && a.submit.SocketClosed?) == true
  {
    hide AfdEvents, Covered;
    if p.socks[s].status.Idle? {
      SubmitTree(p, s, a);
    }
  }

  lemma {:induction false} SubmitTree(p: Port, s: SockState, a: Answer)
    requires s in p.socks && !p.socks[s].deletePending && p.socks[s].status.Idle?
    ensures SameWish(p, Update(p, s, a).0, s, a.submit.SocketClosed?) == true
  {
    hide AfdEvents, Covered, Delete;
    if a.submit.SocketClosed? {
      hide SameWish, Update;
      DropTree(p, s, a);
    }
  }

  lemma {:induction false} DropTree(p: Port, s: SockState, a: Answer)
    requires s in p.socks && !p.socks[s].deletePending && p.socks[s].status.Idle? && a.submit.SocketClosed?
    ensures SameWish(p, Update(p, s, a).0, s, true) == true
  {
    hide AfdEvents, Covered, Delete;
    var p1 := Put(p, s, p.socks[s].(requested := AfdEvents(p.socks[s].userEvents)));
    DeleteDone(p1, s, false, a.cancels);
  }

  lemma {:induction false} UpdateOthers(p: Port, s: SockState, a: Answer, key: nat)
    requires Inv(p) == true && s in p.updates && s in p.socks
    ensures var q := Update(p, s, a).0;
            && Unmoved(p, q, key)
            && (key in p.tree && key !in q.tree ==>
                  p.tree[key] == s && p.socks[s].status.Idle? && a.submit.SocketClosed?)
  {
    hide SlotsOk, SockOk, Update;
    QueuedRegistered(p, s);
    UpdateTree(p, s, a);
  }

  lemma {:induction false} QueuedRegistered(p: Port, s: SockState)
    requires Inv(p) && s in p.updates && s in p.socks
    ensures Registered(p, s) && !p.socks[s].deletePending
  {
    hide SlotsOk, AfdEvents, Covered;
    assert SockOk(p, s);
  }

  /** `sock_update`: it succeeds as said, and otherwise leaves the socket queued.  An idle socket whose request is
      accepted has one more request out, which asks for exactly what stands for its interest.  A request that is out
      stays if it monitors every known event asked for, and is withdrawn otherwise. */
  lemma {:induction false} UpdateAsks(p: Port, s: SockState, a: Answer)
    requires Inv(p) == true && s in p.updates && s in p.socks
    ensures var (q, ok), r := Update(p, s, a), p.socks[s];
            && (ok <==> Works(r, a))
            && (if ok then s !in q.updates else s in q.updates && s in q.socks)
            && (r.status.Idle? && a.submit.Accepted? ==>
                  && s in q.socks && q.kernel == p.kernel + multiset{s} && q.socks[s].status == Pending
                  && forall x | Bit(x) ::
                    Has(q.socks[s].requested, x) <==>
                    x == AFD_LOCAL_CLOSE
                      || (Asks(r.userEvents, x) && (x == AFD_CONNECT_FAIL ==> Has(r.userEvents, EPOLLERR))))
            && (r.status.Idle? && a.submit.SocketClosed? ==> s !in q.socks && r.key !in q.tree)
            && (!(r.status.Idle? && a.submit.Accepted?) ==> q.kernel == p.kernel)
            && (r.status.Pending? ==>
                  s in q.socks
                  && q.socks[s] == if Covered(r.userEvents, r.pendingEvents) then r else Withdrawn(r, a.cancels))
  {
    hide SlotsOk, SockOk, AfdEvents, Covered, Release, Has, Bit;
    MinusOnce(p.updates, s);
    MinusOnce(Minus(p.updates, s), s);
    forall x | Bit(x)
      ensures Has(AfdEvents(p.socks[s].userEvents), x) <==>
              x == AFD_LOCAL_CLOSE
              || (Asks(p.socks[s].userEvents, x) && (x == AFD_CONNECT_FAIL ==> Has(p.socks[s].userEvents, EPOLLERR)))
    {
      RequestExact(p.socks[s].userEvents, x);
    }
  }

  /** `port__update_events`: no interest changes, and no key goes but those of sockets found closed; it fails only if
      the system refuses something. */
  lemma {:induction false} UpdateAllOthers(p: Port, env: SockState -> Answer, key: nat)
    requires Inv(p)
    ensures var (q, ok) := UpdateAll(p, env);
            && Unmoved(p, q, key) && q.socks.Keys <= p.socks.Keys
            && (key in p.tree && key !in q.tree ==> env(p.tree[key]).submit.SocketClosed?)
            && (!ok ==> q.updates != [] && exists s | s in p.socks :: env(s).submit.Refused? || !env(s).cancels)
    decreases |p.updates|
  {
    hide SockOk, SlotsOk, Update;
    if p.updates != [] {
      var s := p.updates[0];
      UpdateKeeps(p, s, env(s));
      UpdateShrinks(p, env(s));
      QueuedRegistered(p, s);
      UpdateOthers(p, s, env(s), key);
      UpdateTree(p, s, env(s));
      UpdateAsks(p, s, env(s));
      if Update(p, s, env(s)).1 {
        UpdateAllOthers(Update(p, s, env(s)).0, env, key);
      }
    }
  }

  // ---------- sock_feed_event ----------

  /** What the user of a socket could be told by a completion: what the events of the poll stand for, or an error if the
      request itself has failed. */
  ghost predicate Signalled(c: Completion, b: bv32) {
    (c.Failed? && b == EPOLLERR) || (c.Reported? && Told(c.events, b))
  }

  /** Something that is asked for. */
  ghost predicate Tells(c: Completion, interest: bv32) {
    exists b :: Bit(b) && Signalled(c, b) && Has(interest, b)
  }

  /** The event reports just what is signalled and asked for, with the user's data. */
  ghost predicate Reports(e: Event, c: Completion, w: Wish) {
    e.data == w.data && forall b | Bit(b) :: Has(e.events, b) <==> Signalled(c, b) && Has(w.events, b)
  }

  /** The interest that a completion leaves. */
  ghost function Left(w: Wish, c: Completion): (r: Wish)
    ensures r == w.(events := r.events)
  {
    if Tells(c, w.events) && Has(w.events, EPOLLONESHOT) then w.(events := 0) else w
  }

  /** A socket whose request has come back. */
  function Spent(r: Sock, interest: bv32): Sock {
    r.(status := Idle, pendingEvents := 0, userEvents := interest)
  }

  lemma {:induction false} ReportedExact(c: Completion, b: bv32)
    requires Bit(b)
    ensures Has(ReportedEvents(c), b) <==> Signalled(c, b)
  {
    hide Told, EpollEvents;
    if c.Reported? {
      AnswerExact(c.events, b);
    }
    ErrorBit(b);
  }

  lemma {:induction false} ErrorBit(b: bv32)
    requires Bit(b)
    ensures Has(EPOLLERR, b) <==> b == EPOLLERR
    ensures !Has(0, b)
  {
  }

  lemma {:induction false} Both(x: bv32, y: bv32, b: bv32)
    requires Bit(b)
    ensures Has(x & y, b) <==> Has(x, b) && Has(y, b)
  {
  }

  /** What is left of a completion for an interest. */
  function Mask(c: Completion, interest: bv32): bv32 {
    ReportedEvents(c) & interest
  }

  lemma {:induction false} MaskBit(c: Completion, interest: bv32, b: bv32)
    requires Bit(b)
    ensures Has(Mask(c, interest), b) <==> Signalled(c, b) && Has(interest, b)
  {
    hide Bit, Has, Signalled, ReportedEvents;
    Both(ReportedEvents(c), interest, b);
    ReportedExact(c, b);
  }

  lemma {:induction false} MaskTells(c: Completion, interest: bv32)
    ensures Mask(c, interest) != 0 <==> Tells(c, interest)
  {
    hide Bit, Has, Signalled, Mask;
    var m := Mask(c, interest);
    if m != 0 {
      var b := SomeBit(m);
      MaskBit(c, interest, b);
    } else if Tells(c, interest) {
      var b :| Bit(b) && Signalled(c, b) && Has(interest, b);
      MaskBit(c, interest, b);
      ErrorBit(b);
    }
  }

  lemma {:induction false} MaskReports(c: Completion, w: Wish)
    ensures Reports(Event(Mask(c, w.events), w.data), c, w) == true
  {
    hide Bit, Has, Signalled, Mask;
    forall b | Bit(b)
      ensures Has(Mask(c, w.events), b) <==> Signalled(c, b) && Has(w.events, b)
    {
      MaskBit(c, w.events, b);
    }
  }

  lemma {:induction false} SomeBit(m: bv32) returns (b: bv32)
    requires m != 0
    ensures Bit(b) && Has(m, b)
  {
    b := LowBit(m);
  }

  /** `sock_feed_event`, for a socket that stays: an event is reported if and only if the completion signals something
      that is asked for, and it is just that; the interest goes if that was to be reported once only; an update is
      due.  A socket that is being deleted, or has been closed, goes without a report. */
  lemma {:induction false} FeedReports(p: Port, s: SockState, c: Completion)
    requires Inv(p) == true && s in p.fetched && s in p.socks
    ensures var (q, e), r := Feed(p, s, c), p.socks[s];
            var w := Wish(s, r.userEvents, r.userData);
            Elsewhere(p, q, s) == true &&
            if r.deletePending || (c.Reported? && Has(c.events, AFD_LOCAL_CLOSE)) then
              && e == None && s !in q.socks
              && q.tree == if r.deletePending then p.tree else p.tree - {r.key}
            else
              && (e.Some? <==> Tells(c, w.events))
                 && (e.Some? ==> e.value.events != 0 && Reports(e.value, c, w) == true)
              && s in q.socks && q.socks[s] == Spent(r, Left(w, c).events)
              && q.tree == p.tree && s in q.updates
  {
    hide Inv, Feed, Told, Tells, Bit;
    if p.socks[s].deletePending || Closed(c) {
      FeedDrops(p, s, c);
    } else {
      FeedStays(p, s, c);
    }
  }

  lemma {:induction false} FeedDrops(p: Port, s: SockState, c: Completion)
    requires s in p.socks && (p.socks[s].deletePending || Closed(c))
    ensures var (q, e), r := Feed(p, s, c), p.socks[s];
            && Elsewhere(p, q, s) == true && e == None && s !in q.socks
            && q.tree == if r.deletePending then p.tree else p.tree - {r.key}
  {
    hide Delete, ReportedEvents;
    DeleteDone(Consume(p, s), s, false, false);
  }

  lemma {:induction false} FeedStays(p: Port, s: SockState, c: Completion)
    requires Inv(p) == true && s in p.socks && !p.socks[s].deletePending && !Closed(c)
    ensures var (q, e), r := Feed(p, s, c), p.socks[s];
            var w := Wish(s, r.userEvents, r.userData);
            && Elsewhere(p, q, s) == true && q.tree == p.tree && s in q.socks && s in q.updates
            && (e.Some? <==> Tells(c, w.events)) && (e.Some? ==> e.value.events != 0 && Reports(e.value, c, w) == true)
            && q.socks[s] == Spent(r, Left(w, c).events)
  {
    hide Inv, Feed, Report, Mask, Reports, Tells, Left, Consume, RequestUpdate;
    FeedIs(p, s, c);
    Requeued(p, s);
    ReportSays(RequestUpdate(Consume(p, s), s), s, c);
  }

  lemma {:induction false} Requeued(p: Port, s: SockState)
    requires Inv(p) == true && s in p.socks && !p.socks[s].deletePending
    ensures var q, r := RequestUpdate(Consume(p, s), s), p.socks[s];
            && Elsewhere(p, q, s) == true && q.tree == p.tree && s in q.updates
            && s in q.socks && q.socks[s] == Spent(r, r.userEvents)
  {
    hide Inv;
    StaysQueued(p, s);
  }

  lemma {:induction false} FeedIs(p: Port, s: SockState, c: Completion)
    requires s in p.socks && !p.socks[s].deletePending && !Closed(c)
    ensures Feed(p, s, c) == Report(RequestUpdate(Consume(p, s), s), s, Mask(c, p.socks[s].userEvents))
  {
    hide Report, ReportedEvents, Closed, RequestUpdate;
  }

  lemma {:induction false} ReportSays(p: Port, s: SockState, c: Completion)
    requires s in p.socks
    ensures var (q, e), r := Report(p, s, Mask(c, p.socks[s].userEvents)), p.socks[s];
            var w := Wish(s, r.userEvents, r.userData);
            && Elsewhere(p, q, s) == true && q.tree == p.tree && q.updates == p.updates && s in q.socks
            && (e.Some? <==> Tells(c, w.events)) && (e.Some? ==> e.value.events != 0 && Reports(e.value, c, w) == true)
            && q.socks[s] == r.(userEvents := Left(w, c).events)
  {
    hide Tells, Mask, Reports;
    var r := p.socks[s];
    MaskTells(c, r.userEvents);
    MaskReports(c, Wish(s, r.userEvents, r.userData));
  }

  lemma {:induction false} StaysQueued(p: Port, s: SockState)
    requires Inv(p) && s in p.socks && !p.socks[s].deletePending
    ensures s !in p.deleted
  {
  }
}
