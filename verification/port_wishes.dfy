/** What the users of a port have asked for and what they are told, over whole runs. */
module PortWishes {
  import opened Basics
  import opened Queue
  import opened PortModel
  import opened PortInvariant
  import opened PortEvents
  import opened PortRuns
  import opened PortLaws

  // ---------- epoll_ctl ----------

  /** When a socket can be registered. */
  ghost predicate CanAdd(p: Port, key: nat, base: bool, made: Option<PollGroup>, alloc: bool) {
    && key != 0 && key != INVALID_SOCKET && base && alloc && key !in p.tree
    && (made.Some? || !AllFull(p.groups.order))
  }

  /** `sock_new` succeeds exactly then, and it registers just this socket under just this key. */
  lemma {:induction false} NewDone(p: Port, s: SockState, key: nat, base: bool, made: Option<PollGroup>, alloc: bool)
    requires Inv(p) && s !in p.socks && (made.Some? ==> Copies(p.groups.order, made.value) == 0)
    ensures var (q, ok) := New(p, s, key, base, made, alloc);
            && (ok <==> CanAdd(p, key, base, made, alloc))
            && Elsewhere(p, q, s) == true && q.updates == p.updates && q.polls == p.polls
            && q.tree == (if ok then p.tree[key := s] else p.tree)
            && (ok ==> s in q.socks && q.socks[s].key == key && q.socks[s].status.Idle?)
            && (!ok ==> q.socks == p.socks)
  {
    hide Inv, Acquire, Release, AllFull;
    GroupFound(p, made);
  }

  lemma {:induction false} GroupFound(p: Port, made: Option<PollGroup>)
    requires Inv(p) && (made.Some? ==> Copies(p.groups.order, made.value) == 0)
    ensures Acquire(p.groups, made).1.Some? <==> made.Some? || !AllFull(p.groups.order)
  {
    AcquireKeeps(p.groups, made);
    var order := p.groups.order;
    assert order != [] ==> order[|order| - 1] in order;
  }

  /** If the key is still registered, then for just this. */
  ghost predicate Wished(q: Port, key: nat, w: Wish) {
    key in q.tree ==> q.tree[key] in q.socks && Stored(q, key) == w
  }

  /** What `sock_set_event` makes of the events asked for. */
  function Always(events: bv32): bv32 {
    events | EPOLLERR | EPOLLHUP
  }

  lemma {:induction false} SetEventDone(p: Port, s: SockState, events: bv32, data: nat, key: nat)
    requires Links(p) == true && s in p.socks && Registered(p, s)
    ensures var q := SetEvent(p, s, events, data);
            && q.tree == p.tree && q.polls == p.polls && q.socks.Keys == p.socks.Keys
            && (if key == p.socks[s].key then Wished(q, key, Wish(s, Always(events), data)) else Unmoved(p, q, key))
  {
    hide Covered;
  }

  /** While a thread is polling, no update is left undone, unless the system refuses one. */
  lemma {:induction false} PollDone(p: Port, env: SockState -> Answer, key: nat)
    requires Inv(p)
    ensures var q := UpdateIfPolling(p, env);
            && Unmoved(p, q, key) && q.polls == p.polls && (p.polls == 0 ==> q == p)
            && (key in p.tree && key !in q.tree ==> p.polls > 0 && env(p.tree[key]).submit.SocketClosed?)
            && (q.polls > 0 && q.updates != [] ==> exists s | s in p.socks :: env(s).submit.Refused? || !env(s).cancels)
  {
    UpdateAllOthers(p, env, key);
  }

  /** `port__ctl_add` answers yes exactly if the socket can be registered; it then is, under this key and with this
      interest, unless it is found closed right away; nothing else that is registered changes. */
  lemma {:induction false} AddDone(p: Port, s: SockState, key: nat, base: bool, made: Option<PollGroup>, alloc: bool,
          events: bv32, data: nat, env: SockState -> Answer, k: nat)
    requires Inv(p) && s !in p.socks && (made.Some? ==> Copies(p.groups.order, made.value) == 0)
    ensures var (q, ok) := CtlAdd(p, s, key, base, made, alloc, events, data, env);
            && (ok <==> CanAdd(p, key, base, made, alloc))
            && (ok ==> Wished(q, key, Wish(s, Always(events), data)))
            && (ok && key !in q.tree ==> p.polls > 0 && env(s).submit.SocketClosed?)
            && (!ok || k != key ==> Unmoved(p, q, k))
            && (k in p.tree && k !in q.tree ==> p.polls > 0 && env(p.tree[k]).submit.SocketClosed?)
  {
    hide Inv, AllFull, New, SetEvent, UpdateIfPolling;
    NewDone(p, s, key, base, made, alloc);
    NewKeeps(p, s, key, base, made, alloc);
    var (p1, ok) := New(p, s, key, base, made, alloc);
    Beside(p, p1, s, key, k);
    if ok {
      SetEventKeeps(p1, s, events, data);
      Registering(p1, s, events, data, key);
      Registering(p1, s, events, data, k);
      PollDone(SetEvent(p1, s, events, data), env, key);
      PollDone(SetEvent(p1, s, events, data), env, k);
    }
  }

  /** What is registered under another key. */
  lemma {:induction false} Beside(p: Port, q: Port, s: SockState, key: nat, k: nat)
    requires Inv(p) && s !in p.socks && Elsewhere(p, q, s)
    requires q.tree == p.tree || (q.tree == p.tree[key := s] && key !in p.tree)
    ensures q.tree == p.tree || k != key ==> Unmoved(p, q, k)
    ensures k in p.tree ==> k in q.tree && q.tree[k] == p.tree[k]
  {
  }

  lemma {:induction false} Registering(p: Port, s: SockState, events: bv32, data: nat, key: nat)
    requires Deletable(p, s) == true && s in p.socks && !p.socks[s].deletePending
    ensures var q := SetEvent(p, s, events, data);
            && q.tree == p.tree && q.polls == p.polls && q.socks.Keys == p.socks.Keys
            && (if key == p.socks[s].key then Wished(q, key, Wish(s, Always(events), data)) else Unmoved(p, q, key))
  {
    hide SlotsOk, SockOk, AfdEvents, SetEvent;
    SetEventDone(p, s, events, data, key);
  }

  /** `port__ctl_mod` answers yes exactly if the key is registered, which then has this interest. */
  lemma {:induction false} ModDone(p: Port, key: nat, events: bv32, data: nat, env: SockState -> Answer, k: nat)
    requires Inv(p) == true
    ensures var (q, ok) := CtlMod(p, key, events, data, env);
            && (ok <==> key in p.tree)
            && (ok ==> Wished(q, key, Wish(p.tree[key], Always(events), data)))
            && (!ok || k != key ==> Unmoved(p, q, k))
            && (k in p.tree && k !in q.tree ==> p.polls > 0 && env(p.tree[k]).submit.SocketClosed?)
  {
    hide Inv, SetEvent, UpdateIfPolling;
    if key in p.tree {
      var s := p.tree[key];
      RegisteredDeletable(p, key);
      KeyOf(p, key);
      SetEventKeeps(p, s, events, data);
      Registering(p, s, events, data, key);
      Registering(p, s, events, data, k);
      PollDone(SetEvent(p, s, events, data), env, key);
      PollDone(SetEvent(p, s, events, data), env, k);
    } else {
      Stay(p, k);
    }
  }

  lemma {:induction false} KeyOf(p: Port, key: nat)
    requires Inv(p) && key in p.tree
    ensures p.tree[key] in p.socks && p.socks[p.tree[key]].key == key && !p.socks[p.tree[key]].deletePending
  {
  }

  lemma {:induction false} Stay(p: Port, key: nat)
    requires Inv(p)
    ensures Unmoved(p, p, key)
  {
  }

  /** `port__ctl_del` answers yes exactly if the key is registered, which then no longer is; the memory stays if and
      only if a request is out, which is withdrawn if it can be. */
  lemma {:induction false} DelDone(p: Port, key: nat, cancels: bool, k: nat)
    requires Inv(p) == true
    ensures var (q, ok) := CtlDel(p, key, cancels);
            && (ok <==> key in p.tree)
            && q.tree == p.tree - {key} && Unmoved(p, q, k)
            && (ok ==> var s := p.tree[key];
                  && s in p.socks && (s in q.socks <==> !p.socks[s].status.Idle?)
                  && (s in q.socks ==> q.socks[s] == Withdrawn(p.socks[s], cancels).(deletePending := true)))
  {
    hide Inv, Delete;
    if key in p.tree {
      RegisteredDeletable(p, key);
      KeyOf(p, key);
      DeleteKeeps(p, p.tree[key], cancels);
      DeleteDone(p, p.tree[key], false, cancels);
      Others(p, CtlDel(p, key, cancels).0, key, k);
    } else {
      Stay(p, k);
    }
  }

  lemma {:induction false} Others(p: Port, q: Port, key: nat, k: nat)
    requires Inv(p) == true && key in p.tree && Elsewhere(p, q, p.tree[key]) == true && q.tree == p.tree - {key}
    ensures Unmoved(p, q, k)
  {
    hide Inv;
    KeyOf(p, key);
    if k in q.tree {
      KeyOf(p, k);
    }
  }

  // ---------- batches of completions ----------

  /** What a batch leaves of an interest. */
  ghost function LeftAll(w: Wish, batch: seq<(SockState, Completion)>): (r: Wish)
    ensures r.sock == w.sock
    decreases |batch|
  {
    if batch == [] then w
    else LeftAll(if batch[0].0 == w.sock then Left(w, batch[0].1) else w, batch[1..])
  }

  lemma {:induction false} FeedWish(p: Port, s: SockState, c: Completion, key: nat)
    requires Inv(p) == true && s in p.fetched && s in p.socks
    ensures var q := Feed(p, s, c).0;
            key in q.tree ==>
              && key in p.tree && p.tree[key] in p.socks
              && Wished(q, key, if p.tree[key] == s then Left(Stored(p, key), c) else Stored(p, key))
  {
    hide Inv, Feed, Left, Tells;
    FeedReports(p, s, c);
    if key in p.tree {
      KeyOf(p, key);
    }
    AtKey(p, s);
  }

  /** A live socket is registered under its key unless it is being deleted. */
  lemma {:induction false} AtKey(p: Port, s: SockState)
    requires Inv(p) && s in p.socks
    ensures p.socks[s].deletePending || (p.socks[s].key in p.tree && p.tree[p.socks[s].key] == s)
  {
    assert SockOk(p, s);
  }

  lemma {:induction false} FeedAllWish(p: Port, batch: seq<(SockState, Completion)>, key: nat)
    requires Inv(p) == true && Fed(batch) <= p.fetched && FeedAll(p, batch).Some?
    ensures var q := FeedAll(p, batch).value.0;
            key in q.tree ==>
              && key in p.tree && p.tree[key] in p.socks
              && Wished(q, key, LeftAll(Stored(p, key), batch))
    decreases |batch|
  {
    hide Inv, Feed, Left;
    if batch == [] {
      if key in p.tree {
        KeyOf(p, key);
      }
    } else {
      var p', e := FeedNext(p, batch);
      FeedAllKeeps(p', batch[1..]);
      assert batch[0].0 in Fed(batch);
      FeedWish(p, batch[0].0, batch[0].1, key);
      FeedAllWish(p', batch[1..], key);
    }
  }

  /** What a batch tells the users of the sockets in `wishes`, in order: a completion of a socket that is there and not
      closed is reported if it signals something that is asked for, and its interest is then what that leaves. */
  ghost predicate Tale(wishes: map<SockState, Wish>, batch: seq<(SockState, Completion)>, events: seq<Event>)
    decreases |batch|
  {
    if batch == [] then events == []
    else
      var (s, c) := batch[0];
      if s !in wishes then Tale(wishes, batch[1..], events)
      else if c.Reported? && Has(c.events, AFD_LOCAL_CLOSE) then Tale(wishes - {s}, batch[1..], events)
      else if Tells(c, wishes[s].events) then
        && events != [] && events[0].events != 0 && Reports(events[0], c, wishes[s])
        && Tale(wishes[s := Left(wishes[s], c)], batch[1..], events[1..])
      else Tale(wishes, batch[1..], events)
  }

  /** The registered sockets and what they are registered for. */
  ghost function Wishes(p: Port): map<SockState, Wish> {
    map s | s in p.socks && !p.socks[s].deletePending :: Wish(s, p.socks[s].userEvents, p.socks[s].userData)
  }

  lemma {:induction false} FeedWishes(p: Port, s: SockState, c: Completion)
    requires Inv(p) == true && s in p.fetched && s in p.socks
    ensures Wishes(Feed(p, s, c).0) ==
            if s !in Wishes(p) then Wishes(p)
            else if c.Reported? && Has(c.events, AFD_LOCAL_CLOSE) then Wishes(p) - {s}
            else if Tells(c, Wishes(p)[s].events) then Wishes(p)[s := Left(Wishes(p)[s], c)]
            else Wishes(p)
  {
    hide Inv, Feed, Tells, Reports, Wishes;
    FeedReports(p, s, c);
    WishesBut(p, Feed(p, s, c).0, s);
    InWishes(p, s);
  }

  lemma {:induction false} WishesBut(p: Port, q: Port, s: SockState)
    requires Elsewhere(p, q, s)
    ensures Wishes(q) ==
            if s in q.socks && !q.socks[s].deletePending then
              Wishes(p)[s := Wish(s, q.socks[s].userEvents, q.socks[s].userData)]
            else Wishes(p) - {s}
  {
  }

  lemma {:induction false} InWishes(p: Port, s: SockState)
    requires s in p.socks
    ensures s in Wishes(p) <==> !p.socks[s].deletePending
    ensures s in Wishes(p) ==> Wishes(p)[s] == Wish(s, p.socks[s].userEvents, p.socks[s].userData)
  {
  }

  lemma {:induction false} FeedTale(p: Port, batch: seq<(SockState, Completion)>)
    requires Inv(p) == true && Fed(batch) <= p.fetched && FeedAll(p, batch).Some?
    ensures Tale(Wishes(p), batch, FeedAll(p, batch).value.1)
    decreases |batch|
  {
    hide Inv, Feed, Left, Tells, Reports, Wishes;
    if batch != [] {
      var (s, c) := batch[0];
      var p', e := FeedNext(p, batch);
      FeedAllKeeps(p', batch[1..]);
      assert s in Fed(batch);
      FeedWishes(p, s, c);
      FeedReports(p, s, c);
      InWishes(p, s);
      FeedTale(p', batch[1..]);
      var rest := FeedAll(p', batch[1..]).value.1;
      assert (Listed(e) + rest)[|Listed(e)|..] == rest;
    }
  }

  // ---------- runs ----------

  /** What is asked for under a key once an action has been answered: the last addition or modification that was
      answered with yes counts, until it is deleted, or all of it has been reported once. */
  ghost function Asking(p: Port, a: Action, before: Option<Wish>, key: nat): Option<Wish>
    requires Inv(p) && Enabled(p, a)
  {
    match a
    case Add(s, k, base, made, alloc, events, data, env) =>
      if k == key && CtlAdd(p, s, k, base, made, alloc, events, data, env).1 then Some(Wish(s, Always(events), data))
      else before
    case Mod(k, events, data, env) =>
      if k == key && before.Some? && CtlMod(p, k, events, data, env).1 then
        Some(before.value.(events := Always(events), data := data))
      else before
    case Del(k, cancels) => if k == key && CtlDel(p, k, cancels).1 then None else before
    case End(batch) => if before.Some? then Some(LeftAll(before.value, batch)) else None
    case _ => before
  }

  ghost function Asked(acts: seq<Action>, key: nat): Option<Wish>
    decreases |acts|
  {
    if acts == [] then None
    else
      var p, a := Exec(acts[..|acts| - 1]), acts[|acts| - 1];
      var before := Asked(acts[..|acts| - 1], key);
      if Enabled(p, a) then Asking(p, a, before, key) else before
  }

  ghost predicate Agrees(p: Port, key: nat, w: Option<Wish>) {
    key in p.tree ==> p.tree[key] in p.socks && w == Some(Stored(p, key))
  }

  lemma {:induction false} StepAgrees(p: Port, a: Action, before: Option<Wish>, key: nat)
    requires Inv(p) == true && Enabled(p, a) && Agrees(p, key, before) == true
    ensures Agrees(Step(p, a), key, Asking(p, a, before, key)) == true
  {
    hide Inv, UpdateAll, UpdateIfPolling, CtlAdd, CtlMod, CtlDel, CanAdd, Always, LeftAll, FeedAll, Fed, Copies;
    match a
    case Add(s, k, base, made, alloc, events, data, env) =>
      AddDone(p, s, k, base, made, alloc, events, data, env, key);
    case Mod(k, events, data, env) => ModDone(p, k, events, data, env, key);
    case Del(k, cancels) => DelDone(p, k, cancels, key);
    case Begin(env) => UpdateAllOthers(p, env, key);
    case Fetch(who) =>
    case End(batch) =>
      FeedAllKeeps(CountPoll(p, p.polls - 1), batch);
      FeedAllWish(CountPoll(p, p.polls - 1), batch, key);
    case TimeOut =>
    case Leave(env) => PollDone(p, env, key);
    case Close =>
  }

  /** After any run, what is registered under a key is just what was asked for last. */
  lemma {:induction false} AskedFor(acts: seq<Action>, key: nat)
    ensures Agrees(Exec(acts), key, Asked(acts, key)) == true
    decreases |acts|
  {
    hide Inv, Enabled, Step, Asking;
    if acts != [] {
      var m := |acts| - 1;
      AskedFor(acts[..m], key);
      if Enabled(Exec(acts[..m]), acts[m]) {
        StepAgrees(Exec(acts[..m]), acts[m], Asked(acts[..m], key), key);
      }
    }
  }

  /** Errors and hang-ups are part of every interest, but for one that has been reported once and for all. */
  lemma {:induction false} AskedProper(acts: seq<Action>, key: nat)
    ensures Asked(acts, key).Some? ==> Proper(Asked(acts, key).value.events)
    decreases |acts|
  {
    hide Inv, Enabled, Proper, Asking;
    if acts != [] {
      var m := |acts| - 1;
      AskedProper(acts[..m], key);
      if Enabled(Exec(acts[..m]), acts[m]) {
        AskingProper(Exec(acts[..m]), acts[m], Asked(acts[..m], key), key);
      }
    }
  }

  lemma {:induction false} AskingProper(p: Port, a: Action, before: Option<Wish>, key: nat)
    requires Inv(p) && Enabled(p, a) && (before.Some? ==> Proper(before.value.events))
    ensures Asking(p, a, before, key).Some? ==> Proper(Asking(p, a, before, key).value.events)
  {
    hide Inv, CtlAdd, CtlMod, CtlDel, LeftAll, Proper, Always, Copies, Fed;
    match a
    case Add(_, _, _, _, _, events, _, _) => AlwaysProper(events);
    case Mod(_, events, _, _) => AlwaysProper(events);
    case End(batch) =>
      if before.Some? {
        LeftProper(before.value, batch);
      }
    case _ =>
  }

  lemma {:induction false} AlwaysProper(events: bv32)
    ensures Proper(Always(events))
  {
  }

  /** `sock_set_event` adds errors and hang-ups, and nothing else. */
  lemma {:induction false} AlwaysBits(events: bv32, b: bv32)
    requires Bit(b)
    ensures Has(Always(events), b) <==> Has(events, b) || b == EPOLLERR || b == EPOLLHUP
  {
    hide Has, Bit;
    Either(events | EPOLLERR, EPOLLHUP, b);
    Either(events, EPOLLERR, b);
    ErrorBit(b);
    HangupBit(b);
  }

  lemma {:induction false} Either(x: bv32, y: bv32, b: bv32)
    ensures Has(x | y, b) <==> Has(x, b) || Has(y, b)
  {
    assert (x | y) & b == (x & b) | (y & b);
    OrZero(x & b, y & b);
  }

  lemma {:induction false} OrZero(x: bv32, y: bv32)
    ensures x | y == 0 <==> x == 0 && y == 0
  {
  }

  lemma {:induction false} HangupBit(b: bv32)
    requires Bit(b)
    ensures Has(EPOLLHUP, b) <==> b == EPOLLHUP
  {
  }

  lemma {:induction false} LeftProper(w: Wish, batch: seq<(SockState, Completion)>)
    requires Proper(w.events)
    ensures Proper(LeftAll(w, batch).events)
    decreases |batch|
  {
    hide Tells;
    if batch != [] {
      LeftProper(if batch[0].0 == w.sock then Left(w, batch[0].1) else w, batch[1..]);
    }
  }

  /** The system has been asked for all that is asked for. */
  ghost predicate Watched(r: Sock, w: Wish) {
    r.status.Pending? && Watches(r.requested, w.events)
  }

  lemma {:induction false} Attended(p: Port, key: nat)
    requires Inv(p) && key in p.tree && p.tree[key] in p.socks && Proper(p.socks[p.tree[key]].userEvents)
    ensures var s := p.tree[key];
            && Outstanding(p, s)
            && (s in p.updates || p.socks[s].status.Cancelled? || Watched(p.socks[s], Stored(p, key)))
  {
    var r := p.socks[p.tree[key]];
    assert SockOk(p, p.tree[key]);
    hide Watches, Covered, AfdEvents, Proper;
    if r.status.Pending? && Covered(r.userEvents, r.pendingEvents) {
      CoveredWatches(r.userEvents, r.pendingEvents);
    }
  }

  /** No lost interest: after any run, every registered socket is due for an update, or has a cancelled request that is
      still to come back, or the system has been asked for all that its user asked for last. */
  lemma {:induction false} InterestKept(acts: seq<Action>)
    ensures var p := Exec(acts);
            forall key | key in p.tree ::
              && p.tree[key] in p.socks && Asked(acts, key) == Some(Stored(p, key))
              && (p.tree[key] in p.updates || p.socks[p.tree[key]].status.Cancelled?
                  || Watched(p.socks[p.tree[key]], Asked(acts, key).value))
  {
    hide Inv, Asked, Watched, Proper;
    var p := Exec(acts);
    forall key | key in p.tree
      ensures p.tree[key] in p.socks && Asked(acts, key) == Some(Stored(p, key))
      ensures p.tree[key] in p.updates || p.socks[p.tree[key]].status.Cancelled?
              || Watched(p.socks[p.tree[key]], Stored(p, key))
    {
      AskedFor(acts, key);
      AskedProper(acts, key);
      Attended(p, key);
    }
  }

  /** So after a successful `port__update_events` the system has been asked for all that the users have asked for, but
      where a cancelled request is still to come back; every registered socket has exactly one request out as long as
      the port has not been closed. */
  lemma {:induction false} NoLostInterest(acts: seq<Action>, env: SockState -> Answer)
    ensures var (q, ok) := UpdateAll(Exec(acts), env);
            ok ==> forall key | key in q.tree ::
              && q.tree[key] in q.socks && Asked(acts, key) == Some(Stored(q, key))
              && (q.open ==> Tokens(q, q.tree[key]) == 1)
              && (q.socks[q.tree[key]].status.Cancelled? || Watched(q.socks[q.tree[key]], Asked(acts, key).value))
  {
    hide Inv, Asked, Watched, UpdateAll;
    var (q, ok) := UpdateAll(Exec(acts), env);
    if ok {
      forall key | key in q.tree
        ensures q.tree[key] in q.socks && Asked(acts, key) == Some(Stored(q, key))
        ensures q.open ==> Tokens(q, q.tree[key]) == 1
        ensures q.socks[q.tree[key]].status.Cancelled? || Watched(q.socks[q.tree[key]], Stored(q, key))
      {
        AskedFor(acts, key);
        AskedProper(acts, key);
        UpdateAllOthers(Exec(acts), env, key);
        Served(q, key);
      }
    }
  }

  lemma {:induction false} Served(p: Port, key: nat)
    requires Inv(p) && p.updates == [] && key in p.tree && p.tree[key] in p.socks
    requires Proper(p.socks[p.tree[key]].userEvents)
    ensures p.open ==> Tokens(p, p.tree[key]) == 1
    ensures p.socks[p.tree[key]].status.Cancelled? || Watched(p.socks[p.tree[key]], Stored(p, key))
  {
    Attended(p, key);
  }

  /** What `epoll_wait` hands out after any run: for each completion of the batch, in order, just what it signals and
      its socket's user has asked for last, with that user's data, and nothing if that is nothing. */
  lemma {:induction false} ReportsAreAsked(acts: seq<Action>, batch: seq<(SockState, Completion)>)
    requires Exec(acts).polls > 0 && Fed(batch) <= Exec(acts).fetched
    ensures Tale(Wishes(Exec(acts)), batch, EndPoll(Exec(acts), batch).1)
    ensures var p := Exec(acts);
            forall s | s in Wishes(p) ::
              p.socks[s].key in p.tree && p.tree[p.socks[s].key] == s
                && Asked(acts, p.socks[s].key) == Some(Wishes(p)[s])
  {
    hide Inv, Asked, Tale, FeedAll, Fed;
    var p := Exec(acts);
    var q := CountPoll(p, p.polls - 1);
    assert Wishes(p) == Wishes(q);
    FeedAllKeeps(q, batch);
    FeedTale(q, batch);
    forall s | s in Wishes(p)
      ensures p.socks[s].key in p.tree && p.tree[p.socks[s].key] == s
      ensures Asked(acts, p.socks[s].key) == Some(Wishes(p)[s])
    {
      AtKey(p, s);
      AskedFor(acts, p.socks[s].key);
    }
  }

  // ---------- threads that poll ----------

  /** The threads in `port__poll` that have let go of the lock */
  ghost function Polling(acts: seq<Action>): int
    decreases |acts|
  {
    if acts == [] then 0
    else
      var p, a := Exec(acts[..|acts| - 1]), acts[|acts| - 1];
      var before := Polling(acts[..|acts| - 1]);
      if !Enabled(p, a) then before
      else match a
        case Begin(env) => if BeginPoll(p, env).1 then before + 1 else before
        case End(_) => before - 1
        case TimeOut => before - 1
        case _ => before
  }

  lemma {:induction false} FeedPolls(p: Port, s: SockState, c: Completion)
    requires s in p.socks
    ensures Feed(p, s, c).0.polls == p.polls
  {
    hide Delete, ReportedEvents;
    DeleteDone(Consume(p, s), s, false, false);
  }

  lemma {:induction false} FeedAllPolls(p: Port, batch: seq<(SockState, Completion)>)
    requires FeedAll(p, batch).Some?
    ensures FeedAll(p, batch).value.0.polls == p.polls
    decreases |batch|
  {
    hide Feed;
    if batch != [] {
      FeedPolls(p, batch[0].0, batch[0].1);
      FeedAllPolls(Feed(p, batch[0].0, batch[0].1).0, batch[1..]);
    }
  }

  lemma {:induction false} CtlPolls(p: Port, s: SockState, key: nat, base: bool, made: Option<PollGroup>, alloc: bool,
          events: bv32, data: nat, env: SockState -> Answer)
    requires Inv(p) && s !in p.socks && (made.Some? ==> Copies(p.groups.order, made.value) == 0)
    ensures CtlAdd(p, s, key, base, made, alloc, events, data, env).0.polls == p.polls
  {
    hide Inv, New, CanAdd, SetEvent, UpdateIfPolling;
    NewDone(p, s, key, base, made, alloc);
    NewKeeps(p, s, key, base, made, alloc);
    var (p1, ok) := New(p, s, key, base, made, alloc);
    if ok {
      SetEventKeeps(p1, s, events, data);
      Registering(p1, s, events, data, key);
      PollDone(SetEvent(p1, s, events, data), env, key);
    }
  }

  /** The count of polling threads is right after any run. */
  lemma {:induction false} PollsCounted(acts: seq<Action>)
    ensures Exec(acts).polls == Polling(acts)
    decreases |acts|
  {
    hide Inv, Enabled, Step;
    if acts != [] {
      var m := |acts| - 1;
      PollsCounted(acts[..m]);
      if Enabled(Exec(acts[..m]), acts[m]) {
        StepPolls(Exec(acts[..m]), acts[m]);
      }
    }
  }

  lemma {:induction false} StepPolls(p: Port, a: Action)
    requires Inv(p) == true && Enabled(p, a)
    ensures Step(p, a).polls == p.polls + match a
      case Begin(env) => if BeginPoll(p, env).1 then 1 else 0
      case End(_) => -1
      case TimeOut => -1
      case _ => 0
  {
    hide Inv, UpdateAll, CtlAdd, FeedAll, Fed, Copies, Delete, Covered;
    match a
    case Add(s, k, base, made, alloc, events, data, env) => CtlPolls(p, s, k, base, made, alloc, events, data, env);
    case Mod(k, events, data, env) =>
      if k in p.tree {
        RegisteredDeletable(p, k);
        SetEventKeeps(p, p.tree[k], events, data);
      }
    case Del(k, cancels) =>
      if k in p.tree {
        KeyOf(p, k);
        DeleteDone(p, p.tree[k], false, cancels);
      }
    case End(batch) =>
      FeedAllKeeps(CountPoll(p, p.polls - 1), batch);
      FeedAllPolls(CountPoll(p, p.polls - 1), batch);
    case _ =>
  }

  /** What the system answers in a locked section that ends with an update of the sockets that need one, and the sockets
      that it can be asked about. */
  ghost function Consulted(a: Action): Option<SockState -> Answer> {
    match a
    case Add(_, _, _, _, _, _, _, env) => Some(env)
    case Mod(_, _, _, env) => Some(env)
    case Begin(env) => Some(env)
    case Leave(env) => Some(env)
    case _ => None
  }

  ghost predicate Refusal(p: Port, a: Action) {
    var socks := p.socks.Keys + if a.Add? then {a.s} else {};
    exists s | s in socks ::
      Consulted(a).Some? && (Consulted(a).value(s).submit.Refused? || !Consulted(a).value(s).cancels)
  }

  /** Whether `epoll_ctl` has found what it was to work on. */
  ghost predicate Effective(p: Port, a: Action) {
    match a
    case Add(_, key, base, made, alloc, _, _, _) => CanAdd(p, key, base, made, alloc)
    case Mod(key, _, _, _) => key in p.tree
    case _ => true
  }

  /** While threads are polling, no such section leaves a socket waiting for an update, unless the system has refused
      something. */
  lemma {:induction false} NothingPends(acts: seq<Action>, a: Action)
    requires Enabled(Exec(acts), a) && Consulted(a).Some? && Effective(Exec(acts), a)
    ensures var q := Step(Exec(acts), a);
            q.polls > 0 && q.updates != [] ==> Refusal(Exec(acts), a)
  {
    hide Inv, UpdateAll, UpdateIfPolling, Covered, CtlAdd, CanAdd, Copies;
    var p := Exec(acts);
    match a
    case Add(s, k, base, made, alloc, events, data, env) =>
      AddPends(p, s, k, base, made, alloc, events, data, env);
    case Mod(k, events, data, env) =>
      RegisteredDeletable(p, k);
      SetEventKeeps(p, p.tree[k], events, data);
      PollDone(SetEvent(p, p.tree[k], events, data), env, k);
    case Begin(env) => UpdateAllOthers(p, env, 0);
    case Leave(env) => PollDone(p, env, 0);
  }

  lemma {:induction false} AddPends(p: Port, s: SockState, key: nat, base: bool, made: Option<PollGroup>, alloc: bool,
          events: bv32, data: nat, env: SockState -> Answer)
    requires Inv(p) == true && s !in p.socks && (made.Some? ==> Copies(p.groups.order, made.value) == 0)
    requires CanAdd(p, key, base, made, alloc)
    ensures var q := CtlAdd(p, s, key, base, made, alloc, events, data, env).0;
            q.polls > 0 && q.updates != [] ==>
              exists x | x in p.socks.Keys + {s} :: env(x).submit.Refused? || !env(x).cancels
  {
    hide Inv, Covered, New, CanAdd, UpdateIfPolling;
    NewDone(p, s, key, base, made, alloc);
    NewKeeps(p, s, key, base, made, alloc);
    var p1 := New(p, s, key, base, made, alloc).0;
    SetEventKeeps(p1, s, events, data);
    PollDone(SetEvent(p1, s, events, data), env, key);
  }
}
