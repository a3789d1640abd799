/** Whole operations of a port, and what holds over every run of them. */
module PortRuns {
  import opened Basics
  import opened Queue
  import opened PortModel
  import opened PortInvariant

  /** `port_new` */
  const Empty: Port := Port(map[], map[], [], [], Groups([], 0), 0, true, multiset{}, multiset{})

  lemma {:induction false} EmptyOk()
    ensures Inv(Empty)
  {
    assert SplitAt([], 0);
  }

  // ---------- sock_new ----------

  /** A socket that could be registered is idle, on no queue, and holds one slot; otherwise the slot
      taken for it has been given back. */
  lemma {:induction false} NewKeeps(p: Port, s: SockState, key: nat, base: bool, made: Option<PollGroup>, alloc: bool)
    requires Inv(p) && s !in p.socks && (made.Some? ==> Copies(p.groups.order, made.value) == 0)
    ensures var (p', ok) := New(p, s, key, base, made, alloc);
            if ok then Deletable(p', s) == true && p'.socks[s].status.Idle? && !p'.socks[s].deletePending
            else Inv(p') == true && p'.socks == p.socks && p'.tree == p.tree
  {
    var (g, r) := Acquire(p.groups, made);
    AcquireKeeps(p.groups, made);
    if key == 0 || key == INVALID_SOCKET || !base || r.None? {
    } else if !alloc || key in p.tree {
      ReturnedSlot(p, made);
      GivenBack(p, p.(groups := Release(g, r.value)));
    } else {
      AddSlots(p, s, key, made);
      AddRest(p, s, key, made);
    }
  }

  lemma {:induction false} GivenBack(p: Port, q: Port)
    requires Inv(p) == true && SlotsOk(q) == true && q == p.(groups := q.groups)
    ensures Inv(q) == true
  {
  }

  lemma {:induction false} ReturnedSlot(p: Port, made: Option<PollGroup>)
    requires Inv(p) == true && (made.Some? ==> Copies(p.groups.order, made.value) == 0)
    requires Acquire(p.groups, made).1.Some?
    ensures var (g, r) := Acquire(p.groups, made);
            SlotsOk(p.(groups := Release(g, r.value))) == true
  {
    hide RefsOk, SockOk, Acquire, Release;
    var (g, r) := Acquire(p.groups, made);
    var n := r.value;
    var q := p.(groups := Release(g, n));
    AcquireKeeps(p.groups, made);
    AcquireCounts(p.groups, made, n);
    ReleaseKeeps(g, n);
    forall x | x in q.groups.order
      ensures x.size == |Members(q, x.group)|
    {
      AcquireCounts(p.groups, made, x.group);
      ReleaseCounts(g, n, x.group);
      SizeIn(q.groups.order, x);
      SlotsCounted(p, x.group);
      assert Members(q, x.group) == Members(p, x.group);
    }
    forall x | x in q.socks
      ensures Copies(q.groups.order, q.socks[x].group) == 1
    {
      AcquireCounts(p.groups, made, q.socks[x].group);
      ReleaseCounts(g, n, q.socks[x].group);
    }
  }

  /** A group's size is the number of live sockets that point at it; 0 for a group not in the queue. */
  lemma {:induction false} SlotsCounted(p: Port, n: PollGroup)
    requires SlotsOk(p)
    ensures SizeOf(p.groups.order, n) == |Members(p, n)|
  {
    CopiesIn(p.groups.order, n);
    if Copies(p.groups.order, n) == 0 {
      assert Members(p, n) == {};
    } else {
      var x :| x in p.groups.order && x.group == n;
      MembersSize(p, n);
    }
  }

  function Registering(p: Port, s: SockState, key: nat, made: Option<PollGroup>): Port
    requires Acquire(p.groups, made).1.Some?
  {
    var (g, r) := Acquire(p.groups, made);
    p.(groups := g, tree := p.tree[key := s], socks := p.socks[s := Sock(key, r.value, 0, 0, 0, 0, Idle, false)])
  }

  lemma {:induction false} AddSlots(p: Port, s: SockState, key: nat, made: Option<PollGroup>)
    requires SlotsOk(p) && s !in p.socks && (made.Some? ==> Copies(p.groups.order, made.value) == 0)
    requires Acquire(p.groups, made).1.Some?
    ensures SlotsOk(Registering(p, s, key, made)) == true
  {
    var (g, r) := Acquire(p.groups, made);
    var q := Registering(p, s, key, made);
    AcquireKeeps(p.groups, made);
    forall x | x in q.groups.order
      ensures x.size == |Members(q, x.group)|
    {
      AcquireCounts(p.groups, made, x.group);
      SizeIn(q.groups.order, x);
      SlotsCounted(p, x.group);
      AddedMembers(p, s, key, made, x.group);
    }
    forall x | x in q.socks
      ensures Copies(q.groups.order, q.socks[x].group) == 1
    {
      AcquireCounts(p.groups, made, q.socks[x].group);
    }
  }

  lemma {:induction false} AddedMembers(p: Port, s: SockState, key: nat, made: Option<PollGroup>, n: PollGroup)
    requires s !in p.socks && Acquire(p.groups, made).1.Some?
    ensures |Members(Registering(p, s, key, made), n)|
         == |Members(p, n)| + if Acquire(p.groups, made).1 == Some(n) then 1 else 0
  {
    var q := Registering(p, s, key, made);
    if q.socks[s].group == n {
      assert Members(q, n) == Members(p, n) + {s};
    } else {
      assert Members(q, n) == Members(p, n);
    }
  }

  lemma {:induction false} AddSame(p: Port, s: SockState, key: nat, made: Option<PollGroup>, x: SockState)
    requires s !in p.socks && key !in p.tree && Acquire(p.groups, made).1.Some? && x in p.socks
    ensures Same(p, Registering(p, s, key, made), x) == true
  {
  }

  lemma {:induction false} AddRest(p: Port, s: SockState, key: nat, made: Option<PollGroup>)
    requires Inv(p) == true && s !in p.socks && key !in p.tree && Acquire(p.groups, made).1.Some?
    requires SlotsOk(Registering(p, s, key, made)) == true
    ensures Deletable(Registering(p, s, key, made), s) == true
  {
    AddRefs(p, s, key, made);
    AddOthers(p, s, key, made);
    Fresh(Registering(p, s, key, made), s);
  }

  lemma {:induction false} AddOthers(p: Port, s: SockState, key: nat, made: Option<PollGroup>)
    requires Inv(p) == true && s !in p.socks && key !in p.tree && Acquire(p.groups, made).1.Some?
    requires SlotsOk(Registering(p, s, key, made)) == true && RefsOk(Registering(p, s, key, made)) == true
    ensures Rest(Registering(p, s, key, made), s) == true
  {
    var q := Registering(p, s, key, made);
    forall x | x in q.socks && x != s
      ensures SockOk(q, x) == true
    {
      AddSame(p, s, key, made, x);
      SameOk(p, q, x);
    }
  }

  lemma {:induction false} Fresh(q: Port, s: SockState)
    requires Rest(q, s) == true && Tokens(q, s) == 0 && s !in q.deleted && Registered(q, s)
    requires q.socks[s].status.Idle? && !q.socks[s].deletePending && q.socks[s].pendingEvents == 0
    ensures Deletable(q, s) == true
  {
  }

  lemma {:induction false} AddRefs(p: Port, s: SockState, key: nat, made: Option<PollGroup>)
    requires RefsOk(p) && s !in p.socks && key !in p.tree && Acquire(p.groups, made).1.Some?
    ensures RefsOk(Registering(p, s, key, made)) == true
    ensures Tokens(p, s) == 0 && s !in p.deleted
  {
    hide Acquire, Once;
  }

  // ---------- update and feed loops ----------

  /** `port__update_events`: the queue is worked off from the front until it is empty or an update fails. */
  ghost function UpdateAll(p: Port, env: SockState -> Answer): (r: (Port, bool))
    requires Inv(p)
    ensures Inv(r.0) && (r.1 ==> r.0.updates == []) && r.0.polls == p.polls
    decreases |p.updates|
  {
    if p.updates == [] then (p, true)
    else
      var s := p.updates[0];
      UpdateKeeps(p, s, env(s));
      UpdateShrinks(p, env(s));
      var (p', ok) := Update(p, s, env(s));
      if ok then UpdateAll(p', env) else (p', false)
  }

  lemma {:induction false} UpdateShrinks(p: Port, a: Answer)
    requires p.updates != [] && p.updates[0] in p.socks
    ensures var (p', ok) := Update(p, p.updates[0], a);
            p'.polls == p.polls && (ok ==> |p'.updates| < |p.updates|)
  {
    MinusShorter(p.updates[1..], p.updates[0]);
  }

  lemma {:induction false} MinusShorter<T>(s: seq<T>, x: T)
    ensures |Minus(s, x)| <= |s|
  {
    if s != [] {
      MinusShorter(s[1..], x);
    }
  }

  /** `port__update_events_if_polling` */
  ghost function UpdateIfPolling(p: Port, env: SockState -> Answer): (r: Port)
    requires Inv(p)
    ensures Inv(r)
  {
    if p.polls > 0 then UpdateAll(p, env).0 else p
  }

  function Fed(batch: seq<(SockState, Completion)>): multiset<SockState> {
    if batch == [] then multiset{} else multiset{batch[0].0} + Fed(batch[1..])
  }

  /** `port__feed_events`; `None` if a completion points at a socket whose memory has been freed. */
  function FeedAll(p: Port, batch: seq<(SockState, Completion)>): Option<(Port, seq<Event>)>
    decreases |batch|
  {
    if batch == [] then Some((p, []))
    else if batch[0].0 !in p.socks then None
    else
      var (p', e) := Feed(p, batch[0].0, batch[0].1);
      After(Listed(e), FeedAll(p', batch[1..]))
  }

  function Listed(e: Option<Event>): seq<Event> {
    if e.Some? then [e.value] else []
  }

  /** Some events, then those of the rest of a batch. */
  function After(events: seq<Event>, rest: Option<(Port, seq<Event>)>): Option<(Port, seq<Event>)> {
    match rest
    case None => None
    case Some((q, es)) => Some((q, events + es))
  }

  lemma {:induction false} AfterNothing(rest: Option<(Port, seq<Event>)>)
    ensures After([], rest) == rest
  {
    if rest.Some? {
      assert [] + rest.value.1 == rest.value.1;
    }
  }

  lemma {:induction false} AfterOne(events: seq<Event>, e: Option<Event>, rest: Option<(Port, seq<Event>)>)
    ensures After(events, After(Listed(e), rest)) == After(events + Listed(e), rest)
  {
    if rest.Some? {
      assert events + (Listed(e) + rest.value.1) == (events + Listed(e)) + rest.value.1;
    }
  }

  /** Feeding a batch that some thread has dequeued never touches freed memory. */
  lemma {:induction false} FeedAllKeeps(p: Port, batch: seq<(SockState, Completion)>)
    requires Inv(p) == true && Fed(batch) <= p.fetched
    ensures FeedAll(p, batch).Some? && Inv(FeedAll(p, batch).value.0) == true
    decreases |batch|
  {
    if batch != [] {
      var p', e := FeedNext(p, batch);
      FeedAllKeeps(p', batch[1..]);
    }
  }

  lemma {:induction false} FeedNext(p: Port, batch: seq<(SockState, Completion)>) returns (p': Port, e: Option<Event>)
    requires Inv(p) == true && Fed(batch) <= p.fetched && batch != []
    ensures batch[0].0 in p.socks && (p', e) == Feed(p, batch[0].0, batch[0].1)
    ensures Inv(p') == true && Fed(batch[1..]) <= p'.fetched
    ensures FeedAll(p, batch) == After(Listed(e), FeedAll(p', batch[1..]))
  {
    assert batch[0].0 in Fed(batch) && batch[0].0 in p.fetched;
    FeedKeeps(p, batch[0].0, batch[0].1);
    FeedConsumes(p, batch[0].0, batch[0].1);
    p', e := Feed(p, batch[0].0, batch[0].1).0, Feed(p, batch[0].0, batch[0].1).1;
  }

  lemma {:induction false} FeedConsumes(p: Port, s: SockState, c: Completion)
    requires s in p.socks
    ensures Feed(p, s, c).0.fetched == p.fetched - multiset{s} && Feed(p, s, c).0.kernel == p.kernel
  {
  }

  // ---------- epoll_ctl ----------

  /** `port__ctl_add` */
  ghost function CtlAdd(p: Port, s: SockState, key: nat, base: bool, made: Option<PollGroup>, alloc: bool,
                        events: bv32, data: nat, env: SockState -> Answer): (r: (Port, bool))
    requires Inv(p) && s !in p.socks && (made.Some? ==> Copies(p.groups.order, made.value) == 0)
    ensures Inv(r.0)
  {
    NewKeeps(p, s, key, base, made, alloc);
    var (p1, ok) := New(p, s, key, base, made, alloc);
    if !ok then (p1, false)
    else
      SetEventKeeps(p1, s, events, data);
      (UpdateIfPolling(SetEvent(p1, s, events, data), env), true)
  }

  /** `port__ctl_mod` */
  ghost function CtlMod(p: Port, key: nat, events: bv32, data: nat, env: SockState -> Answer): (r: (Port, bool))
    requires Inv(p)
    ensures Inv(r.0)
  {
    if key !in p.tree then (p, false)
    else
      RegisteredDeletable(p, key);
      SetEventKeeps(p, p.tree[key], events, data);
      (UpdateIfPolling(SetEvent(p, p.tree[key], events, data), env), true)
  }

  /** `port__ctl_del` */
  ghost function CtlDel(p: Port, key: nat, cancels: bool): (r: (Port, bool))
    requires Inv(p)
    ensures Inv(r.0)
  {
    if key !in p.tree then (p, false)
    else
      RegisteredDeletable(p, key);
      DeleteKeeps(p, p.tree[key], cancels);
      (Delete(p, p.tree[key], false, cancels), true)
  }

  lemma {:induction false} RegisteredDeletable(p: Port, key: nat)
    requires Inv(p) && key in p.tree
    ensures Deletable(p, p.tree[key]) && SockOk(p, p.tree[key]) && !p.socks[p.tree[key]].deletePending
  {
  }

  // ---------- port__poll ----------

  ghost function CountPoll(p: Port, polls: nat): (q: Port)
    requires Inv(p)
    ensures Inv(q) && q == p.(polls := polls)
  {
    p.(polls := polls)
  }

  /** `port__poll` up to the point where it lets go of the lock */
  ghost function BeginPoll(p: Port, env: SockState -> Answer): (r: (Port, bool))
    requires Inv(p)
    ensures Inv(r.0)
  {
    var (q, ok) := UpdateAll(p, env);
    if ok then (CountPoll(q, q.polls + 1), true) else (q, false)
  }

  /** The rest of `port__poll`, with the completions the system has handed out */
  ghost function EndPoll(p: Port, batch: seq<(SockState, Completion)>): (r: (Port, seq<Event>))
    requires Inv(p) && p.polls > 0 && Fed(batch) <= p.fetched
    ensures Inv(r.0)
  {
    FeedAllKeeps(CountPoll(p, p.polls - 1), batch);
    FeedAll(CountPoll(p, p.polls - 1), batch).value
  }

  /** `port_close`: the completion port goes, and the requests that have not been dequeued will never complete. */
  ghost function ClosePort(p: Port): (q: Port)
    requires Inv(p)
    ensures Inv(q)
  {
    CloseKeeps(p);
    p.(open := false, kernel := multiset{})
  }

  lemma {:induction false} CloseKeeps(p: Port)
    requires Inv(p)
    ensures Inv(p.(open := false, kernel := multiset{}))
  {
    var q := p.(open := false, kernel := multiset{});
    SlotsSame(p, q);
    forall s | s in q.socks
      ensures SockOk(q, s)
    {
      assert SockOk(p, s);
    }
  }

  // ---------- runs ----------

  /** What can happen to a port, one locked section at a time.  `Begin` is `port__poll` up to the point
      where it lets go of the lock, `Fetch` is a thread's call to the system for completions, `End` and
      `TimeOut` are the rest of `port__poll`, and `Leave` is the end of `port_wait`.  `Close` may come at any
      time; the threads that still hold a reference go on. */
  datatype Action =
    | Add(s: SockState, key: nat, base: bool, made: Option<PollGroup>, alloc: bool, events: bv32, data: nat,
      env: SockState -> Answer)
    | Mod(key: nat, events: bv32, data: nat, env: SockState -> Answer)
    | Del(key: nat, cancels: bool)
    | Begin(env: SockState -> Answer)
    | Fetch(who: multiset<SockState>)
    | End(batch: seq<(SockState, Completion)>)
    | TimeOut
    | Leave(env: SockState -> Answer)
    | Close

  /** Memory and groups come fresh, and completions come from requests that were made. */
  ghost predicate Enabled(p: Port, a: Action) {
    match a
    case Add(s, _, _, made, _, _, _, _) => s !in p.socks && (made.Some? ==> Copies(p.groups.order, made.value) == 0)
    case Fetch(who) => p.polls > 0 && who <= p.kernel
    case End(batch) => p.polls > 0 && Fed(batch) <= p.fetched
    case TimeOut => p.polls > 0
    case Close => p.open
    case _ => true
  }

  ghost function Step(p: Port, a: Action): (q: Port)
    requires Inv(p) && Enabled(p, a)
    ensures Inv(q)
  {
    match a
    case Add(s, key, base, made, alloc, events, data, env) => CtlAdd(p, s, key, base, made, alloc, events, data, env).0
    case Mod(key, events, data, env) => CtlMod(p, key, events, data, env).0
    case Del(key, cancels) => CtlDel(p, key, cancels).0
    case Begin(env) => BeginPoll(p, env).0
    case Fetch(who) =>
      FetchKeeps(p, who);
      p.(kernel := p.kernel - who, fetched := p.fetched + who)
    case End(batch) => EndPoll(p, batch).0
    case TimeOut => CountPoll(p, p.polls - 1)
    case Leave(env) => UpdateIfPolling(p, env)
    case Close => ClosePort(p)
  }

  /** Completions change hands; none is lost or doubled. */
  lemma {:induction false} FetchKeeps(p: Port, who: multiset<SockState>)
    requires Inv(p) && who <= p.kernel
    ensures Inv(p.(kernel := p.kernel - who, fetched := p.fetched + who))
  {
    var q := p.(kernel := p.kernel - who, fetched := p.fetched + who);
    SlotsSame(p, q);
    forall x | x in q.socks
      ensures SockOk(q, x)
    {
      SameOk(p, q, x);
    }
  }

  /** The state after a run; what is not enabled does not happen. */
  ghost function Exec(acts: seq<Action>): (q: Port)
    ensures Inv(q)
    decreases |acts|
  {
    if acts == [] then EmptyOk(); Empty
    else
      var p := Exec(acts[..|acts| - 1]);
      var a := acts[|acts| - 1];
      if Enabled(p, a) then Step(p, a) else p
  }

  // ---------- what holds after every run ----------

  /** Ownership: the live sockets are those in the tree and, apart from them, those in the deleted queue, each in
      one place; a live socket has one outstanding request, or none if it is idle or the port has been closed; and
      no request is outstanding for memory that has been freed. */
  lemma {:induction false} Ownership(acts: seq<Action>)
    ensures var p := Exec(acts);
            && p.socks.Keys == p.tree.Values + (set s | s in p.deleted)
            && |p.socks| == |p.tree| + |p.deleted|
            && (forall s | s in p.updates :: s in p.tree.Values)
            && (forall s | s in p.socks :: Outstanding(p, s))
            && (forall s | s in p.kernel + p.fetched :: s in p.socks)
            && (p.open ==> forall s | s in p.deleted :: Tokens(p, s) == 1)
  {
    hide UpdateAll, FeedAll, CtlAdd, CtlMod, CtlDel;
    Owned(Exec(acts));
  }

  lemma {:induction false} Owned(p: Port)
    requires Inv(p)
    ensures p.socks.Keys == p.tree.Values + (set s | s in p.deleted)
    ensures |p.socks| == |p.tree| + |p.deleted|
    ensures forall s | s in p.updates :: s in p.tree.Values
    ensures forall s | s in p.socks :: Outstanding(p, s)
    ensures forall s | s in p.kernel + p.fetched :: s in p.socks
    ensures p.open ==> forall s | s in p.deleted :: Tokens(p, s) == 1
  {
    hide SlotsOk, AfdEvents, Covered, Once;
    assert forall s | s in p.socks :: SockOk(p, s);
    forall s | s in p.socks
      ensures s in p.tree.Values || s in p.deleted
    {
      assert !p.socks[s].deletePending ==> p.tree[p.socks[s].key] in p.tree.Values;
    }
    forall s | s in p.updates
      ensures s in p.tree.Values
    {
      assert p.tree[p.socks[s].key] in p.tree.Values;
    }
    InOnePlace(p);
  }

  lemma {:induction false} InOnePlace(p: Port)
    requires RefsOk(p) && p.socks.Keys == p.tree.Values + (set s | s in p.deleted)
    ensures |p.socks| == |p.tree| + |p.deleted|
  {
    EachOnce(p.deleted);
    EachValueOnce(p.tree);
    assert p.tree.Values !! (set s | s in p.deleted);
    assert |p.socks| == |p.socks.Keys|;
  }

  lemma {:induction false} EachOnce<T>(s: seq<T>)
    requires Once(s)
    ensures |set x | x in s| == |s|
  {
    if s != [] {
      var rest := s[1..];
      assert s == [s[0]] + rest;
      assert multiset(s) == multiset{s[0]} + multiset(rest);
      assert forall x | x in rest :: x in s && multiset(rest)[x] > 0;
      EachOnce(rest);
      assert (set x | x in s) == {s[0]} + (set x | x in rest);
    }
  }

  lemma {:induction false} EachValueOnce(m: map<nat, SockState>)
    requires forall j, k | j in m && k in m && m[j] == m[k] :: j == k
    ensures |m.Values| == |m|
    decreases |m|
  {
    if m != map[] {
      var k :| k in m;
      var rest := m - {k};
      EachValueOnce(rest);
      assert m.Keys == rest.Keys + {k};
      assert m.Values == rest.Values + {m[k]};
      assert m[k] !in rest.Values;
    } else {
      assert m.Values == {};
    }
  }

  /** Whatever batch of fetched completions a thread feeds, and whatever the others did in between: no
      completion points at a freed socket. */
  lemma {:induction false} CompletionsAreSafe(acts: seq<Action>, batch: seq<(SockState, Completion)>)
    ensures Fed(batch) <= Exec(acts).fetched ==> FeedAll(Exec(acts), batch).Some?
  {
    if Fed(batch) <= Exec(acts).fetched {
      FeedAllKeeps(Exec(acts), batch);
    }
  }

  /** The poll groups after any run: full ones first, each as large as the number of live sockets that point at
      it, as many slots in use as there are live sockets, and no more groups than the peak load needs. */
  lemma {:induction false} GroupsAreTight(acts: seq<Action>)
    ensures var p := Exec(acts);
            && Ordered(p.groups.order)
            && (forall x | x in p.groups.order :: x.size == |Members(p, x.group)| <= MAX_GROUP_SIZE)
            && Total(p.groups.order) == |p.socks|
            && |p.groups.order| <= (p.groups.peak + MAX_GROUP_SIZE - 1) / MAX_GROUP_SIZE
  {
    var p := Exec(acts);
    TotalMembers(p, p.groups.order);
    assert Pointing(p, p.groups.order) == p.socks.Keys;
    forall x | x in p.groups.order
      ensures x.size <= MAX_GROUP_SIZE
    {
    }
  }

  ghost function Pointing(p: Port, order: seq<Slots>): set<SockState> {
    set s | s in p.socks && Copies(order, p.socks[s].group) > 0
  }

  lemma {:induction false} TotalMembers(p: Port, order: seq<Slots>)
    requires forall x | x in order :: x.size == |Members(p, x.group)| && Copies(order, x.group) == 1
    ensures Total(order) == |Pointing(p, order)|
  {
    if order == [] {
      assert Pointing(p, order) == {};
    } else {
      var x, rest := order[0], order[1..];
      forall y | y in rest
        ensures Copies(rest, y.group) == 1
      {
        CopiesIn(rest, y.group);
        assert y in order;
      }
      TotalMembers(p, rest);
      CopiesIn(rest, x.group);
      assert x in order;
      assert Pointing(p, order) == Members(p, x.group) + Pointing(p, rest);
      assert Members(p, x.group) !! Pointing(p, rest);
    }
  }
}
