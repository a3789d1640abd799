/** The objects of an epoll port, updated in place the way the C code does it.

    Each method is proved to change the port as the function of the same name in `PortModel`
    or `PortRuns` says, so what those modules prove of runs holds of the objects.  The port's
    tree and queues are a map and sequences here; that the pointer structures behave like
    these is what `RedBlackTree` and `Queue` prove. */
module EpollPort {
  import opened Basics
  import opened Queue
  import opened PortModel
  import opened PortInvariant
  import opened PortRuns
  import opened PortClosing

  function Rec(s: SockState): Sock
    reads s
  {
    Sock(s.key, s.group, s.userData, s.userEvents, s.pendingEvents, s.requested, s.status, s.deletePending)
  }

  /** `port_state_t`, and as a ghost field the state it stands for, requests included. */
  class PortState {
    var tree: map<nat, SockState>
    var updates: seq<SockState>
    var deleted: seq<SockState>
    var groups: seq<PollGroup>
    var polls: nat
    var open: bool
    ghost var st: Port

    ghost predicate Valid()
      reads this, st.socks.Keys, groups
    {
      && tree == st.tree && updates == st.updates && deleted == st.deleted && polls == st.polls && open == st.open
      && (forall s | s in st.socks :: Rec(s) == st.socks[s])
      && Groups(groups, st.groups.order)
    }

    static ghost predicate Groups(groups: seq<PollGroup>, order: seq<Slots>)
      reads groups
    {
      && |groups| == |order|
      && (forall i :: 0 <= i < |groups| ==> order[i] == Slots(groups[i], groups[i].size))
    }

    /** `Valid` but for the fields of one socket. */
    ghost predicate ValidBut(s: SockState)
      reads this, st.socks.Keys, groups
    {
      && tree == st.tree && updates == st.updates && deleted == st.deleted && polls == st.polls && open == st.open
      && (forall x | x in st.socks && x != s :: Rec(x) == st.socks[x])
      && Groups(groups, st.groups.order)
    }

    /** Bring the ghost state up to date with the fields of `s`. */
    ghost method Note(s: SockState)
      requires ValidBut(s) == true
      modifies this`st
      ensures Valid() == true && st == Put(old(st), s, Rec(s))
    {
      st := Put(st, s, Rec(s));
    }

    /** `port_new` */
    constructor ()
      ensures Valid() == true && st == Empty
    {
      tree, updates, deleted, groups, polls, open := map[], [], [], [], 0, true;
      st := Empty;
    }

    /** `port_request_socket_update` */
    method RequestUpdate(s: SockState)
      requires Valid() == true
      modifies this`updates, this`st
      ensures Valid() == true && st == PortModel.RequestUpdate(old(st), s)
    {
      st := PortModel.RequestUpdate(st, s);
      if s in updates || s in deleted {
        return;
      }
      updates := updates + [s];
    }

    /** `port_add_deleted_socket` */
    method AddDeleted(s: SockState)
      requires Valid() == true
      modifies this`deleted, this`st
      ensures Valid() == true && st == PortModel.AddDeleted(old(st), s)
    {
      st := PortModel.AddDeleted(st, s);
      if s in updates || s in deleted {
        return;
      }
      deleted := deleted + [s];
    }

    /** `port_cancel_socket_update`, `port_remove_deleted_socket` */
    method OffQueues(s: SockState)
      requires Valid() == true
      modifies this`updates, this`deleted, this`st
      ensures Valid() == true && st == PortModel.OffQueues(old(st), s)
    {
      st := PortModel.OffQueues(st, s);
      updates, deleted := Minus(updates, s), Minus(deleted, s);
    }

    /** `sock__cancel_poll` */
    method CancelPoll(s: SockState, cancels: bool) returns (ok: bool)
      requires Valid() == true && s in st.socks && s.status == Pending
      modifies this`st, s`status, s`pendingEvents
      ensures Valid() == true && ok == cancels && st == PortModel.CancelPoll(old(st), s, cancels)
    {
      if !cancels {
        return false;
      }
      s.status := Cancelled;
      s.pendingEvents := 0;
      Note(s);
      return true;
    }

    /** `sock_set_event` */
    method SetEvent(s: SockState, events: bv32, data: nat)
      requires Valid() == true && s in st.socks
      modifies this`updates, this`st, s`userEvents, s`userData
      ensures Valid() == true && st == PortModel.SetEvent(old(st), s, events, data)
    {
      s.userEvents := events | EPOLLERR | EPOLLHUP;
      s.userData := data;
      Note(s);
      if !Covered(s.userEvents, s.pendingEvents) {
        RequestUpdate(s);
      }
    }

    /** `poll_group_release` */
    method Release(group: PollGroup)
      requires Valid() == true && Copies(st.groups.order, group) == 1
      modifies this`groups, this`st, group`size
      ensures Valid() == true && st == old(st).(groups := PortModel.Release(old(st).groups, group))
    {
      ghost var order := st.groups.order;
      DropMinus(groups, order, group);
      group.size := group.size - 1;
      groups := Minus(groups, group) + [group];
      st := st.(groups := PortModel.Release(st.groups, group));
      assert Groups(groups, st.groups.order);
    }

    /** `poll_group_acquire`; `made` is the group `poll_group__new` comes up with, if it does. */
    method Acquire(made: PollGroup?) returns (r: PollGroup?)
      requires Valid() == true && GroupsOk(st.groups)
      requires made != null ==> made.size == 0 && made !in groups
      modifies this`groups, this`st, made, groups
      ensures Valid() == true
      ensures r == AsGroup(PortModel.Acquire(old(st).groups, AsOption(made)).1)
      ensures st == old(st).(groups := PortModel.Acquire(old(st).groups, AsOption(made)).0)
    {
      hide GroupsOk, PortModel.Acquire;
      r := TakeSlot(made, st.groups);
      st := st.(groups := PortModel.Acquire(st.groups, AsOption(made)).0);
    }

    method TakeSlot(made: PollGroup?, ghost g: PortModel.Groups) returns (r: PollGroup?)
      requires Groups(groups, g.order) && GroupsOk(g)
      requires made != null ==> made.size == 0 && made !in groups
      modifies this`groups, made, groups
      ensures Groups(groups, PortModel.Acquire(g, AsOption(made)).0.order) == true
      ensures r == AsGroup(PortModel.Acquire(g, AsOption(made)).1)
    {
      LastOnce(groups, g.order);
      r := if groups != [] then groups[|groups| - 1] else null;
      if r == null || r.size >= MAX_GROUP_SIZE {
        r := made;
        if r != null {
          assert (groups + [r])[..|groups|] == groups;
          groups := groups + [r];
          Grow(r, g.order, g.peak);
        }
      } else {
        Grow(r, g.order[..|g.order| - 1], g.peak);
      }
    }

    /** The end of `poll_group_acquire`: one more slot of the last group. */
    method Grow(r: PollGroup, ghost rest: seq<Slots>, ghost peak: int)
      requires groups != [] && groups[|groups| - 1] == r && r !in groups[..|groups| - 1]
      requires Groups(groups[..|groups| - 1], rest)
      modifies this`groups, r`size
      ensures Groups(groups, Take(rest, Slots(r, old(r.size)), peak).order)
    {
      ghost var open := groups[..|groups| - 1];
      assert groups == open + [r];
      MinusSplit(open, r);
      r.size := r.size + 1;
      if r.size == MAX_GROUP_SIZE {
        groups := [r] + Minus(groups, r);
      }
    }

    /** `port_unregister_socket`, and the flag that says so. */
    method LeaveTree(s: SockState)
      requires Valid() == true && s in st.socks
      modifies this`tree, this`st, s`deletePending
      ensures Valid() == true && st == PortInvariant.LeaveTree(old(st), s)
    {
      tree := tree - {s.key};
      st := st.(tree := st.tree - {s.key});
      s.deletePending := true;
      Note(s);
    }

    /** The first half of `sock__delete`. */
    method Unregister(s: SockState, cancels: bool)
      requires Valid() == true && s in st.socks
      modifies this`tree, this`updates, this`deleted, this`st, s`status, s`pendingEvents, s`deletePending
      ensures Valid() == true && st == PortModel.Unregister(old(st), s, cancels)
    {
      if s.status == Pending {
        var _ := CancelPoll(s, cancels);
      }
      OffQueues(s);
      LeaveTree(s);
    }

    /** Giving the slot back and freeing the memory. */
    method Free(s: SockState)
      requires Valid() == true && s in st.socks && Copies(st.groups.order, s.group) == 1
      modifies this`updates, this`deleted, this`groups, this`st, s.group`size
      ensures Valid() == true && st == PortModel.Free(old(st), s)
    {
      OffQueues(s);
      Release(s.group);
      st := st.(socks := st.socks - {s});
    }

    /** `sock__delete` */
    method Delete(s: SockState, force: bool, cancels: bool)
      requires Valid() == true && s in st.socks && Copies(st.groups.order, s.group) == 1
      modifies this, s, s.group
      ensures Valid() == true && st == PortModel.Delete(old(st), s, force, cancels)
    {
      if !s.deletePending {
        Unregister(s, cancels);
      }
      if force || s.status == Idle {
        Free(s);
      } else {
        AddDeleted(s);
      }
    }

    /** `sock_new`; `s` is the memory `malloc` returns, if it does. */
    method New(s: SockState, key: nat, base: bool, made: PollGroup?, alloc: bool) returns (ok: bool)
      requires Valid() == true && GroupsOk(st.groups) && s !in st.socks
      requires made != null ==> made.size == 0 && made !in groups
      modifies this, made, groups, s
      ensures Valid() == true
      ensures (st, ok) == PortModel.New(old(st), s, key, base, AsOption(made), alloc)
    {
      if key == 0 || key == INVALID_SOCKET {
        return false;
      }
      if !base {
        return false;
      }
      Acquired(st.groups, groups, made);
      var group := Acquire(made);
      if group == null {
        return false;
      }
      if !alloc || key in tree {
        Release(group);
        return false;
      }
      Register(s, key, group);
      return true;
    }

    /** The fields of a new socket, and `port_register_socket`. */
    method Register(s: SockState, key: nat, group: PollGroup)
      requires Valid() == true && s !in st.socks && key !in tree
      modifies this`tree, this`st, s
      ensures Valid() == true
      ensures st == old(st).(tree := old(st).tree[key := s],
                             socks := old(st).socks[s := Sock(key, group, 0, 0, 0, 0, Idle, false)])
    {
      s.Clear(key, group);
      tree := tree[key := s];
      st := st.(tree := st.tree[key := s]);
      Note(s);
    }

    /** `sock_update`, which asserts that the socket is not being deleted */
    method Update(s: SockState, a: Answer) returns (ok: bool)
      requires Valid() == true && s in st.socks && !s.deletePending && Copies(st.groups.order, s.group) == 1
      modifies this, s, s.group
      ensures Valid() == true && (st, ok) == PortModel.Update(old(st), s, a)
    {
      if s.status == Idle {
        ok := Submit(s, a);
        return;
      }
      if s.status == Pending && !Covered(s.userEvents, s.pendingEvents) {
        ok := CancelPoll(s, a.cancels);
        if !ok {
          return;
        }
      }
      OffQueues(s);
      return true;
    }

    /** `sock_update` for a socket without a request. */
    method Submit(s: SockState, a: Answer) returns (ok: bool)
      requires Valid() == true && s in st.socks && Copies(st.groups.order, s.group) == 1 && s.status == Idle
      modifies this, s, s.group
      ensures Valid() == true && (st, ok) == PortModel.Update(old(st), s, a)
    {
      s.requested := AfdEvents(s.userEvents);
      Note(s);
      match a.submit {
        case SocketClosed =>
          Delete(s, false, a.cancels);
          return true;
        case Refused =>
          return false;
        case Accepted =>
          Submitted(s);
          return true;
      }
    }

    /** A request that has been accepted. */
    method Submitted(s: SockState)
      requires Valid() == true && s in st.socks
      modifies this`st, this`updates, this`deleted, s`status, s`pendingEvents
      ensures Valid() == true
      ensures var p :=
              Put(old(st), s, old(st).socks[s].(status := Pending, pendingEvents := old(st).socks[s].userEvents));
              st == PortModel.OffQueues(p.(kernel := p.kernel + multiset{s}), s)
    {
      hide PortModel.OffQueues, Groups;
      s.status := Pending;
      s.pendingEvents := s.userEvents;
      Note(s);
      st := st.(kernel := st.kernel + multiset{s});
      OffQueues(s);
    }

    /** `sock_feed_event` */
    method Feed(s: SockState, c: Completion) returns (e: Option<Event>)
      requires Valid() == true && s in st.socks && Copies(st.groups.order, s.group) == 1
      modifies this, s, s.group
      ensures Valid() == true
      ensures (st, e) == PortModel.Feed(old(st), s, c)
    {
      hide PortModel.Feed, PortModel.Delete, PortModel.Report, PortModel.RequestUpdate;
      Consume(s);
      ghost var p := st;
      FeedSteps(old(st), p, s, c);
      if s.deletePending || Closed(c) {
        Delete(s, false, false);
        return None;
      }
      e := Stay(s, c);
    }

    /** `sock_feed_event` for a socket that is neither deleted nor closed */
    method Stay(s: SockState, c: Completion) returns (e: Option<Event>)
      requires Valid() == true && s in st.socks
      modifies this`updates, this`st, s`userEvents
      ensures Valid() == true
      ensures (st, e) == PortModel.Report(PortModel.RequestUpdate(old(st), s), s,
                                          ReportedEvents(c) & old(st).socks[s].userEvents)
    {
      hide PortModel.Report, Groups;
      RequestUpdate(s);
      e := Report(s, ReportedEvents(c) & s.userEvents);
    }

    /** The request is used up. */
    method Consume(s: SockState)
      requires Valid() == true && s in st.socks
      modifies this`st, s`status, s`pendingEvents
      ensures Valid() == true && st == PortModel.Consume(old(st), s)
    {
      s.status := Idle;
      s.pendingEvents := 0;
      Note(s);
      st := st.(fetched := st.fetched - multiset{s});
    }

    /** The end of `sock_feed_event`. */
    method Report(s: SockState, events: bv32) returns (e: Option<Event>)
      requires Valid() == true && s in st.socks
      modifies this`st, s`userEvents
      ensures Valid() == true && (st, e) == PortModel.Report(old(st), s, events)
    {
      if events == 0 {
        return None;
      }
      if s.userEvents & EPOLLONESHOT != 0 {
        s.userEvents := 0;
        Note(s);
      }
      return Some(Event(events, s.userData));
    }

    /** `port__update_events` */
    method UpdateEvents(env: SockState -> Answer) returns (ok: bool)
      requires Valid() == true && Inv(st) == true
      modifies this, st.socks.Keys, GroupSet(st.groups.order)
      ensures Valid() == true && (st, ok) == UpdateAll(old(st), env)
    {
      while updates != []
        invariant Valid() == true && Inv(st) == true
        invariant st.socks.Keys <= old(st.socks.Keys) && GroupSet(st.groups.order) == old(GroupSet(st.groups.order))
        invariant UpdateAll(st, env) == UpdateAll(old(st), env)
        decreases |updates|
      {
        ok := UpdateFirst(env(updates[0]), env);
        if !ok {
          return;
        }
      }
      return true;
    }

    /** One round of the loop: what is left to do is the same as before, but less. */
    method UpdateFirst(a: Answer, ghost env: SockState -> Answer) returns (ok: bool)
      requires Valid() == true && Inv(st) == true && updates != [] && a == env(updates[0])
      modifies this, st.socks.Keys, GroupSet(st.groups.order)
      ensures Valid() == true && Inv(st) == true
      ensures st.socks.Keys <= old(st.socks.Keys) && GroupSet(st.groups.order) == old(GroupSet(st.groups.order))
      ensures UpdateAll(old(st), env) == if ok then UpdateAll(st, env) else (st, false)
      ensures ok ==> |updates| < |old(updates)|
    {
      UpdateAllStep(st, env);
      var s := updates[0];
      Holding(st, s);
      UpdateFrame(st, s, a);
      Undeleted(st);
      ok := Update(s, a);
    }

    /** `port__feed_events` */
    method FeedEvents(batch: seq<(SockState, Completion)>) returns (events: seq<Event>)
      requires Valid() == true && Inv(st) == true && Fed(batch) <= st.fetched
      modifies this, st.socks.Keys, GroupSet(st.groups.order)
      ensures Valid() == true && FeedAll(old(st), batch) == Some((st, events))
    {
      ghost var all := RemainsAll(st, batch);
      events := FeedLoop(batch, all);
      RemainsNone(st, events, all);
    }

    method FeedLoop(batch: seq<(SockState, Completion)>, ghost all: Option<(Port, seq<Event>)>)
      returns (events: seq<Event>)
      requires Valid() == true && Inv(st) == true && Fed(batch) <= st.fetched
      requires Remains(st, batch, [], all) == true
      modifies this, st.socks.Keys, GroupSet(st.groups.order)
      ensures Valid() == true && Inv(st) == true && Remains(st, [], events, all) == true
    {
      events := [];
      var rest := batch;
      while rest != []
        invariant Valid() == true && Inv(st) == true && Fed(rest) <= st.fetched
        invariant st.socks.Keys <= old(st.socks.Keys) && GroupSet(st.groups.order) == old(GroupSet(st.groups.order))
        invariant Remains(st, rest, events, all) == true
        decreases |rest|
      {
        var e := FeedFirst(rest, events, all);
        rest := rest[1..];
        events := events + Listed(e);
      }
    }

    /** One round of the loop; an event that is reported goes into the next free slot. */
    method FeedFirst(batch: seq<(SockState, Completion)>, ghost events: seq<Event>,
            ghost all: Option<(Port, seq<Event>)>)
      returns (e: Option<Event>)
      requires Valid() == true && Inv(st) == true && Fed(batch) <= st.fetched && batch != []
      requires Remains(st, batch, events, all) == true
      modifies this, st.socks.Keys, GroupSet(st.groups.order)
      ensures Valid() == true && Inv(st) == true && Fed(batch[1..]) <= st.fetched
      ensures st.socks.Keys <= old(st.socks.Keys) && GroupSet(st.groups.order) == old(GroupSet(st.groups.order))
      ensures Remains(st, batch[1..], events + Listed(e), all) == true
    {
      var s, c := batch[0].0, batch[0].1;
      RemainsStep(st, batch, events, all);
      Holding(st, s);
      FeedFrame(st, s, c);
      e := Feed(s, c);
    }

    /** `port__update_events_if_polling` */
    method UpdateIfPolling(env: SockState -> Answer)
      requires Valid() == true && Inv(st) == true
      modifies this, st.socks.Keys, GroupSet(st.groups.order)
      ensures Valid() == true && st == PortRuns.UpdateIfPolling(old(st), env)
    {
      if polls > 0 {
        var _ := UpdateEvents(env);
      }
    }

    /** `port__ctl_add`; memory and the group that may be made are fresh. */
    method CtlAdd(s: SockState, key: nat, base: bool, made: PollGroup?, alloc: bool,
                  events: bv32, data: nat, env: SockState -> Answer) returns (ok: bool)
      requires Valid() == true && Inv(st) == true && s !in st.socks
      requires made != null ==> made.size == 0 && Copies(st.groups.order, made) == 0
      modifies this, s, made, st.socks.Keys, GroupSet(st.groups.order)
      ensures Valid() == true
      ensures (st, ok) == PortRuns.CtlAdd(old(st), s, key, base, AsOption(made), alloc, events, data, env)
    {
      ghost var p1, ok1 := AddStep(st, s, key, base, AsOption(made), alloc, events, data, env);
      ok := CtlAddTo(s, key, base, made, alloc, events, data, env, p1, ok1);
    }

    method CtlAddTo(s: SockState, key: nat, base: bool, made: PollGroup?, alloc: bool,
                    events: bv32, data: nat, env: SockState -> Answer, ghost p1: Port, ghost ok1: bool)
      returns (ok: bool)
      requires Valid() == true && GroupsOk(st.groups) == true && s !in st.socks
      requires made != null ==> made.size == 0 && Copies(st.groups.order, made) == 0
      requires IsNew(st, s, key, base, made, alloc, p1, ok1) == true
      requires p1.socks.Keys <= st.socks.Keys + {s}
      requires GroupSet(p1.groups.order) <= GroupSet(st.groups.order) + (if made != null then {made} else {})
      requires ok1 ==> s in p1.socks && Inv(PortModel.SetEvent(p1, s, events, data)) == true
      modifies this, s, made, st.socks.Keys, GroupSet(st.groups.order)
      ensures Valid() == true && ok == ok1
      ensures st == if ok1 then PortRuns.UpdateIfPolling(PortModel.SetEvent(p1, s, events, data), env) else p1
    {
      ok := NewTo(s, key, base, made, alloc, p1, ok1);
      if ok {
        SetInterest(s, events, data, env);
      }
    }

    method NewTo(s: SockState, key: nat, base: bool, made: PollGroup?, alloc: bool, ghost p1: Port, ghost ok1: bool)
      returns (ok: bool)
      requires Valid() == true && GroupsOk(st.groups) == true && s !in st.socks
      requires made != null ==> made.size == 0 && Copies(st.groups.order, made) == 0
      requires IsNew(st, s, key, base, made, alloc, p1, ok1) == true
      modifies this, made, groups, s
      ensures Valid() == true && st == p1 && ok == ok1
    {
      Unlisted(st.groups.order, made);
      ok := New(s, key, base, made, alloc);
    }

    method SetInterest(s: SockState, events: bv32, data: nat, env: SockState -> Answer)
      requires Valid() == true && s in st.socks && Inv(PortModel.SetEvent(st, s, events, data)) == true
      modifies this, st.socks.Keys, GroupSet(st.groups.order)
      ensures Valid() == true && st == PortRuns.UpdateIfPolling(PortModel.SetEvent(old(st), s, events, data), env)
    {
      SetEvent(s, events, data);
      UpdateIfPolling(env);
    }

    /** `port__ctl_mod` */
    method CtlMod(key: nat, events: bv32, data: nat, env: SockState -> Answer) returns (ok: bool)
      requires Valid() == true && Inv(st) == true
      modifies this, st.socks.Keys, GroupSet(st.groups.order)
      ensures Valid() == true && (st, ok) == PortRuns.CtlMod(old(st), key, events, data, env)
    {
      if key !in tree {
        return false;
      }
      var s := tree[key];
      RegisteredDeletable(st, key);
      SetEventKeeps(st, s, events, data);
      SetInterest(s, events, data, env);
      return true;
    }

    /** `port__ctl_del` */
    method CtlDel(key: nat, cancels: bool) returns (ok: bool)
      requires Valid() == true && Inv(st) == true
      modifies this, st.socks.Keys, GroupSet(st.groups.order)
      ensures Valid() == true && (st, ok) == PortRuns.CtlDel(old(st), key, cancels)
    {
      if key !in tree {
        return false;
      }
      var s := tree[key];
      RegisteredDeletable(st, key);
      Holding(st, s);
      Delete(s, false, cancels);
      return true;
    }

    /** `port__poll` up to the point where it lets go of the lock */
    method BeginPoll(env: SockState -> Answer) returns (ok: bool)
      requires Valid() == true && Inv(st) == true
      modifies this, st.socks.Keys, GroupSet(st.groups.order)
      ensures Valid() == true && (st, ok) == PortRuns.BeginPoll(old(st), env)
    {
      ok := UpdateEvents(env);
      if ok {
        CountPoll(polls + 1);
      }
    }

    method CountPoll(n: nat)
      requires Valid() == true && Inv(st) == true
      modifies this`polls, this`st
      ensures Valid() == true && st == PortRuns.CountPoll(old(st), n)
    {
      hide Inv, Groups;
      polls := n;
      st := st.(polls := n);
    }

    /** The rest of `port__poll`, with what the system has handed out */
    method EndPoll(batch: seq<(SockState, Completion)>) returns (events: seq<Event>)
      requires Valid() == true && Inv(st) == true && polls > 0 && Fed(batch) <= st.fetched
      modifies this, st.socks.Keys, GroupSet(st.groups.order)
      ensures Valid() == true && (st, events) == PortRuns.EndPoll(old(st), batch)
    {
      ghost var p1 := EndStep(st, batch);
      CountPoll(polls - 1);
      events := FeedEvents(batch);
    }

    /** `port_close`; the threads that hold a reference can go on. */
    method Close()
      requires Valid() == true && Inv(st) == true && open
      modifies this`open, this`st
      ensures Valid() == true && st == PortRuns.ClosePort(old(st)) && !open
    {
      hide Inv, Groups;
      open := false;
      st := PortRuns.ClosePort(st);
    }

    /** `port_delete`, which asserts that the port has been closed, from any state: it ends, every socket is freed, no
        group is in use when it is freed, and nothing is left in the update queue. */
    method DeletePort(cancels: SockState -> bool)
      requires Valid() == true && Inv(st) == true && !open
      modifies this, st.socks.Keys, GroupSet(st.groups.order)
      ensures st.socks == map[] && tree == map[] && updates == [] && deleted == [] && groups == []
    {
      CanClose(st);
      while tree != map[]
        invariant Valid() == true && Closing(st) == true
        invariant st.socks.Keys <= old(st.socks.Keys) && GroupSet(st.groups.order) == old(GroupSet(st.groups.order))
        decreases st.socks.Keys
      {
        var key :| key in tree;
        ForceDelete(tree[key], cancels(tree[key]));
      }
      while deleted != []
        invariant Valid() == true && Closing(st) == true && tree == map[]
        invariant st.socks.Keys <= old(st.socks.Keys) && GroupSet(st.groups.order) == old(GroupSet(st.groups.order))
        decreases st.socks.Keys
      {
        ForceDelete(deleted[0], cancels(deleted[0]));
      }
      NothingLeft(st);
      DeleteGroups();
    }

    /** `sock_force_delete` */
    method ForceDelete(s: SockState, cancels: bool)
      requires Valid() == true && Closing(st) == true && s in st.socks
      modifies this, s, GroupSet(st.groups.order)
      ensures Valid() == true && Closing(st) == true
      ensures st.socks.Keys == old(st.socks.Keys) - {s} && GroupSet(st.groups.order) == old(GroupSet(st.groups.order))
      ensures old(tree) == map[] ==> tree == map[]
    {
      Holding(st, s);
      ForceKeeps(st, s, cancels);
      ForceFrame(st, s, cancels);
      Delete(s, true, cancels);
    }

    /** The loop over `poll_group_delete` */
    method DeleteGroups()
      requires Valid() == true && (forall x | x in st.groups.order :: x.size == 0)
      modifies this`groups, this`st
      ensures groups == [] && st == old(st).(groups := st.groups)
    {
      while groups != []
        invariant Groups(groups, st.groups.order) && st == old(st).(groups := st.groups)
        invariant forall x | x in st.groups.order :: x.size == 0
        decreases |groups|
      {
        assert st.groups.order[0] in st.groups.order;
        assert groups[0].size == 0;
        groups := groups[1..];
        st := st.(groups := st.groups.(order := st.groups.order[1..]));
      }
    }
  }

  lemma {:induction false} EndStep(p: Port, batch: seq<(SockState, Completion)>) returns (p1: Port)
    requires Inv(p) == true && p.polls > 0 && Fed(batch) <= p.fetched
    ensures p1 == PortRuns.CountPoll(p, p.polls - 1) && FeedAll(p1, batch) == Some(PortRuns.EndPoll(p, batch))
  {
    p1 := PortRuns.CountPoll(p, p.polls - 1);
    FeedAllKeeps(p1, batch);
  }

  lemma {:induction false} AddStep(p: Port, s: SockState, key: nat, base: bool, made: Option<PollGroup>, alloc: bool,
                                   events: bv32, data: nat, env: SockState -> Answer) returns (p1: Port, ok: bool)
    requires Inv(p) == true && s !in p.socks && (made.Some? ==> Copies(p.groups.order, made.value) == 0)
    ensures (p1, ok) == PortModel.New(p, s, key, base, made, alloc)
    ensures p1.socks.Keys <= p.socks.Keys + {s}
    ensures GroupSet(p1.groups.order) <= GroupSet(p.groups.order) + (if made.Some? then {made.value} else {})
    ensures ok ==> s in p1.socks && Inv(PortModel.SetEvent(p1, s, events, data)) == true
    ensures PortRuns.CtlAdd(p, s, key, base, made, alloc, events, data, env)
         == if ok then (PortRuns.UpdateIfPolling(PortModel.SetEvent(p1, s, events, data), env), true) else (p1, false)
  {
    NewKeeps(p, s, key, base, made, alloc);
    NewFrame(p, s, key, base, made, alloc);
    p1, ok := PortModel.New(p, s, key, base, made, alloc).0, PortModel.New(p, s, key, base, made, alloc).1;
    if ok {
      SetEventKeeps(p1, s, events, data);
    }
  }

  ghost predicate IsNew(p: Port, s: SockState, key: nat, base: bool, made: PollGroup?, alloc: bool, p1: Port,
          ok: bool)
  {
    (p1, ok) == PortModel.New(p, s, key, base, AsOption(made), alloc)
  }

  lemma {:induction false} Unlisted(order: seq<Slots>, made: PollGroup?)
    requires made != null ==> Copies(order, made) == 0
    ensures made != null ==> forall x | x in order :: x.group != made
  {
    if made != null {
      CopiesIn(order, made);
    }
  }

  lemma {:induction false} NewFrame(p: Port, s: SockState, key: nat, base: bool, made: Option<PollGroup>, alloc: bool)
    requires Inv(p) == true && s !in p.socks && (made.Some? ==> Copies(p.groups.order, made.value) == 0)
    ensures var p' := PortModel.New(p, s, key, base, made, alloc).0;
            && p'.socks.Keys <= p.socks.Keys + {s}
            && GroupSet(p'.groups.order) <= GroupSet(p.groups.order) + (if made.Some? then {made.value} else {})
  {
    forall g | g in GroupSet(PortModel.New(p, s, key, base, made, alloc).0.groups.order)
      ensures g in GroupSet(p.groups.order) + (if made.Some? then {made.value} else {})
    {
      NewGroup(p, s, key, base, made, alloc, g);
    }
  }

  lemma {:induction false} NewGroup(p: Port, s: SockState, key: nat, base: bool, made: Option<PollGroup>, alloc: bool,
          g: PollGroup)
    requires Inv(p) == true && (made.Some? ==> Copies(p.groups.order, made.value) == 0)
    requires g in GroupSet(PortModel.New(p, s, key, base, made, alloc).0.groups.order)
    ensures g in GroupSet(p.groups.order) || made == Some(g)
  {
    var (acquired, r) := PortModel.Acquire(p.groups, made);
    CopiesIn(PortModel.New(p, s, key, base, made, alloc).0.groups.order, g);
    CopiesIn(p.groups.order, g);
    AcquireCounts(p.groups, made, g);
    AcquireKeeps(p.groups, made);
    if r.Some? {
      AcquireCounts(p.groups, made, r.value);
      ReleaseCounts(acquired, r.value, g);
    }
  }

  lemma {:induction false} ForceFrame(p: Port, s: SockState, cancels: bool)
    requires s in p.socks && Copies(p.groups.order, p.socks[s].group) == 1
    ensures var p' := PortModel.Delete(p, s, true, cancels);
            && GroupSet(p'.groups.order) == GroupSet(p.groups.order)
            && (p.tree == map[] ==> p'.tree == map[])
  {
    ReleaseGroups(p.groups, p.socks[s].group);
  }

  /** The assertion of `sock_update`: nothing in the update queue is being deleted. */
  lemma {:induction false} Undeleted(p: Port)
    requires Inv(p) == true
    ensures forall s | s in p.updates :: s in p.socks && !p.socks[s].deletePending
  {
    hide SlotsOk, SockOk;
  }

  /** With the events reported so far, feeding the rest of a batch comes to `all`. */
  ghost predicate Remains(p: Port, rest: seq<(SockState, Completion)>, events: seq<Event>,
          all: Option<(Port, seq<Event>)>)
  {
    After(events, FeedAll(p, rest)) == all
  }

  lemma {:induction false} RemainsAll(p: Port, batch: seq<(SockState, Completion)>)
    returns (all: Option<(Port, seq<Event>)>)
    ensures all == FeedAll(p, batch) && Remains(p, batch, [], all) == true
  {
    all := FeedAll(p, batch);
    AfterNothing(all);
  }

  lemma {:induction false} RemainsNone(p: Port, events: seq<Event>, all: Option<(Port, seq<Event>)>)
    requires Remains(p, [], events, all) == true
    ensures all == Some((p, events))
  {
    assert events + [] == events;
  }

  lemma {:induction false} RemainsStep(p: Port, batch: seq<(SockState, Completion)>, events: seq<Event>,
          all: Option<(Port, seq<Event>)>)
    requires Inv(p) == true && Fed(batch) <= p.fetched && batch != []
    requires Remains(p, batch, events, all) == true
    ensures batch[0].0 in p.socks
    ensures var (p', e) := PortModel.Feed(p, batch[0].0, batch[0].1);
            && Inv(p') == true && Fed(batch[1..]) <= p'.fetched
            && Remains(p', batch[1..], events + Listed(e), all) == true
  {
    var p', e := FeedNext(p, batch);
    AfterOne(events, e, FeedAll(p', batch[1..]));
  }

  lemma {:induction false} FeedFrame(p: Port, s: SockState, c: Completion)
    requires s in p.socks && Copies(p.groups.order, p.socks[s].group) == 1
    ensures var p' := PortModel.Feed(p, s, c).0;
            p'.socks.Keys <= p.socks.Keys && GroupSet(p'.groups.order) == GroupSet(p.groups.order)
  {
    var p1 := PortModel.Consume(p, s);
    FeedSteps(p, p1, s, c);
    if p1.socks[s].deletePending || Closed(c) {
      DeleteFrame(p1, s, false);
    } else {
      StayFrame(p1, s, c);
    }
  }

  lemma {:induction false} StayFrame(p: Port, s: SockState, c: Completion)
    requires s in p.socks
    ensures var p' := PortModel.Report(PortModel.RequestUpdate(p, s), s, ReportedEvents(c) & p.socks[s].userEvents).0;
            p'.socks.Keys == p.socks.Keys && p'.groups == p.groups
  {
  }

  ghost function GroupSet(order: seq<Slots>): set<PollGroup> {
    set x | x in order :: x.group
  }

  lemma {:induction false} ReleaseGroups(g: PortModel.Groups, n: PollGroup)
    requires Copies(g.order, n) == 1
    ensures GroupSet(PortModel.Release(g, n).order) == GroupSet(g.order)
  {
    var order := PortModel.Release(g, n).order;
    forall m | m in GroupSet(order) + GroupSet(g.order)
      ensures m in GroupSet(order) <==> m in GroupSet(g.order)
    {
      ReleaseCounts(g, n, m);
      CopiesIn(order, m);
      CopiesIn(g.order, m);
    }
  }

  lemma {:induction false} Holding(p: Port, s: SockState)
    requires SlotsOk(p) && s in p.socks
    ensures Copies(p.groups.order, p.socks[s].group) == 1 && p.socks[s].group in GroupSet(p.groups.order)
  {
    CopiesIn(p.groups.order, p.socks[s].group);
  }

  lemma {:induction false} DeleteFrame(p: Port, s: SockState, cancels: bool)
    requires s in p.socks && Copies(p.groups.order, p.socks[s].group) == 1
    ensures var p' := PortModel.Delete(p, s, false, cancels);
            p'.socks.Keys <= p.socks.Keys && GroupSet(p'.groups.order) == GroupSet(p.groups.order)
  {
    ReleaseGroups(p.groups, p.socks[s].group);
  }

  lemma {:induction false} UpdateFrame(p: Port, s: SockState, a: Answer)
    requires s in p.socks && Copies(p.groups.order, p.socks[s].group) == 1
    ensures var p' := PortModel.Update(p, s, a).0;
            p'.socks.Keys <= p.socks.Keys && GroupSet(p'.groups.order) == GroupSet(p.groups.order)
  {
    if p.socks[s].status.Idle? && a.submit == SocketClosed {
      DeleteFrame(Put(p, s, p.socks[s].(requested := AfdEvents(p.socks[s].userEvents))), s, a.cancels);
    }
  }

  lemma {:induction false} UpdateAllStep(p: Port, env: SockState -> Answer)
    requires Inv(p) == true && p.updates != []
    ensures p.updates[0] in p.socks
    ensures var (p', ok) := PortModel.Update(p, p.updates[0], env(p.updates[0]));
            && Inv(p') == true && UpdateAll(p, env) == (if ok then UpdateAll(p', env) else (p', false))
            && (ok ==> |p'.updates| < |p.updates|)
  {
    assert p.updates[0] in p.updates;
    UpdateKeeps(p, p.updates[0], env(p.updates[0]));
    UpdateShrinks(p, env(p.updates[0]));
  }

  lemma {:induction false} FeedSteps(p: Port, p1: Port, s: SockState, c: Completion)
    requires s in p.socks && p1 == PortModel.Consume(p, s)
    ensures PortModel.Feed(p, s, c)
         == if p1.socks[s].deletePending || Closed(c) then (PortModel.Delete(p1, s, false, false), None)
            else PortModel.Report(PortModel.RequestUpdate(p1, s), s, ReportedEvents(c) & p1.socks[s].userEvents)
  {
  }

  /** What holds of the group that `poll_group_acquire` returns. */
  lemma {:induction false} Acquired(g: PortModel.Groups, groups: seq<PollGroup>, made: PollGroup?)
    requires GroupsOk(g) && Ids(groups, g.order)
    requires made != null ==> made !in groups
    ensures var (g', r) := PortModel.Acquire(g, AsOption(made));
            r.Some? ==> Copies(g'.order, r.value) == 1
  {
    if made != null {
      CopiesIn(g.order, made);
      AcquireCounts(g, AsOption(made), made);
    }
    var r := PortModel.Acquire(g, AsOption(made)).1;
    if r.Some? {
      AcquireCounts(g, AsOption(made), r.value);
    }
  }

  /** The last group of the queue is in it once. */
  lemma {:induction false} LastOnce(groups: seq<PollGroup>, order: seq<Slots>)
    requires Ids(groups, order) && (forall x | x in order :: Copies(order, x.group) == 1)
    ensures groups != [] ==> groups[|groups| - 1] !in groups[..|groups| - 1]
  {
    if groups != [] {
      var m := |groups| - 1;
      assert order[m] in order && order == order[..m] + [order[m]];
      PortModel.Append(order[..m], [order[m]], groups[m]);
      CopiesIn(order[..m], groups[m]);
      forall i | 0 <= i < m
        ensures groups[i] != groups[m]
      {
        assert order[..m][i] in order[..m];
      }
    }
  }

  lemma {:induction false} MinusSplit(u: seq<PollGroup>, n: PollGroup)
    requires n !in u
    ensures Minus(u + [n], n) == u
  {
    if u != [] {
      assert (u + [n])[1..] == u[1..] + [n];
      MinusSplit(u[1..], n);
    }
  }

  function AsOption(g: PollGroup?): Option<PollGroup> {
    if g == null then None else var n: PollGroup := g; Some(n)
  }

  function AsGroup(g: Option<PollGroup>): PollGroup? {
    if g.None? then null else g.value
  }

  ghost predicate Ids(groups: seq<PollGroup>, order: seq<Slots>) {
    |groups| == |order| && forall i :: 0 <= i < |groups| ==> order[i].group == groups[i]
  }

  /** Taking a group out of the queue of objects and out of the queue it stands for. */
  lemma {:induction false} DropMinus(groups: seq<PollGroup>, order: seq<Slots>, n: PollGroup)
    requires Ids(groups, order) && Copies(order, n) == 1
    ensures Ids(Minus(groups, n), Drop(order, n)) && n in groups
    ensures forall i :: 0 <= i < |Drop(order, n)| ==> Drop(order, n)[i].group != n && Drop(order, n)[i] in order
    ensures exists i :: 0 <= i < |order| && order[i] == Slots(n, SizeOf(order, n))
  {
    if order[0].group == n {
      CopiesIn(order[1..], n);
      assert forall i :: 0 <= i < |order[1..]| ==> order[1..][i] in order;
      assert order[0] == Slots(n, SizeOf(order, n));
    } else {
      DropMinus(groups[1..], order[1..], n);
      var i :| 0 <= i < |order[1..]| && order[1..][i] == Slots(n, SizeOf(order[1..], n));
      assert order[i + 1] == Slots(n, SizeOf(order, n));
    }
  }
}
