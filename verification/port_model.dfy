/** The state of one epoll port and what each operation does to it, as values.

    The module `EpollPort` has the C code's objects and proves that its methods compute these
    functions; here is what is true of them over every run.  Everything the operating
    system answers is a parameter: whether a poll request is accepted, whether a
    cancellation goes through, which completions are handed out. */
module PortModel {
  import opened Basics
  import opened Queue

  /** `poll_group_t` */
  class PollGroup {
    var size: int

    constructor ()
      ensures size == 0
    {
      size := 0;
    }
  }

  /** `sock_state_t`; `key` is the key of its tree node, `requested` the event mask in `poll_info`. */
  class SockState {
    var key: nat
    var group: PollGroup
    var userData: nat
    var userEvents: bv32
    var pendingEvents: bv32
    var requested: bv32
    var status: Status
    var deletePending: bool

    constructor (group: PollGroup)
      ensures this.group == group
    {
      this.group := group;
    }

    /** `memset` and the fields set right after it */
    method Clear(key: nat, group: PollGroup)
      modifies this
      ensures this.key == key && this.group == group && status == Idle && !deletePending
      ensures userData == 0 && userEvents == 0 && pendingEvents == 0 && requested == 0
    {
      this.key, this.group := key, group;
      userData, userEvents, pendingEvents, requested := 0, 0, 0, 0;
      status, deletePending := Idle, false;
    }
  }

  /** An AFD poll request is outstanding from the moment it is accepted until its
      completion has been fed back; `Cancelled` is outstanding too. */
  datatype Status = Idle | Pending | Cancelled

  /** The fields of a `SockState`. */
  datatype Sock = Sock(key: nat, group: PollGroup, userData: nat, userEvents: bv32, pendingEvents: bv32,
                       requested: bv32, status: Status, deletePending: bool)

  /** A poll group and its `group_size`, which is shown never to go below zero. */
  datatype Slots = Slots(group: PollGroup, size: int)

  /** The poll group queue, and the most slots ever in use. */
  datatype Groups = Groups(order: seq<Slots>, peak: int)

  datatype Port = Port(
    socks: map<SockState, Sock>,     // every sock_state that has not been freed
    tree: map<nat, SockState>,       // sock_tree
    updates: seq<SockState>,         // sock_update_queue
    deleted: seq<SockState>,         // sock_deleted_queue
    groups: Groups,                  // poll_group_queue
    polls: nat,                      // active_poll_count
    open: bool,                      // iocp_handle is not null
    kernel: multiset<SockState>,     // requests the kernel holds, completed or not
    fetched: multiset<SockState>)    // completions a thread has dequeued but not yet fed

  // ---------- event masks ----------

  const EPOLLIN: bv32 := 0x1
  const EPOLLPRI: bv32 := 0x2
  const EPOLLOUT: bv32 := 0x4
  const EPOLLERR: bv32 := 0x8
  const EPOLLHUP: bv32 := 0x10
  const EPOLLRDNORM: bv32 := 0x40
  const EPOLLRDBAND: bv32 := 0x80
  const EPOLLWRNORM: bv32 := 0x100
  const EPOLLWRBAND: bv32 := 0x200
  const EPOLLMSG: bv32 := 0x400
  const EPOLLRDHUP: bv32 := 0x2000
  const EPOLLONESHOT: bv32 := 0x8000_0000

  /** `SOCK__KNOWN_EPOLL_EVENTS` */
  const KNOWN: bv32 := EPOLLIN | EPOLLPRI | EPOLLOUT | EPOLLERR | EPOLLHUP | EPOLLRDNORM
                       | EPOLLRDBAND | EPOLLWRNORM | EPOLLWRBAND | EPOLLMSG | EPOLLRDHUP

  const AFD_RECEIVE: bv32 := 0x1
  const AFD_RECEIVE_EXPEDITED: bv32 := 0x2
  const AFD_SEND: bv32 := 0x4
  const AFD_DISCONNECT: bv32 := 0x8
  const AFD_ABORT: bv32 := 0x10
  const AFD_LOCAL_CLOSE: bv32 := 0x20
  const AFD_ACCEPT: bv32 := 0x80
  const AFD_CONNECT_FAIL: bv32 := 0x100

  function On(cond: bool, mask: bv32): bv32 {
    if cond then mask else 0
  }

  /** `sock__epoll_events_to_afd_events` */
  function AfdEvents(e: bv32): bv32 {
    AFD_LOCAL_CLOSE
    | On(e & (EPOLLIN | EPOLLRDNORM) != 0, AFD_RECEIVE | AFD_ACCEPT)
    | On(e & (EPOLLPRI | EPOLLRDBAND) != 0, AFD_RECEIVE_EXPEDITED)
    | On(e & (EPOLLOUT | EPOLLWRNORM | EPOLLWRBAND) != 0, AFD_SEND)
    | On(e & (EPOLLIN | EPOLLRDNORM | EPOLLRDHUP) != 0, AFD_DISCONNECT)
    | On(e & EPOLLHUP != 0, AFD_ABORT)
    | On(e & EPOLLERR != 0, AFD_CONNECT_FAIL)
  }

  /** `sock__afd_events_to_epoll_events` */
  function EpollEvents(a: bv32): bv32 {
    On(a & (AFD_RECEIVE | AFD_ACCEPT) != 0, EPOLLIN | EPOLLRDNORM)
    | On(a & AFD_RECEIVE_EXPEDITED != 0, EPOLLPRI | EPOLLRDBAND)
    | On(a & AFD_SEND != 0, EPOLLOUT | EPOLLWRNORM | EPOLLWRBAND)
    | On(a & AFD_DISCONNECT != 0, EPOLLIN | EPOLLRDNORM | EPOLLRDHUP)
    | On(a & AFD_ABORT != 0, EPOLLHUP)
    | On(a & AFD_CONNECT_FAIL != 0, EPOLLIN | EPOLLOUT | EPOLLERR | EPOLLRDNORM | EPOLLWRNORM | EPOLLRDHUP)
  }

  /** Every known event in `user` is among the events being monitored. */
  predicate Covered(user: bv32, pending: bv32) {
    user & KNOWN & !pending == 0
  }

  /** A covered interest is covered in terms of the request sent to the kernel, too. */
  lemma {:induction false} CoveredMask(user: bv32, pending: bv32)
    requires Covered(user, pending)
    ensures AfdEvents(user) & !AfdEvents(pending) == 0
  {
  }

  // ---------- poll groups ----------

  const MAX_GROUP_SIZE: nat := 32

  /** Slots in use. */
  function Total(order: seq<Slots>): int {
    if order == [] then 0 else order[0].size + Total(order[1..])
  }

  /** How often a group is in the queue. */
  function Copies(order: seq<Slots>, n: PollGroup): nat {
    if order == [] then 0 else (if order[0].group == n then 1 else 0) + Copies(order[1..], n)
  }

  /** The `group_size` of a group that is in the queue once. */
  function SizeOf(order: seq<Slots>, n: PollGroup): int {
    if order == [] then 0 else (if order[0].group == n then order[0].size else 0) + SizeOf(order[1..], n)
  }

  /** The queue without a group. */
  function Drop(order: seq<Slots>, n: PollGroup): seq<Slots> {
    if order == [] then [] else if order[0].group == n then order[1..] else [order[0]] + Drop(order[1..], n)
  }

  /** `poll_group_acquire`; `made` is the group `poll_group__new` comes up with, if it does. */
  function Acquire(g: Groups, made: Option<PollGroup>): (Groups, Option<PollGroup>) {
    if g.order != [] && g.order[|g.order| - 1].size < MAX_GROUP_SIZE then
      (Take(g.order[..|g.order| - 1], g.order[|g.order| - 1], g.peak), Some(g.order[|g.order| - 1].group))
    else match made
      case None => (g, None)
      case Some(n) => (Take(g.order, Slots(n, 0), g.peak), Some(n))
  }

  /** One more slot of the last group; a group that fills up goes to the front. */
  function Take(rest: seq<Slots>, last: Slots, peak: int): Groups {
    var n := last.(size := last.size + 1);
    var load := Total(rest) + n.size;
    Groups(if n.size == MAX_GROUP_SIZE then [n] + rest else rest + [n], if load > peak then load else peak)
  }

  /** `poll_group_release` */
  function Release(g: Groups, n: PollGroup): Groups {
    g.(order := Drop(g.order, n) + [Slots(n, SizeOf(g.order, n) - 1)])
  }

  ghost predicate AllFull(s: seq<Slots>) {
    forall x | x in s :: x.size == MAX_GROUP_SIZE
  }

  ghost predicate NoneFull(s: seq<Slots>) {
    forall x | x in s :: x.size < MAX_GROUP_SIZE
  }

  ghost predicate SplitAt(s: seq<Slots>, k: nat) {
    k <= |s| && AllFull(s[..k]) && NoneFull(s[k..])
  }

  /** No group is overfull, and all full groups come before all others. */
  ghost predicate Ordered(s: seq<Slots>) {
    exists k: nat :: SplitAt(s, k)
  }

  /** There are no more groups than the peak load needed: at most ceil(peak / 32). */
  ghost predicate Bounded(g: Groups) {
    Total(g.order) <= g.peak && (g.order != [] ==> MAX_GROUP_SIZE * (|g.order| - 1) < g.peak)
  }

  ghost predicate GroupsOk(g: Groups) {
    && Ordered(g.order) && Bounded(g)
    && (forall x | x in g.order :: Copies(g.order, x.group) == 1)
  }

  lemma {:induction false} Append(a: seq<Slots>, b: seq<Slots>, n: PollGroup)
    ensures Total(a + b) == Total(a) + Total(b)
    ensures Copies(a + b, n) == Copies(a, n) + Copies(b, n)
    ensures SizeOf(a + b, n) == SizeOf(a, n) + SizeOf(b, n)
  {
    if a == [] {
      assert a + b == b;
    } else {
      assert (a + b)[1..] == a[1..] + b;
      Append(a[1..], b, n);
    }
  }

  lemma {:induction false} CopiesIn(s: seq<Slots>, n: PollGroup)
    ensures Copies(s, n) > 0 <==> exists x | x in s :: x.group == n
    ensures Copies(s, n) == 0 ==> SizeOf(s, n) == 0 && Drop(s, n) == s
  {
    if s != [] {
      CopiesIn(s[1..], n);
      assert s == [s[0]] + s[1..];
    }
  }

  /** The place of a group in the queue. */
  lemma {:induction false} Around(s: seq<Slots>, n: PollGroup) returns (u: seq<Slots>, x: Slots, v: seq<Slots>)
    requires Copies(s, n) == 1
    ensures s == u + [x] + v && x.group == n && x.size == SizeOf(s, n) && Drop(s, n) == u + v
    ensures Copies(u, n) == 0 && Copies(v, n) == 0
  {
    var rest := s[1..];
    assert s == [s[0]] + rest;
    if s[0].group == n {
      u, x, v := [], s[0], rest;
      CopiesIn(v, n);
    } else {
      var u0;
      u0, x, v := Around(rest, n);
      u := [s[0]] + u0;
      assert [s[0]] + (u0 + [x] + v) == ([s[0]] + u0) + [x] + v;
      assert u[1..] == u0;
    }
  }

  lemma {:induction false} TotalFull(s: seq<Slots>)
    requires AllFull(s)
    ensures Total(s) == MAX_GROUP_SIZE * |s|
  {
    if s != [] {
      TotalFull(s[1..]);
    }
  }

  lemma {:induction false} Witness(full: seq<Slots>, open: seq<Slots>)
    requires AllFull(full) && NoneFull(open)
    ensures Ordered(full + open)
  {
    assert (full + open)[..|full|] == full && (full + open)[|full|..] == open;
    assert SplitAt(full + open, |full|);
  }

  lemma {:induction false} TakeKeeps(full: seq<Slots>, open: seq<Slots>, last: Slots, peak: int, n: PollGroup)
    requires AllFull(full) && NoneFull(open) && last.size < MAX_GROUP_SIZE
    ensures var g := Take(full + open, last, peak);
            && Ordered(g.order) && Total(g.order) == Total(full + open) + last.size + 1
            && Copies(g.order, n) == Copies(full + open, n) + (if last.group == n then 1 else 0)
            && SizeOf(g.order, n) == SizeOf(full + open, n) + (if last.group == n then last.size + 1 else 0)
  {
    var x := last.(size := last.size + 1);
    Append([x], full + open, n);
    Append(full + open, [x], n);
    if x.size == MAX_GROUP_SIZE {
      Witness([x] + full, open);
      assert [x] + (full + open) == ([x] + full) + open;
    } else {
      Witness(full, open + [x]);
      assert (full + open) + [x] == full + (open + [x]);
    }
  }

  lemma {:induction false} MemberCopies(s: seq<Slots>, x: Slots)
    requires x in s
    ensures Copies(s, x.group) > 0
  {
    CopiesIn(s, x.group);
  }

  lemma {:induction false} LastOpen(s: seq<Slots>, k: nat)
    requires SplitAt(s, k)
    ensures k < |s| ==> s[|s| - 1].size < MAX_GROUP_SIZE
  {
  }

  /** The slot `poll_group_acquire` looks at, the queue without it, and how that splits. */
  lemma {:induction false} LastSlot(g: Groups, made: Option<PollGroup>)
    returns (full: seq<Slots>, open: seq<Slots>, last: Slots)
    requires Ordered(g.order) && Acquire(g, made).1.Some?
    ensures AllFull(full) && NoneFull(open) && last.size < MAX_GROUP_SIZE
    ensures Acquire(g, made) == (Take(full + open, last, g.peak), Some(last.group))
    ensures if g.order == full + open then open == [] && last == Slots(last.group, 0) && made == Some(last.group)
            else g.order == full + open + [last]
  {
    var k: nat :| SplitAt(g.order, k);
    var m := |g.order| - 1;
    LastOpen(g.order, k);
    if k == |g.order| {
      full, open, last := g.order, [], Slots(made.value, 0);
      assert full + open == g.order && g.order[..k] == g.order;
      assert m >= 0 ==> g.order[m] in g.order;
    } else {
      full, open, last := g.order[..k], g.order[k..m], g.order[m];
      assert g.order[..m] == full + open;
      assert g.order == full + open + [last];
      assert forall x | x in open :: x in g.order[k..];
    }
  }

  /** The effect of an acquisition on the size of any group `n`. */
  lemma {:induction false} AcquireCounts(g: Groups, made: Option<PollGroup>, n: PollGroup)
    requires Ordered(g.order)
    requires forall x | x in g.order :: Copies(g.order, x.group) == 1
    requires made.Some? ==> Copies(g.order, made.value) == 0
    ensures var (g', r) := Acquire(g, made);
            && SizeOf(g'.order, n) == SizeOf(g.order, n) + (if r == Some(n) then 1 else 0)
            && Copies(g'.order, n) == if r == Some(n) then 1 else Copies(g.order, n)
  {
    if Acquire(g, made).1.Some? {
      var full, open, last := LastSlot(g, made);
      TakeKeeps(full, open, last, g.peak, n);
      Append(full + open, [last], n);
      assert g.order != full + open ==> g.order[|g.order| - 1] == last;
      CopiesIn(g.order, n);
    }
  }

  /** `poll_group_acquire` keeps the groups in order and within bounds, hands out one more slot,
      of a group that had one free, and makes a new group only when every group is full. */
  lemma {:induction false} AcquireKeeps(g: Groups, made: Option<PollGroup>)
    requires GroupsOk(g) && (made.Some? ==> Copies(g.order, made.value) == 0)
    ensures var (g', r) := Acquire(g, made);
            && GroupsOk(g')
            && (r == None ==> g' == g && made == None && AllFull(g.order))
            && (r.Some? ==> Total(g'.order) == Total(g.order) + 1)
            && (r.Some? && Copies(g.order, r.value) == 0 ==> made == r && AllFull(g.order))
  {
    var (g', r) := Acquire(g, made);
    if r.Some? {
      var full, open, last := LastSlot(g, made);
      TakeKeeps(full, open, last, g.peak, last.group);
      Append(full + open, [last], last.group);
      TotalFull(full);
      assert open == [] ==> full + open == full;
      forall x | x in g'.order
        ensures Copies(g'.order, x.group) == 1
      {
        AcquireCounts(g, made, x.group);
        MemberCopies(g'.order, x);
        CopiesIn(g.order, x.group);
      }
    } else {
      var k: nat :| SplitAt(g.order, k);
      assert g.order == g.order[..k] + g.order[k..];
      LastOpen(g.order, k);
    }
  }

  lemma {:induction false} ReleaseCounts(g: Groups, m: PollGroup, n: PollGroup)
    requires Copies(g.order, m) == 1
    ensures var g' := Release(g, m);
            && SizeOf(g'.order, n) == SizeOf(g.order, n) - (if n == m then 1 else 0)
            && Copies(g'.order, n) == Copies(g.order, n)
            && Total(g'.order) == Total(g.order) - 1
  {
    var u, x, v := Around(g.order, m);
    Append(u + [x], v, n);
    Append(u, [x], n);
    Append(u, v, n);
    Append(u + v, [Slots(m, x.size - 1)], n);
  }

  lemma {:induction false} ReleaseOrder(g: Groups, m: PollGroup)
    requires Copies(g.order, m) == 1 && Ordered(g.order)
    ensures Ordered(Release(g, m).order) && |Release(g, m).order| == |g.order| && SizeOf(g.order, m) <= MAX_GROUP_SIZE
  {
    var u, x, v := Around(g.order, m);
    var full, open := Halves(g.order);
    Middle(u, x, v);
    SizeBound(full, open, x);
    MoveToEnd(full, open, u, x, v, Slots(m, x.size - 1));
  }

  lemma {:induction false} Middle(u: seq<Slots>, x: Slots, v: seq<Slots>)
    ensures x in u + [x] + v && |u + [x] + v| == |(u + v) + [x]|
  {
  }

  lemma {:induction false} Halves(s: seq<Slots>) returns (full: seq<Slots>, open: seq<Slots>)
    requires Ordered(s)
    ensures s == full + open && AllFull(full) && NoneFull(open)
  {
    var k: nat :| SplitAt(s, k);
    full, open := s[..k], s[k..];
  }

  lemma {:induction false} SizeBound(full: seq<Slots>, open: seq<Slots>, x: Slots)
    requires x in full + open && AllFull(full) && NoneFull(open)
    ensures x.size <= MAX_GROUP_SIZE
  {
  }

  /** One slot set aside and put back, smaller, at the end. */
  lemma {:induction false} MoveToEnd(full: seq<Slots>, open: seq<Slots>, u: seq<Slots>, x: Slots, v: seq<Slots>,
          y: Slots)
    requires full + open == u + [x] + v && AllFull(full) && NoneFull(open) && y.size < MAX_GROUP_SIZE
    ensures Ordered((u + v) + [y])
  {
    var w := Cut(full, open, u, x, v);
    if |u| < |full| {
      Witness(u + w, open + [y]);
      Regroup(u, w, open, [y]);
    } else {
      Witness(full, w + v + [y]);
      Regroup(full, w, v, [y]);
    }
  }

  lemma {:induction false} Regroup(a: seq<Slots>, b: seq<Slots>, c: seq<Slots>, d: seq<Slots>)
    ensures (a + (b + c)) + d == (a + b) + (c + d)
    ensures ((a + b) + c) + d == a + (b + c + d)
  {
  }

  /** The same sequence cut in two places. */
  lemma {:induction false} Cut(full: seq<Slots>, open: seq<Slots>, u: seq<Slots>, x: Slots, v: seq<Slots>)
    returns (w: seq<Slots>)
    requires full + open == u + [x] + v
    ensures if |u| < |full| then full == u + [x] + w && v == w + open else u == full + w && open == w + [x] + v
    ensures if |u| < |full| then x in full && forall z | z in w :: z in full
            else x in open && forall z | z in w + v :: z in open
    ensures |u| < |full| ==> forall z | z in u :: z in full
  {
    if |u| < |full| {
      w := full[|u| + 1..];
      assert u == (u + [x] + v)[..|u|] == full[..|u|];
      assert x == (u + [x] + v)[|u|] == full[|u|];
      assert v == (u + [x] + v)[|u| + 1..] == w + open;
    } else {
      w := open[..|u| - |full|];
      assert u == (u + [x] + v)[..|u|] == full + w;
      assert x == (u + [x] + v)[|u|] == open[|u| - |full|];
      assert v == (u + [x] + v)[|u| + 1..] == open[|u| - |full| + 1..];
    }
  }

  /** `poll_group_release` keeps them, too; its assertion is that the group is not full afterwards. */
  lemma {:induction false} ReleaseKeeps(g: Groups, m: PollGroup)
    requires GroupsOk(g) && Copies(g.order, m) == 1
    ensures var g' := Release(g, m);
            GroupsOk(g') && SizeOf(g'.order, m) < MAX_GROUP_SIZE && Total(g'.order) == Total(g.order) - 1
  {
    var g' := Release(g, m);
    ReleaseOrder(g, m);
    ReleaseCounts(g, m, m);
    forall z | z in g'.order
      ensures Copies(g'.order, z.group) == 1
    {
      ReleaseCounts(g, m, z.group);
      MemberCopies(g'.order, z);
      CopiesIn(g.order, z.group);
    }
  }

  // ---------- what an operation on one socket does ----------

  /** What the system answers when a socket is updated. */
  datatype Submit = Accepted | SocketClosed | Refused
  datatype Answer = Answer(submit: Submit, cancels: bool)

  /** What a completed poll request reports. */
  datatype Completion = WasCancelled | Failed | Nothing | Reported(events: bv32)

  datatype Event = Event(events: bv32, data: nat)

  function Put(p: Port, s: SockState, r: Sock): Port {
    p.(socks := p.socks[s := r])
  }

  /** `port_cancel_socket_update`, `port_remove_deleted_socket`: off whichever queue it is on. */
  function OffQueues(p: Port, s: SockState): Port {
    p.(updates := Minus(p.updates, s), deleted := Minus(p.deleted, s))
  }

  predicate Queued(p: Port, s: SockState) {
    s in p.updates || s in p.deleted
  }

  /** `port_request_socket_update` */
  function RequestUpdate(p: Port, s: SockState): Port {
    if Queued(p, s) then p else p.(updates := p.updates + [s])
  }

  /** `port_add_deleted_socket` */
  function AddDeleted(p: Port, s: SockState): Port {
    if Queued(p, s) then p else p.(deleted := p.deleted + [s])
  }

  /** `sock__cancel_poll`; `cancels` is whether `afd_cancel_poll` succeeds. */
  function CancelPoll(p: Port, s: SockState, cancels: bool): Port
    requires s in p.socks
  {
    if cancels then Put(p, s, p.socks[s].(status := Cancelled, pendingEvents := 0)) else p
  }

  /** The first half of `sock__delete`: out of the tree and off the update queue. */
  function Unregister(p: Port, s: SockState, cancels: bool): Port
    requires s in p.socks
  {
    var p1 := OffQueues(if p.socks[s].status.Pending? then CancelPoll(p, s, cancels) else p, s);
    var p2 := p1.(tree := p1.tree - {p1.socks[s].key});
    Put(p2, s, p2.socks[s].(deletePending := true))
  }

  /** Releasing the slot and freeing the memory. */
  function Free(p: Port, s: SockState): Port
    requires s in p.socks
  {
    var p1 := OffQueues(p, s);
    p1.(groups := Release(p1.groups, p1.socks[s].group), socks := p1.socks - {s})
  }

  /** `sock__delete` */
  function Delete(p: Port, s: SockState, force: bool, cancels: bool): Port
    requires s in p.socks
  {
    var p1 := if p.socks[s].deletePending then p else Unregister(p, s, cancels);
    if force || p1.socks[s].status.Idle? then Free(p1, s) else AddDeleted(p1, s)
  }

  const INVALID_SOCKET: nat := 0xffff_ffff_ffff_ffff

  /** `sock_new`; `base` is whether the base socket is found, `made` what `poll_group__new` yields,
      `s` the memory `malloc` returns, if it does. */
  function New(p: Port, s: SockState, key: nat, base: bool, made: Option<PollGroup>, alloc: bool): (Port, bool) {
    if key == 0 || key == INVALID_SOCKET || !base then (p, false)
    else
      var (g, r) := Acquire(p.groups, made);
      match r
      case None => (p, false)
      case Some(n) =>
        if !alloc || key in p.tree then (p.(groups := Release(g, n)), false)
        else (p.(groups := g, tree := p.tree[key := s], socks := p.socks[s := Sock(key, n, 0, 0, 0, 0, Idle, false)]),
          true)
  }

  /** `sock_set_event` */
  function SetEvent(p: Port, s: SockState, events: bv32, data: nat): Port
    requires s in p.socks
  {
    var r := p.socks[s].(userEvents := events | EPOLLERR | EPOLLHUP, userData := data);
    var p1 := Put(p, s, r);
    if Covered(r.userEvents, r.pendingEvents) then p1 else RequestUpdate(p1, s)
  }

  /** `sock_update` */
  function Update(p: Port, s: SockState, a: Answer): (Port, bool)
    requires s in p.socks
  {
    var r := p.socks[s];
    match r.status
    case Pending =>
      if Covered(r.userEvents, r.pendingEvents) then (OffQueues(p, s), true)
      else if a.cancels then (OffQueues(CancelPoll(p, s, true), s), true)
      else (p, false)
    case Cancelled => (OffQueues(p, s), true)
    case Idle =>
      var p1 := Put(p, s, r.(requested := AfdEvents(r.userEvents)));
      match a.submit
      case SocketClosed => (Delete(p1, s, false, a.cancels), true)
      case Refused => (p1, false)
      case Accepted =>
        var p2 := Put(p1, s, p1.socks[s].(status := Pending, pendingEvents := r.userEvents));
        (OffQueues(p2.(kernel := p2.kernel + multiset{s}), s), true)
  }

  /** A request is used up. */
  function Consume(p: Port, s: SockState): Port
    requires s in p.socks
  {
    Put(p.(fetched := p.fetched - multiset{s}), s, p.socks[s].(status := Idle, pendingEvents := 0))
  }

  /** The events a completion reports, in terms of epoll. */
  function ReportedEvents(c: Completion): bv32 {
    if c.Failed? then EPOLLERR else if c.Reported? then EpollEvents(c.events) else 0
  }

  predicate Closed(c: Completion) {
    c.Reported? && c.events & AFD_LOCAL_CLOSE != 0
  }

  /** What the user gets to see, with one-shot interest dropped. */
  function Report(p: Port, s: SockState, events: bv32): (Port, Option<Event>)
    requires s in p.socks
  {
    var r := p.socks[s];
    if events == 0 then (p, None)
    else if r.userEvents & EPOLLONESHOT != 0 then (Put(p, s, r.(userEvents := 0)), Some(Event(events, r.userData)))
    else (p, Some(Event(events, r.userData)))
  }

  /** `sock_feed_event`: the completion is used up, and a socket that stays is updated later. */
  function Feed(p: Port, s: SockState, c: Completion): (Port, Option<Event>)
    requires s in p.socks
  {
    var p1 := Consume(p, s);
    if p1.socks[s].deletePending || Closed(c) then (Delete(p1, s, false, false), None)
    else Report(RequestUpdate(p1, s), s, ReportedEvents(c) & p1.socks[s].userEvents)
  }
}
