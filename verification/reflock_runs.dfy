/** What follows for every run of any number of threads. */
module ReflockRuns {
  import opened Basics
  import opened Reflock
  import opened ReflockSafety

  lemma {:induction false} InitOk(threads: nat)
    requires threads < DESTROY
    ensures Inv(Init(threads)) == true
  {
    hide ViewOk;
    SumZero(Init(threads).pcs, Reader);
    SumZero(Init(threads).pcs, Writer);
  }

  /** No schedule makes an assertion fail or touches memory that has been freed. */
  lemma {:induction false} NoFault(threads: nat, acts: seq<Action>)
    requires threads < DESTROY
    ensures Exec(threads, acts).Running? && Inv(Exec(threads, acts).s) == true
    decreases |acts|
  {
    hide Inv, Safe, Next, Enabled;
    if acts == [] {
      InitOk(threads);
    } else {
      NoFault(threads, acts[..|acts| - 1]);
      var s, a := Exec(threads, acts[..|acts| - 1]).s, acts[|acts| - 1];
      if Enabled(s, a) {
        StepKeeps(s, a);
      }
    }
  }

  /** A state that some number of threads can get into. */
  ghost predicate Reachable(s: System) {
    exists threads: nat, acts: seq<Action> :: threads < DESTROY && Exec(threads, acts) == Running(s)
  }

  lemma {:induction false} ReachableOk(s: System)
    requires Reachable(s)
    ensures Inv(s) == true
  {
    hide Exec;
    var threads: nat, acts: seq<Action> :| threads < DESTROY && Exec(threads, acts) == Running(s);
    NoFault(threads, acts);
  }

  // ---------- what a thread may rely on ----------

  predicate Owns(r: Role) {
    r == Removes || r == Claims || r == Closes || r == Waits || r == Poisons || r == Deletes
  }

  /** At most one thread destroys a node: no two are between `tree_del` and the end of `port_delete` for it. */
  lemma {:induction false} OneDestroyer(s: System, t: nat, u: nat, n: Node)
    requires Reachable(s)
    requires t < |s.pcs| && u < |s.pcs| && Owns(RoleOf(s.pcs[t], n)) && Owns(RoleOf(s.pcs[u], n))
    ensures t == u
  {
    hide Inv, Reachable;
    ReachableOk(s);
    Known(s, t, n);
    OwnNode(s, t, n);
    if t != u {
      TwoOwners(ViewOf(s, n), RoleOf(s.pcs[t], n), RoleOf(s.pcs[u], n));
      TwoRoles(s.pcs, t, u, n);
    }
  }

  lemma {:induction false} TwoOwners(v: View, p: Role, q: Role)
    ensures Owns(p) && Owns(q) && ViewOk(v) && Number(v.roles, p) >= 1 ==> Number(Moved(v.roles, p, Away), q) < 1
  {
  }

  /** A thread has to do with known nodes only. */
  lemma {:induction false} Known(s: System, t: nat, n: Node)
    requires Inv(s) && t < |s.pcs| && RoleOf(s.pcs[t], n) != Away
    ensures n in s.nodes
  {
  }

  /** No thread uses a port that has been deleted, and none takes a reference to a port that has been removed from
      the tree. */
  lemma {:induction false} UsedIsAlive(s: System, t: nat, n: Node)
    requires Reachable(s)
    requires t < |s.pcs| && RoleOf(s.pcs[t], n) != Away
    ensures n in s.nodes && !s.nodes[n].freed && (s.pcs[t] == Found(n) ==> Registered(s, n))
  {
    hide Inv, Reachable;
    ReachableOk(s);
    Known(s, t, n);
    OwnNode(s, t, n);
  }

  /** `reflock_unref_and_destroy` does not return, and `port_delete` does not run, while another thread has to do
      with the node. */
  lemma {:induction false} DestroyWaits(s: System, t: nat, u: nat, n: Node)
    requires Reachable(s)
    requires t < |s.pcs| && u < |s.pcs| && t != u && (s.pcs[t] == Poisoning(n) || s.pcs[t] == Deleting(n))
    ensures RoleOf(s.pcs[u], n) == Away
  {
    hide Inv, Reachable;
    ReachableOk(s);
    Known(s, t, n);
    OwnNode(s, t, n);
    TwoRoles(s.pcs, t, u, n);
    AloneView(ViewOf(s, n), RoleOf(s.pcs[t], n), RoleOf(s.pcs[u], n));
  }

  lemma {:induction false} AloneView(v: View, p: Role, q: Role)
    ensures (p == Poisons || p == Deletes) && ViewOk(v) && Number(v.roles, p) >= 1
            && Number(Moved(v.roles, p, Away), q) >= 1 ==>
              q == Away
  {
  }

  /** Signals and waits pair one to one: a thread that is about to signal finds one thread waiting, and no other
      is about to signal it; and a thread waits only for references that are still held, or for such a signal. */
  lemma {:induction false} SignalsPair(s: System, t: nat, n: Node) returns (u: nat)
    requires Reachable(s) && t < |s.pcs|
    requires s.pcs[t] == Signalling(n) || s.pcs[t] == Awaiting(n)
    ensures u < |s.pcs| && u != t
    ensures s.pcs[t] == Signalling(n) ==> s.pcs[u] == Awaiting(n) && Enabled(s, Meet(t, u))
    ensures s.pcs[t] == Awaiting(n)
            ==> RoleOf(s.pcs[u], n) == Holds || (s.pcs[u] == Signalling(n) && Enabled(s, Meet(u, t)))
    ensures forall w | 0 <= w < |s.pcs| && s.pcs[w] == s.pcs[t] :: w == t
  {
    hide Inv, Roles, Reachable;
    ReachableOk(s);
    var r := RoleOf(s.pcs[t], n);
    Known(s, t, n);
    OwnNode(s, t, n);
    var q := PairView(ViewOf(s, n), r);
    u := Somebody(s.pcs, n, q);
    forall w | 0 <= w < |s.pcs| && s.pcs[w] == s.pcs[t]
      ensures w == t
    {
      if w != t {
        TwoRoles(s.pcs, t, w, n);
      }
    }
  }

  lemma {:induction false} PairView(v: View, r: Role) returns (q: Role)
    ensures ViewOk(v) && (r == Signals || r == Waits) && Number(v.roles, r) >= 1 ==>
              Number(v.roles, q) >= 1 && (if r == Signals then q == Waits else q == Signals || q == Holds)
  {
    q := if r == Signals then Waits else if v.roles.signals >= 1 then Signals else Holds;
  }

  /** Nothing leaks: a port that no thread has to do with is registered, with no reference counted, or has been
      freed. */
  lemma {:induction false} NothingLeaks(s: System, n: Node)
    requires Reachable(s) && n in s.nodes && forall t | 0 <= t < |s.pcs| :: RoleOf(s.pcs[t], n) == Away
    ensures s.nodes[n].freed <==> !Registered(s, n)
    ensures Registered(s, n) ==> s.nodes[n].word == 0
  {
    hide Reachable, LockOk, TreeOk, PcsOk, RoleOf;
    ReachableOk(s);
    AllAway(s.pcs, n);
    assert ViewOk(ViewOf(s, n));
  }

  lemma {:induction false} AllAway(pcs: seq<Pc>, n: Node)
    requires forall t | 0 <= t < |pcs| :: RoleOf(pcs[t], n) == Away
    ensures Roles(pcs, n) == Tally(0, 0, 0, 0, 0, 0, 0, 0, 0, 0)
    decreases |pcs|
  {
    hide RoleOf;
    if pcs != [] {
      assert forall t | 0 <= t < |pcs| - 1 :: pcs[1..][t] == pcs[t + 1];
      AllAway(pcs[1..], n);
      assert RoleOf(pcs[0], n) == Away;
    }
  }

  /** `ts_tree_add` never fails: a handle that was just made is not in the tree, even if it is the value of an older
      one. */
  lemma {:induction false} NeverClashes(s: System, t: nat)
    requires Reachable(s) && t < |s.pcs|
    ensures !s.pcs[t].Clash?
  {
    hide Reachable, LockOk, TreeOk, NodesOk;
    ReachableOk(s);
    assert Knows(s, s.pcs[t]);
  }

  // ---------- every call ends ----------

  /** Some thread that is inside a call can always take its next step. */
  lemma {:induction false} SomeoneCanGo(s: System) returns (a: Action)
    requires Reachable(s) && Sum(s.pcs, Rank) > 0
    ensures Enabled(s, a) && !IsStart(a)
  {
    hide NodesOk, TreeOk, Roles, Sum, Reachable;
    ReachableOk(s);
    if s.writer {
      var t := Someone(s.pcs, Writer);
      a := Run(t);
    } else if s.readers > 0 {
      var t := Someone(s.pcs, Reader);
      a := Run(t);
    } else {
      var t := Someone(s.pcs, Rank);
      a := NextOf(s, t);
    }
  }

  lemma {:induction false} NextOf(s: System, t: nat) returns (a: Action)
    requires Reachable(s) && t < |s.pcs| && s.pcs[t] != Idle && !s.writer && s.readers == 0
    ensures Enabled(s, a) && !IsStart(a)
  {
    hide Reachable, Roles;
    if s.pcs[t].Signalling? {
      var u := SignalsPair(s, t, s.pcs[t].n);
      a := Meet(t, u);
    } else if s.pcs[t].Awaiting? {
      var u := SignalsPair(s, t, s.pcs[t].n);
      a := if s.pcs[u].Signalling? then Meet(u, t) else Run(u);
    } else {
      a := Run(t);
    }
  }

  /** Each step brings the calls that are under way closer to their end. */
  lemma {:induction false} RankFalls(s: System, a: Action)
    requires Reachable(s) && Enabled(s, a) && !IsStart(a)
    ensures Safe(s, a) && Sum(Next(s, a).pcs, Rank) < Sum(s.pcs, Rank)
  {
    hide Inv, Sum, Reachable;
    ReachableOk(s);
    StepKeeps(s, a);
    match a {
      case Run(t) =>
        SumMove(s.pcs, t, Continue(s, t).pcs[t], Rank);
      case Meet(t, u) =>
        SumMove(s.pcs, t, Idle, Rank);
        SumMove(s.pcs[t := Idle], u, Poisoning(s.pcs[u].n), Rank);
    }
  }

  /** These steps can be taken one after the other, and none of them starts a new call. */
  ghost predicate Proceeds(s: System, more: seq<Action>)
    decreases |more|
  {
    more != [] ==>
      && !IsStart(more[0]) && Enabled(s, more[0])
      && (Safe(s, more[0]) ==> Proceeds(Next(s, more[0]), more[1..]))
  }

  /** Whatever has happened so far, and in whatever order the calls under way go on: they take no more steps than their
      ranks add up to, and as long as one of them has not finished, some step can be taken. */
  lemma {:induction false} AllFinish(threads: nat, acts: seq<Action>, more: seq<Action>)
    requires threads < DESTROY && Exec(threads, acts).Running? && Proceeds(Exec(threads, acts).s, more)
    ensures Exec(threads, acts + more).Running?
    ensures var s, s' := Exec(threads, acts).s, Exec(threads, acts + more).s;
            && |more| + Sum(s'.pcs, Rank) <= Sum(s.pcs, Rank)
            && (Sum(s'.pcs, Rank) > 0 ==> exists a :: Enabled(s', a) && !IsStart(a))
    decreases |more|
  {
    hide Sum, Safe, Next, Enabled, Exec;
    var s := Exec(threads, acts).s;
    assert Reachable(s);
    if more == [] {
      assert acts + more == acts;
      if Sum(s.pcs, Rank) > 0 {
        var a := SomeoneCanGo(s);
      }
    } else {
      RankFalls(s, more[0]);
      ExecOne(threads, acts, more[0]);
      AllFinish(threads, acts + [more[0]], more[1..]);
      assert acts + more == (acts + [more[0]]) + more[1..];
    }
  }

  lemma {:induction false} ExecOne(threads: nat, acts: seq<Action>, a: Action)
    requires Exec(threads, acts).Running? && Enabled(Exec(threads, acts).s, a) && Safe(Exec(threads, acts).s, a)
    ensures Exec(threads, acts + [a]) == Running(Next(Exec(threads, acts).s, a))
  {
  }

  // ---------- port_get_iocp_handle ----------

  /** A thread that is using a port finds its completion port closed exactly when another thread is between the end of
      `port_close` and the end of its wait; so the assertion of `port_get_iocp_handle` is not one that holds. */
  lemma {:induction false} ClosedUnderUser(s: System, t: nat, n: Node)
    requires Reachable(s) && t < |s.pcs| && s.pcs[t] == Using(n)
    ensures n in s.nodes
    ensures s.nodes[n].iocp == None <==> exists u | 0 <= u < |s.pcs| :: s.pcs[u] == Closed(n) || s.pcs[u] == Awaiting(n)
  {
    hide Inv, Roles, Reachable;
    ReachableOk(s);
    Known(s, t, n);
    OwnNode(s, t, n);
    if s.nodes[n].iocp == None {
      var u := Somebody(s.pcs, n, if Roles(s.pcs, n).closes > 0 then Closes else Waits);
    }
    forall u | 0 <= u < |s.pcs| && (s.pcs[u] == Closed(n) || s.pcs[u] == Awaiting(n))
      ensures s.nodes[n].iocp == None
    {
      OwnNode(s, u, n);
    }
  }

  /** Such a run: the first thread makes a port and has a reference to it when the second one closes it. */
  lemma {:induction false} ClosedUnderUserRun() returns (s: System)
    ensures Reachable(s) && |s.pcs| == 2 && s.pcs[0] == Using(0) && 0 in s.nodes && s.nodes[0].iocp == None
  {
    var acts, h := [], 5;
    acts, s := GoCreate(h);
    acts, s := GoUse(acts, s, h);
    acts, s := GoClose(acts, s, h);
    hide Exec;
    assert Exec(2, acts) == Running(s) && 2 < DESTROY;
  }

  lemma {:induction false} Go(acts: seq<Action>, s: System, a: Action, next: System)
    returns (acts': seq<Action>, s': System)
    requires Exec(2, acts) == Running(s) && Enabled(s, a) && Safe(s, a) && Next(s, a) == next
    ensures Exec(2, acts') == Running(s') && s' == next
  {
    hide Exec;
    ExecOne(2, acts, a);
    acts', s' := acts + [a], next;
  }

  function Two(p: Pc, q: Pc, readers: int, writer: bool, tree: map<Handle, Node>, node: PortNode): System {
    System([p, q], readers, writer, tree, map[0 := node])
  }

  lemma {:induction false} GoCreate(h: Handle) returns (acts: seq<Action>, s: System)
    ensures Exec(2, acts) == Running(s) && s == Two(Idle, Idle, 0, false, map[h := 0], PortNode(0, Some(h), false))
  {
    hide Exec;
    var node := PortNode(0, Some(h), false);
    acts, s := GoStart(h);
    acts, s := Go(acts, s, Run(0), Two(Adding(0), Idle, 0, true, map[], node));
    acts, s := Go(acts, s, Run(0), Two(Added, Idle, 0, true, map[h := 0], node));
    acts, s := Go(acts, s, Run(0), Two(Idle, Idle, 0, false, map[h := 0], node));
  }

  lemma {:induction false} GoStart(h: Handle) returns (acts: seq<Action>, s: System)
    ensures Exec(2, acts) == Running(s) && s == Two(Created(0), Idle, 0, false, map[], PortNode(0, Some(h), false))
  {
    assert Exec(2, []) == Running(Init(2));
    hide Exec;
    assert Init(2) == System([Idle, Idle], 0, false, map[], map[]);
    acts, s :=
      Go([], Init(2), StartCreate(0, 0, h), Two(Created(0), Idle, 0, false, map[], PortNode(0, Some(h), false)));
  }

  lemma {:induction false} GoUse(acts: seq<Action>, s: System, h: Handle) returns (acts': seq<Action>, s': System)
    requires Exec(2, acts) == Running(s) && s == Two(Idle, Idle, 0, false, map[h := 0], PortNode(0, Some(h), false))
    ensures Exec(2, acts') == Running(s')
            && s' == Two(Using(0), Idle, 0, false, map[h := 0], PortNode(1, Some(h), false))
  {
    hide Exec;
    var tree, node := map[h := 0], PortNode(0, Some(h), false);
    acts', s' := Go(acts, s, StartUse(0, h), Two(WantShared(h), Idle, 0, false, tree, node));
    acts', s' := Go(acts', s', Run(0), Two(Finding(h), Idle, 1, false, tree, node));
    acts', s' := Go(acts', s', Run(0), Two(Found(0), Idle, 1, false, tree, node));
    acts', s' := Go(acts', s', Run(0), Two(Referenced(0), Idle, 1, false, tree, PortNode(1, Some(h), false)));
    acts', s' := Go(acts', s', Run(0), Two(Using(0), Idle, 0, false, tree, PortNode(1, Some(h), false)));
  }

  lemma {:induction false} GoClose(acts: seq<Action>, s: System, h: Handle) returns (acts': seq<Action>, s': System)
    requires Exec(2, acts) == Running(s) && s == Two(Using(0), Idle, 0, false, map[h := 0], PortNode(1, Some(h), false))
    ensures Exec(2, acts') == Running(s') && s' == Two(Using(0), Closed(0), 0, false, map[], PortNode(2, None, false))
  {
    hide Exec;
    var node := PortNode(1, Some(h), false);
    assert map[h := 0] - {h} == map[];
    acts', s' := Go(acts, s, StartClose(1, h), Two(Using(0), WantExclusive(h), 0, false, map[h := 0], node));
    acts', s' := Go(acts', s', Run(1), Two(Using(0), Removing(h), 0, true, map[h := 0], node));
    acts', s' := Go(acts', s', Run(1), Two(Using(0), Removed(0), 0, true, map[], node));
    acts', s' := GoClosed(acts', s', h);
  }

  lemma {:induction false} GoClosed(acts: seq<Action>, s: System, h: Handle) returns (acts': seq<Action>, s': System)
    requires Exec(2, acts) == Running(s) && s == Two(Using(0), Removed(0), 0, true, map[], PortNode(1, Some(h), false))
    ensures Exec(2, acts') == Running(s') && s' == Two(Using(0), Closed(0), 0, false, map[], PortNode(2, None, false))
  {
    hide Exec;
    acts', s' := Go(acts, s, Run(1), Two(Using(0), Claimed(0), 0, true, map[], PortNode(2, Some(h), false)));
    acts', s' := Go(acts', s', Run(1), Two(Using(0), Closing(0), 0, false, map[], PortNode(2, Some(h), false)));
    acts', s' := Go(acts', s', Run(1), Two(Using(0), Closed(0), 0, false, map[], PortNode(2, None, false)));
  }
}
