/** What holds whatever the schedule: the locking protocol of `reflock_t` and the handle tree. */
module ReflockSafety {
  import opened Basics
  import opened Reflock

  /** The node can be found in the tree. */
  predicate Registered(s: System, n: Node)
    requires n in s.nodes
  {
    s.nodes[n].iocp.Some? && s.nodes[n].iocp.value in s.tree && s.tree[s.nodes[n].iocp.value] == n
  }

  /** All there is to know about one node: itself, and what the threads are doing to it. */
  datatype View = View(registered: bool, rec: PortNode, roles: Tally)

  function ViewOf(s: System, n: Node): View
    requires n in s.nodes
  {
    View(Registered(s, n), s.nodes[n], Roles(s.pcs, n))
  }

  /** A node is being made, or registered, or being closed by exactly one thread, or gone.  Its lock word counts the
      references and shows whether the closing thread has marked it; and a signal is due exactly when that thread
      waits and no reference is left. */
  predicate ViewOk(v: View) {
    var x := v.roles;
    && Proper(x)
    && One(v.registered) + Owners(x) + x.makes + One(v.rec.freed) == 1
    && (v.rec.iocp.Some? <==> v.registered || x.makes + x.removes + x.claims > 0)
    && (x.seeks > 0 ==> v.registered)
    && (!v.rec.freed && x.deletes == 0 ==> v.rec.word == Holders(x) + DESTROY * (x.waits + x.poisons))
    && (x.makes + x.poisons + x.deletes + One(v.rec.freed) > 0 ==> Holders(x) == 0)
    && x.signals == One(x.waits == 1 && Holders(x) == 0)
  }

  ghost predicate NodesOk(s: System) {
    forall n {:trigger ViewOf(s, n)} | n in s.nodes :: ViewOk(ViewOf(s, n)) == true
  }

  /** Readers keep writers out, and the other way around. */
  ghost predicate LockOk(s: System) {
    s.readers == Sum(s.pcs, Reader) && One(s.writer) == Sum(s.pcs, Writer) && (s.writer ==> s.readers == 0)
  }

  ghost predicate TreeOk(s: System) {
    && (forall h | h in s.tree :: s.tree[h] in s.nodes && s.nodes[s.tree[h]].iocp == Some(h))
    && (forall n, m | n in s.nodes && m in s.nodes && n != m ::
          s.nodes[n].iocp.Some? ==> s.nodes[n].iocp != s.nodes[m].iocp)
  }

  predicate Knows(s: System, pc: Pc) {
    match pc
    case Found(n) => n in s.nodes case Referenced(n) => n in s.nodes case Using(n) => n in s.nodes
    case Signalling(n) => n in s.nodes
    case Removed(n) => n in s.nodes case Claimed(n) => n in s.nodes case Closing(n) => n in s.nodes
    case Closed(n) => n in s.nodes
    case Awaiting(n) => n in s.nodes case Poisoning(n) => n in s.nodes case Deleting(n) => n in s.nodes
    case Created(n) => n in s.nodes case Adding(n) => n in s.nodes case Clash(n) => false
    case _ => true
  }

  ghost predicate PcsOk(s: System) {
    forall t | 0 <= t < |s.pcs| :: Knows(s, s.pcs[t])
  }

  /** There are fewer threads than the reference count can count. */
  ghost predicate Inv(s: System) {
    LockOk(s) && TreeOk(s) && PcsOk(s) && NodesOk(s) && |s.pcs| < DESTROY
  }

  // ---------- one thread moves ----------

  lemma {:induction false} CountMoved(s: System, s': System, t: nat, n: Node)
    requires n in s.nodes && n in s'.nodes && t < |s.pcs| && t < |s'.pcs| && s'.pcs == s.pcs[t := s'.pcs[t]]
    ensures ViewOf(s', n)
            == View(Registered(s', n), s'.nodes[n], Moved(Roles(s.pcs, n), RoleOf(s.pcs[t], n), RoleOf(s'.pcs[t], n)))
    ensures Number(Roles(s.pcs, n), RoleOf(s.pcs[t], n)) >= 1
  {
    hide Moved;
    RoleMove(s.pcs, t, s'.pcs[t], n);
  }

  lemma {:induction false} LockMoved(s: System, s': System, t: nat)
    requires LockOk(s) && t < |s.pcs| && t < |s'.pcs| && s'.pcs == s.pcs[t := s'.pcs[t]]
    requires s'.readers == s.readers - Weight(Reader, s.pcs[t]) + Weight(Reader, s'.pcs[t])
    requires One(s'.writer) == One(s.writer) - Weight(Writer, s.pcs[t]) + Weight(Writer, s'.pcs[t])
    requires s'.writer ==> s'.readers == 0
    ensures LockOk(s') == true
  {
    SumMove(s.pcs, t, s'.pcs[t], Reader);
    SumMove(s.pcs, t, s'.pcs[t], Writer);
  }

  lemma {:induction false} OtherNode(s: System, s': System, t: nat, n: Node)
    requires n in s.nodes && n in s'.nodes && t < |s.pcs| && t < |s'.pcs| && s'.pcs == s.pcs[t := s'.pcs[t]]
    requires RoleOf(s.pcs[t], n) == RoleOf(s'.pcs[t], n) == Away
    requires s'.nodes[n] == s.nodes[n] && Registered(s', n) == Registered(s, n)
    ensures ViewOf(s', n) == ViewOf(s, n)
  {
    hide Roles;
    RoleMove(s.pcs, t, s'.pcs[t], n);
    assert Moved(Roles(s.pcs, n), Away, Away) == Roles(s.pcs, n);
  }

  /** The move of one thread changes at most the view of node `m`. */
  lemma {:induction false} NodesMoved(s: System, s': System, t: nat, m: Node)
    requires NodesOk(s) && t < |s.pcs| && t < |s'.pcs| && s'.pcs == s.pcs[t := s'.pcs[t]]
             && s'.nodes.Keys == s.nodes.Keys
    requires forall n | n in s.nodes && n != m ::
               RoleOf(s.pcs[t], n) == RoleOf(s'.pcs[t], n) == Away && s'.nodes[n] == s.nodes[n]
                 && Registered(s', n) == Registered(s, n)
    requires m in s.nodes ==> ViewOk(ViewOf(s', m)) == true
    ensures NodesOk(s') == true
  {
    hide ViewOk, Moved, Roles;
    forall n | n in s'.nodes
      ensures ViewOk(ViewOf(s', n)) == true
    {
      if n != m {
        OtherNode(s, s', t, n);
      }
    }
  }

  // ---------- one node ----------

  lemma {:induction false} NoWrap(word: nat, d: int)
    requires 0 <= word + d < WORD
    ensures Plus(word, d) == word + d
  {
  }

  lemma {:induction false} RefView(v: View, p: Role, q: Role)
    requires ViewOk(v) == true && Number(v.roles, p) >= 1 && Holders(v.roles) + 1 < DESTROY
    requires (p == Seeks && q == Holds) || (p == Removes && q == Claims)
    ensures Unmarked(Plus(v.rec.word, REF)) && !v.rec.freed
    ensures ViewOk(View(v.registered, v.rec.(word := Plus(v.rec.word, REF)), Moved(v.roles, p, q))) == true
  {
    NoWrap(v.rec.word, REF);
  }

  lemma {:induction false} UnrefView(v: View)
    requires ViewOk(v) == true && Number(v.roles, Holds) >= 1 && Holders(v.roles) < DESTROY
    ensures !v.rec.freed && var w := Plus(v.rec.word, -REF);
            && (Unmarked(w) || Marked(w))
            && ViewOk(View(v.registered, v.rec.(word := w),
               Moved(v.roles, Holds, if w == DESTROY then Signals else Away))) == true
  {
  }

  lemma {:induction false} DestroyView(v: View)
    requires ViewOk(v) == true && Number(v.roles, Closes) >= 1 && Holders(v.roles) < DESTROY
    ensures !v.rec.freed && var w := Plus(v.rec.word, DESTROY - REF);
            && Marked(w)
            && ViewOk(View(v.registered, v.rec.(word := w),
               Moved(v.roles, Closes, if RefCount(w) != 0 then Waits else Poisons))) == true
  {
    NoWrap(v.rec.word, DESTROY - REF);
  }

  lemma {:induction false} PoisonView(v: View)
    ensures ViewOk(v) && Number(v.roles, Poisons) >= 1 ==>
              && !v.rec.freed && v.rec.word == DESTROY
              && ViewOk(View(v.registered, v.rec.(word := POISON), Moved(v.roles, Poisons, Deletes)))
  {
  }

  lemma {:induction false} DeleteView(v: View)
    ensures ViewOk(v) && Number(v.roles, Deletes) >= 1 ==>
              && !v.rec.freed && v.rec.iocp == None
              && ViewOk(View(v.registered, v.rec.(freed := true), Moved(v.roles, Deletes, Away)))
  {
  }

  lemma {:induction false} CloseView(v: View)
    requires ViewOk(v) == true && Number(v.roles, Claims) >= 1
    ensures !v.rec.freed && !v.registered
    ensures ViewOk(View(false, v.rec.(iocp := None), Moved(v.roles, Claims, Closes))) == true
  {
  }

  lemma {:induction false} RemoveView(v: View)
    ensures ViewOk(v) && v.registered && v.roles.seeks == 0 ==>
              !v.rec.freed && ViewOk(View(false, v.rec, Moved(v.roles, Away, Removes)))
  {
  }

  lemma {:induction false} FindView(v: View)
    requires ViewOk(v) == true && v.registered
    ensures !v.rec.freed
    ensures ViewOk(View(v.registered, v.rec, Moved(v.roles, Away, Seeks))) == true
  {
  }

  lemma {:induction false} AddView(v: View)
    ensures ViewOk(v) && Number(v.roles, Makes) >= 1 ==>
              && !v.rec.freed && v.rec.iocp.Some? && !v.registered
              && ViewOk(View(true, v.rec, Moved(v.roles, Makes, Away)))
  {
  }

  lemma {:induction false} MeetView(v: View)
    ensures ViewOk(v) && Number(v.roles, Signals) >= 1 && Number(v.roles, Waits) >= 1 ==>
              !v.rec.freed && ViewOk(View(v.registered, v.rec, Moved(Moved(v.roles, Signals, Away), Waits, Poisons)))
  {
  }

  /** A step that changes the thread's place but not its role. */
  lemma {:induction false} QuietView(v: View, p: Role)
    ensures View(v.registered, v.rec, Moved(v.roles, p, p)) == v
  {
  }

  // ---------- every step ----------

  lemma {:induction false} TreeSame(s: System, s': System)
    requires TreeOk(s) && s'.tree == s.tree && s'.nodes.Keys == s.nodes.Keys
    requires forall n | n in s.nodes :: s'.nodes[n].iocp == s.nodes[n].iocp
    ensures TreeOk(s') == true
  {
  }

  /** Thread `t` takes a step that is about node `m` at most. */
  lemma {:induction false} OneMove(s: System, s': System, t: nat, m: Node)
    requires Inv(s) == true && t < |s.pcs| && t < |s'.pcs| && s'.pcs == s.pcs[t := s'.pcs[t]]
             && s'.nodes.Keys == s.nodes.Keys
    requires TreeOk(s') == true && Knows(s', s'.pcs[t])
    requires s'.readers == s.readers - Weight(Reader, s.pcs[t]) + Weight(Reader, s'.pcs[t])
    requires One(s'.writer) == One(s.writer) - Weight(Writer, s.pcs[t]) + Weight(Writer, s'.pcs[t])
    requires s'.writer ==> s'.readers == 0
    requires forall n | n in s.nodes && n != m ::
               RoleOf(s.pcs[t], n) == RoleOf(s'.pcs[t], n) == Away && s'.nodes[n] == s.nodes[n]
                 && Registered(s', n) == Registered(s, n)
    requires m in s.nodes ==> ViewOk(ViewOf(s', m)) == true
    ensures Inv(s') == true
  {
    hide ViewOk, Moved, Roles;
    LockMoved(s, s', t);
    NodesMoved(s, s', t, m);
  }

  /** A step that is about no node. */
  lemma {:induction false} NoNode(s: System, s': System, t: nat)
    requires Inv(s) == true && t < |s.pcs| && t < |s'.pcs| && s'.pcs == s.pcs[t := s'.pcs[t]]
    requires s'.nodes == s.nodes && s'.tree == s.tree && Knows(s', s'.pcs[t])
    requires forall n | n in s.nodes :: RoleOf(s.pcs[t], n) == RoleOf(s'.pcs[t], n) == Away
    requires s'.readers == s.readers - Weight(Reader, s.pcs[t]) + Weight(Reader, s'.pcs[t])
    requires One(s'.writer) == One(s.writer) - Weight(Writer, s.pcs[t]) + Weight(Writer, s'.pcs[t])
    requires s'.writer ==> s'.readers == 0
    ensures Inv(s') == true
  {
    TreeSame(s, s');
    forall n | n in s.nodes
      ensures ViewOk(ViewOf(s', n)) == true
    {
      OtherNode(s, s', t, n);
    }
    LockMoved(s, s', t);
  }

  /** A thread that holds the lock has been counted. */
  lemma {:induction false} LockHeld(s: System, t: nat)
    requires LockOk(s) && t < |s.pcs|
    ensures s.readers >= Weight(Reader, s.pcs[t]) && One(s.writer) >= Weight(Writer, s.pcs[t])
  {
    SumMove(s.pcs, t, Idle, Reader);
    SumMove(s.pcs, t, Idle, Writer);
  }

  /** While a writer holds the lock, no thread is about to take a reference. */
  lemma {:induction false} NoSeekers(s: System, n: Node)
    requires LockOk(s) && s.writer
    ensures Roles(s.pcs, n).seeks == 0
  {
    SeekersRead(s.pcs, n);
  }

  /** The thread's own node: its view is in order, and counts the thread. */
  lemma {:induction false} OwnNode(s: System, t: nat, n: Node)
    requires Inv(s) && t < |s.pcs| && n in s.nodes
    ensures ViewOk(ViewOf(s, n)) == true && Number(Roles(s.pcs, n), RoleOf(s.pcs[t], n)) >= 1
  {
    hide ViewOk, Moved, Roles;
    assert ViewOk(ViewOf(s, n)) == true;
    RoleMove(s.pcs, t, Using(n), n);
  }

  /** There is room for all references in the lock word, and for the one that a thread is about to take. */
  lemma {:induction false} Room(pcs: seq<Pc>, t: nat, n: Node)
    requires t < |pcs|
    ensures Holders(Roles(pcs, n)) + One(RoleOf(pcs[t], n) == Seeks || RoleOf(pcs[t], n) == Removes) <= |pcs|
  {
    hide Moved, Roles;
    HoldersBound(pcs, n);
    if RoleOf(pcs[t], n) == Seeks || RoleOf(pcs[t], n) == Removes {
      RoleMove(pcs, t, Using(n), n);
      HoldersBound(pcs[t := Using(n)], n);
      OneMore(Roles(pcs, n), RoleOf(pcs[t], n));
    }
  }

  lemma {:induction false} OneMore(x: Tally, p: Role)
    requires p == Seeks || p == Removes
    ensures Holders(Moved(x, p, Holds)) == Holders(x) + 1
  {
  }

  /** The thread is where it is because of node `n` and no other. */
  predicate Only(pc: Pc, n: Node) {
    match pc
    case Found(m) => m == n case Referenced(m) => m == n case Using(m) => m == n case Signalling(m) => m == n
    case Removed(m) => m == n case Claimed(m) => m == n case Closing(m) => m == n case Closed(m) => m == n
    case Awaiting(m) => m == n case Poisoning(m) => m == n case Deleting(m) => m == n
    case Created(m) => m == n case Adding(m) => m == n case Clash(m) => m == n
    case _ => true
  }

  lemma {:induction false} OnlyAway(pc: Pc, n: Node, m: Node)
    requires Only(pc, n) && m != n
    ensures RoleOf(pc, m) == Away
  {
  }

  /** An interlocked operation on the lock word of the thread's node. */
  lemma {:induction false} WordStep(s: System, t: nat, n: Node, w: nat, q: Pc)
    requires Inv(s) == true && t < |s.pcs| && n in s.nodes && Only(s.pcs[t], n) && Only(q, n) && Knows(s, q)
    requires Weight(Reader, q) == Weight(Reader, s.pcs[t]) && Weight(Writer, q) == Weight(Writer, s.pcs[t])
    requires ViewOk(View(Registered(s, n), s.nodes[n].(word := w),
             Moved(Roles(s.pcs, n), RoleOf(s.pcs[t], n), RoleOf(q, n)))) == true
    ensures Inv(At(SetWord(s, n, w), t, q)) == true
  {
    hide ViewOk, Moved, Roles, ViewOf, NodesOk, PcsOk, RoleOf;
    var s' := At(SetWord(s, n, w), t, q);
    TreeSame(s, s');
    CountMoved(s, s', t, n);
    forall m | m in s.nodes && m != n
      ensures RoleOf(s.pcs[t], m) == RoleOf(q, m) == Away
    {
      OnlyAway(s.pcs[t], n, m);
      OnlyAway(q, n, m);
    }
    OneMove(s, s', t, n);
  }

  /** `reflock_ref` under the tree's lock, in shared or exclusive mode. */
  lemma {:induction false} RefStep(s: System, t: nat, n: Node)
    requires Inv(s) == true && t < |s.pcs| && n in s.nodes && (s.pcs[t] == Found(n) || s.pcs[t] == Removed(n))
    ensures SafePc(s, s.pcs[t]) && Inv(Continue(s, t)) == true
  {
    hide ViewOk, Moved, Roles, NodesOk, PcsOk, LockOk, TreeOk;
    OwnNode(s, t, n);
    var q := if s.pcs[t].Found? then Referenced(n) else Claimed(n);
    Room(s.pcs, t, n);
    RefView(ViewOf(s, n), RoleOf(s.pcs[t], n), RoleOf(q, n));
    WordStep(s, t, n, Plus(s.nodes[n].word, REF), q);
  }

  /** `reflock_unref` */
  lemma {:induction false} UnrefStep(s: System, t: nat, n: Node)
    requires Inv(s) == true && t < |s.pcs| && n in s.nodes && s.pcs[t] == Using(n)
    ensures SafePc(s, s.pcs[t]) && Inv(Continue(s, t)) == true
  {
    hide ViewOk, Moved, Roles, NodesOk, PcsOk, LockOk, TreeOk;
    OwnNode(s, t, n);
    Room(s.pcs, t, n);
    UnrefView(ViewOf(s, n));
    var w := Plus(s.nodes[n].word, -REF);
    WordStep(s, t, n, w, if w == DESTROY then Signalling(n) else Idle);
  }

  /** `reflock_unref_and_destroy`, up to the point where it may have to wait */
  lemma {:induction false} DestroyStep(s: System, t: nat, n: Node)
    requires Inv(s) == true && t < |s.pcs| && n in s.nodes && s.pcs[t] == Closed(n)
    ensures SafePc(s, s.pcs[t]) && Inv(Continue(s, t)) == true
  {
    hide ViewOk, Moved, Roles, NodesOk, PcsOk, LockOk, TreeOk;
    OwnNode(s, t, n);
    Room(s.pcs, t, n);
    DestroyView(ViewOf(s, n));
    var w := Plus(s.nodes[n].word, DESTROY - REF);
    WordStep(s, t, n, w, if RefCount(w) != 0 then Awaiting(n) else Poisoning(n));
  }

  /** The end of `reflock_unref_and_destroy` */
  lemma {:induction false} PoisonStep(s: System, t: nat, n: Node)
    requires Inv(s) == true && t < |s.pcs| && n in s.nodes && s.pcs[t] == Poisoning(n)
    ensures SafePc(s, s.pcs[t]) && Inv(Continue(s, t)) == true
  {
    hide ViewOk, Moved, Roles, NodesOk, PcsOk, LockOk, TreeOk;
    OwnNode(s, t, n);
    PoisonView(ViewOf(s, n));
    WordStep(s, t, n, POISON, Deleting(n));
  }

  /** A step of a thread that stays with its node, or leaves nothing behind. */
  lemma {:induction false} QuietStep(s: System, s': System, t: nat, n: Node)
    requires Inv(s) == true && t < |s.pcs| && t < |s'.pcs| && s'.pcs == s.pcs[t := s'.pcs[t]] && n in s.nodes
    requires s'.nodes == s.nodes && s'.tree == s.tree && Only(s.pcs[t], n) && Only(s'.pcs[t], n) && Knows(s, s'.pcs[t])
    requires s'.readers == s.readers - Weight(Reader, s.pcs[t]) + Weight(Reader, s'.pcs[t])
    requires One(s'.writer) == One(s.writer) - Weight(Writer, s.pcs[t]) + Weight(Writer, s'.pcs[t])
    requires s'.writer ==> s'.readers == 0
    requires ViewOk(View(Registered(s, n), s.nodes[n],
             Moved(Roles(s.pcs, n), RoleOf(s.pcs[t], n), RoleOf(s'.pcs[t], n)))) == true
    ensures Inv(s') == true
  {
    hide ViewOk, Moved, Roles, ViewOf, NodesOk, PcsOk, LockOk, RoleOf;
    TreeSame(s, s');
    CountMoved(s, s', t, n);
    forall m | m in s.nodes && m != n
      ensures RoleOf(s.pcs[t], m) == RoleOf(s'.pcs[t], m) == Away
    {
      OnlyAway(s.pcs[t], n, m);
      OnlyAway(s'.pcs[t], n, m);
    }
    OneMove(s, s', t, n);
  }

  /** Taking and releasing the tree's lock, and looking for a node. */
  lemma {:induction false} LockStep(s: System, t: nat)
    requires Inv(s) == true && t < |s.pcs| && CanRun(s, s.pcs[t])
    requires var pc := s.pcs[t]; pc.WantShared? || pc.WantExclusive? || pc.NotFound? || pc.NoSuch? || pc.Added?
    ensures Inv(Continue(s, t)) == true
  {
    LockHeld(s, t);
    NoNode(s, Continue(s, t), t);
  }

  lemma {:induction false} MissStep(s: System, t: nat)
    requires Inv(s) == true && t < |s.pcs|
    requires var pc := s.pcs[t]; (pc.Finding? || pc.Removing?) && pc.h !in s.tree
    ensures Inv(Continue(s, t)) == true
  {
    LockHeld(s, t);
    NoNode(s, Continue(s, t), t);
  }

  lemma {:induction false} HoldStep(s: System, t: nat, n: Node)
    requires Inv(s) == true && t < |s.pcs| && n in s.nodes && (s.pcs[t] == Referenced(n) || s.pcs[t] == Claimed(n))
    ensures Inv(Continue(s, t)) == true
  {
    hide ViewOk, Moved, Roles, NodesOk, PcsOk, TreeOk;
    OwnNode(s, t, n);
    LockHeld(s, t);
    QuietView(ViewOf(s, n), RoleOf(s.pcs[t], n));
    QuietStep(s, Continue(s, t), t, n);
  }

  lemma {:induction false} MakeStep(s: System, t: nat, n: Node)
    requires Inv(s) == true && t < |s.pcs| && n in s.nodes && s.pcs[t] == Created(n) && !s.writer && s.readers == 0
    ensures Inv(Continue(s, t)) == true
  {
    hide ViewOk, Moved, Roles, NodesOk, PcsOk, TreeOk;
    OwnNode(s, t, n);
    QuietView(ViewOf(s, n), Makes);
    QuietStep(s, Continue(s, t), t, n);
  }

  lemma {:induction false} FindStep(s: System, t: nat, h: Handle)
    requires Inv(s) == true && t < |s.pcs| && s.pcs[t] == Finding(h) && h in s.tree
    ensures SafePc(s, s.pcs[t]) && Inv(Continue(s, t)) == true
  {
    hide ViewOk, Moved, Roles, NodesOk, PcsOk;
    var n := s.tree[h];
    OwnNode(s, t, n);
    LockHeld(s, t);
    FindView(ViewOf(s, n));
    QuietStep(s, Continue(s, t), t, n);
  }

  /** `tree_del`: with the lock held, no thread is between finding the node and referencing it. */
  lemma {:induction false} RemoveStep(s: System, t: nat, h: Handle)
    requires Inv(s) == true && t < |s.pcs| && s.pcs[t] == Removing(h) && h in s.tree
    ensures SafePc(s, s.pcs[t]) && Inv(Continue(s, t)) == true
  {
    hide ViewOk, Moved, Roles, NodesOk, PcsOk;
    var n := s.tree[h];
    OwnNode(s, t, n);
    LockHeld(s, t);
    NoSeekers(s, n);
    RemoveView(ViewOf(s, n));
    var s' := Continue(s, t);
    CountMoved(s, s', t, n);
    OneMove(s, s', t, n);
  }

  /** `port_close` */
  function CloseIocp(s: System, t: nat, n: Node): System
    requires t < |s.pcs| && n in s.nodes
  {
    At(s.(nodes := s.nodes[n := s.nodes[n].(iocp := None)]), t, Closed(n))
  }

  lemma {:induction false} CloseStep(s: System, t: nat, n: Node)
    requires Inv(s) == true && t < |s.pcs| && n in s.nodes && s.pcs[t] == Closing(n)
    ensures SafePc(s, s.pcs[t]) && Inv(Continue(s, t)) == true
  {
    ClosedOk(s, t, n);
    assert Continue(s, t) == CloseIocp(s, t, n);
  }

  lemma {:induction false} ClosedOk(s: System, t: nat, n: Node)
    requires Inv(s) == true && t < |s.pcs| && n in s.nodes && s.pcs[t] == Closing(n)
    ensures !s.nodes[n].freed && Inv(CloseIocp(s, t, n)) == true
  {
    hide ViewOk, Moved, Roles, NodesOk, PcsOk;
    OwnNode(s, t, n);
    CloseView(ViewOf(s, n));
    RecStep(s, CloseIocp(s, t, n), t, n);
  }

  /** A step that changes the record of the thread's node. */
  lemma {:induction false} RecStep(s: System, s': System, t: nat, n: Node)
    requires Inv(s) == true && t < |s.pcs| && t < |s'.pcs| && s'.pcs == s.pcs[t := s'.pcs[t]] && n in s.nodes
             && n in s'.nodes
    requires s'.nodes == s.nodes[n := s'.nodes[n]] && TreeOk(s') == true
    requires Only(s.pcs[t], n) && Only(s'.pcs[t], n) && Knows(s', s'.pcs[t])
    requires forall m | m in s.nodes && m != n :: Registered(s', m) == Registered(s, m)
    requires s'.readers == s.readers && s'.writer == s.writer && (s'.writer ==> s'.readers == 0)
    requires Weight(Reader, s'.pcs[t]) == Weight(Reader, s.pcs[t])
             && Weight(Writer, s'.pcs[t]) == Weight(Writer, s.pcs[t])
    requires ViewOk(View(Registered(s', n), s'.nodes[n],
             Moved(Roles(s.pcs, n), RoleOf(s.pcs[t], n), RoleOf(s'.pcs[t], n)))) == true
    ensures Inv(s') == true
  {
    hide ViewOk, Moved, Roles, ViewOf, NodesOk, PcsOk, RoleOf;
    CountMoved(s, s', t, n);
    forall m | m in s.nodes && m != n
      ensures RoleOf(s.pcs[t], m) == RoleOf(s'.pcs[t], m) == Away
    {
      OnlyAway(s.pcs[t], n, m);
      OnlyAway(s'.pcs[t], n, m);
    }
    OneMove(s, s', t, n);
  }

  /** `port_delete` */
  lemma {:induction false} DeleteStep(s: System, t: nat, n: Node)
    requires Inv(s) == true && t < |s.pcs| && n in s.nodes && s.pcs[t] == Deleting(n)
    ensures SafePc(s, s.pcs[t]) && Inv(Continue(s, t)) == true
  {
    hide ViewOk, Moved, Roles, NodesOk, PcsOk;
    OwnNode(s, t, n);
    DeleteView(ViewOf(s, n));
    var s' := Continue(s, t);
    CountMoved(s, s', t, n);
    TreeSame(s, s');
    OneMove(s, s', t, n);
  }

  /** `ts_tree_add` never finds the handle in the tree: it belongs to a completion port that is still open. */
  lemma {:induction false} AddStep(s: System, t: nat, n: Node)
    requires Inv(s) == true && t < |s.pcs| && n in s.nodes && s.pcs[t] == Adding(n)
    ensures SafePc(s, s.pcs[t]) && s.nodes[n].iocp.value !in s.tree && Inv(Continue(s, t)) == true
  {
    hide ViewOk, Moved, Roles, NodesOk, PcsOk;
    OwnNode(s, t, n);
    LockHeld(s, t);
    AddView(ViewOf(s, n));
    var s' := Continue(s, t);
    CountMoved(s, s', t, n);
    OneMove(s, s', t, n);
  }

  /** The keyed event: the thread that dropped the last reference meets the one that waits for it. */
  lemma {:induction false} MeetStep(s: System, t: nat, u: nat)
    requires Inv(s) == true && Enabled(s, Meet(t, u))
    ensures Safe(s, Meet(t, u)) && Inv(Next(s, Meet(t, u))) == true
  {
    var n := s.pcs[t].n;
    assert Knows(s, s.pcs[t]);
    MeetOwn(s, t, u, n);
    forall m | m in s.nodes
      ensures ViewOk(ViewOf(At(At(s, t, Idle), u, Poisoning(n)), m)) == true
    {
      if m != n {
        MeetOthers(s, t, u, n, m);
      }
    }
    MeetLock(s, t, u);
    MeetRest(s, t, u, n);
  }

  lemma {:induction false} MeetRest(s: System, t: nat, u: nat, n: Node)
    requires TreeOk(s) && PcsOk(s) && t < |s.pcs| && u < |s.pcs| && n in s.nodes
    ensures TreeOk(At(At(s, t, Idle), u, Poisoning(n))) == true && PcsOk(At(At(s, t, Idle), u, Poisoning(n))) == true
  {
  }

  lemma {:induction false} MeetOwn(s: System, t: nat, u: nat, n: Node)
    requires Inv(s) == true && t < |s.pcs| && u < |s.pcs| && n in s.nodes && s.pcs[t] == Signalling(n)
             && s.pcs[u] == Awaiting(n)
    ensures !s.nodes[n].freed && ViewOk(ViewOf(At(At(s, t, Idle), u, Poisoning(n)), n)) == true
  {
    hide ViewOk, Moved, Roles;
    OwnNode(s, t, n);
    OwnNode(s, u, n);
    MeetView(ViewOf(s, n));
    MeetCounts(s, t, u, n);
  }

  lemma {:induction false} MeetCounts(s: System, t: nat, u: nat, n: Node)
    requires t < |s.pcs| && u < |s.pcs| && n in s.nodes && s.pcs[t] == Signalling(n) && s.pcs[u] == Awaiting(n)
    ensures Roles(s.pcs[t := Idle][u := Poisoning(n)], n)
            == Moved(Moved(Roles(s.pcs, n), Signals, Away), Waits, Poisons)
  {
    hide Moved;
    RoleMove(s.pcs, t, Idle, n);
    RoleMove(s.pcs[t := Idle], u, Poisoning(n), n);
  }

  lemma {:induction false} MeetOthers(s: System, t: nat, u: nat, n: Node, m: Node)
    requires t < |s.pcs| && u < |s.pcs| && s.pcs[t] == Signalling(n) && s.pcs[u] == Awaiting(n) && m in s.nodes
             && m != n
    ensures ViewOf(At(At(s, t, Idle), u, Poisoning(n)), m) == ViewOf(s, m)
  {
    hide Moved, Roles;
    var s1 := At(s, t, Idle);
    OtherNode(s, s1, t, m);
    OtherNode(s1, At(s1, u, Poisoning(n)), u, m);
  }

  lemma {:induction false} MeetLock(s: System, t: nat, u: nat)
    requires LockOk(s) && t < |s.pcs| && u < |s.pcs| && s.pcs[t].Signalling? && s.pcs[u].Awaiting?
    ensures LockOk(At(At(s, t, Idle), u, Poisoning(s.pcs[u].n))) == true
  {
    LockMoved(s, At(s, t, Idle), t);
    LockMoved(At(s, t, Idle), At(At(s, t, Idle), u, Poisoning(s.pcs[u].n)), u);
  }

  lemma {:induction false} StartStep(s: System, a: Action)
    requires Inv(s) == true && Enabled(s, a) && (a.StartUse? || a.StartClose?)
    ensures Inv(Next(s, a)) == true
  {
    NoNode(s, Next(s, a), a.t);
  }

  /** A node that no thread knows of yet. */
  lemma {:induction false} NewNode(s: System, n: Node, h: Handle)
    requires PcsOk(s) && TreeOk(s) && n !in s.nodes
    ensures !Registered(NewPort(s, n, h), n) && forall t | 0 <= t < |s.pcs| :: RoleOf(s.pcs[t], n) == Away
  {
  }

  /** `port_new` */
  function NewPort(s: System, n: Node, h: Handle): System {
    s.(nodes := s.nodes[n := PortNode(0, Some(h), false)])
  }

  lemma {:induction false} CreateStep(s: System, t: nat, n: Node, h: Handle)
    requires Inv(s) == true && Enabled(s, StartCreate(t, n, h))
    ensures Inv(Next(s, StartCreate(t, n, h))) == true
  {
    CreateMove(s, t, n, h);
    assert Next(s, StartCreate(t, n, h)) == At(NewPort(s, n, h), t, Created(n));
  }

  lemma {:induction false} CreateMove(s: System, t: nat, n: Node, h: Handle)
    requires Inv(s) == true && t < |s.pcs| && s.pcs[t] == Idle && n !in s.nodes
    requires forall m | m in s.nodes :: s.nodes[m].iocp != Some(h)
    ensures Inv(At(NewPort(s, n, h), t, Created(n))) == true
  {
    hide ViewOk, Moved, Roles, ViewOf, NodesOk;
    var s2 := At(NewPort(s, n, h), t, Created(n));
    CreateNodes(s, t, n, h);
    LockMoved(s, s2, t);
  }

  lemma {:induction false} NewView(x: Tally, r: PortNode)
    requires Unused(x) && Proper(x) && r.word == 0 && r.iocp.Some? && !r.freed
    ensures ViewOk(View(false, r, Moved(x, Away, Makes))) == true
  {
  }

  lemma {:induction false} CreateNodes(s: System, t: nat, n: Node, h: Handle)
    requires PcsOk(s) && TreeOk(s) && NodesOk(s) && n !in s.nodes && t < |s.pcs| && s.pcs[t] == Idle
    ensures NodesOk(At(NewPort(s, n, h), t, Created(n))) == true
  {
    hide ViewOk, Moved, Roles, PcsOk;
    var s1 := NewPort(s, n, h);
    var s2 := At(s1, t, Created(n));
    NewNode(s, n, h);
    NobodyThere(s.pcs, n);
    CountMoved(s1, s2, t, n);
    NewView(Roles(s.pcs, n), PortNode(0, Some(h), false));
    forall m | m in s.nodes
      ensures ViewOk(ViewOf(s2, m)) == true
    {
      OtherView(s, s1, m);
      OtherNode(s1, s2, t, m);
    }
  }

  lemma {:induction false} OtherView(s: System, s1: System, m: Node)
    requires m in s.nodes && m in s1.nodes && s1.nodes[m] == s.nodes[m] && s1.tree == s.tree && s1.pcs == s.pcs
    ensures ViewOf(s1, m) == ViewOf(s, m)
  {
  }

  /** Every step of every thread is safe, and keeps all of the above. */
  lemma {:induction false} RunKeeps(s: System, t: nat)
    requires Inv(s) == true && Enabled(s, Run(t))
    ensures SafePc(s, s.pcs[t]) && Inv(Continue(s, t)) == true
  {
    hide ViewOk, Moved, Roles, NodesOk, LockOk, TreeOk;
    assert Knows(s, s.pcs[t]);
    match s.pcs[t] {
      case WantShared(_) => LockStep(s, t);
      case WantExclusive(_) => LockStep(s, t);
      case NotFound => LockStep(s, t);
      case NoSuch => LockStep(s, t);
      case Added => LockStep(s, t);
      case Finding(h) => if h in s.tree { FindStep(s, t, h); } else { MissStep(s, t); }
      case Removing(h) => if h in s.tree { RemoveStep(s, t, h); } else { MissStep(s, t); }
      case Found(n) => RefStep(s, t, n);
      case Removed(n) => RefStep(s, t, n);
      case Referenced(n) => HoldStep(s, t, n);
      case Claimed(n) => HoldStep(s, t, n);
      case Created(n) => MakeStep(s, t, n);
      case Adding(n) => AddStep(s, t, n);
      case Using(n) => UnrefStep(s, t, n);
      case Closing(n) => CloseStep(s, t, n);
      case Closed(n) => DestroyStep(s, t, n);
      case Poisoning(n) => PoisonStep(s, t, n);
      case Deleting(n) => DeleteStep(s, t, n);
      case _ =>
    }
  }

  lemma {:induction false} StepKeeps(s: System, a: Action)
    requires Inv(s) == true && Enabled(s, a)
    ensures Safe(s, a) && Inv(Next(s, a)) == true
  {
    match a {
      case StartUse(_, _) => StartStep(s, a);
      case StartClose(_, _) => StartStep(s, a);
      case StartCreate(t, n, h) => CreateStep(s, t, n, h);
      case Run(t) => RunKeeps(s, t);
      case Meet(t, u) => MeetStep(s, t, u);
    }
  }
}
