/** Threads that create, use and close epoll ports at the same time.

    A port is found through the locked handle tree and kept alive by its reflock.  Every
    step below is one atomic action of one thread: taking or releasing the tree's lock, an
    interlocked operation on the lock word, or one rendezvous on the keyed event.  Any number
    of threads run any mix of `epoll_create`, `epoll_ctl`/`epoll_wait` and `epoll_close`, in
    any order. */
module Reflock {
  import opened Basics

  const REF: int := 0x0000_0001
  const DESTROY: int := 0x1000_0000
  const POISON: nat := 0x300d_ead0
  const WORD: nat := 0x1_0000_0000

  type Handle = nat
  type Node = nat

  /** Where a thread is: in `epoll_ctl` or `epoll_wait` (first two lines), in `epoll_close` (third and fourth),
      or in `epoll_create`. */
  datatype Pc =
    | Idle
    | WantShared(h: Handle) | Finding(h: Handle) | Found(n: Node) | Referenced(n: Node) | NotFound | Using(n: Node)
    | Signalling(n: Node)
    | WantExclusive(h: Handle) | Removing(h: Handle) | Removed(n: Node) | Claimed(n: Node) | NoSuch | Closing(n: Node)
    | Closed(n: Node) | Awaiting(n: Node) | Poisoning(n: Node) | Deleting(n: Node)
    | Created(n: Node) | Adding(n: Node) | Added | Clash(n: Node)

  /** The parts of a `port_state_t` that matter here: the lock word, the completion port, and whether the memory is
      gone. */
  datatype PortNode = PortNode(word: nat, iocp: Option<Handle>, freed: bool)

  /** `readers` and `writer` are the state of the SRW lock that guards the tree. */
  datatype System = System(pcs: seq<Pc>, readers: int, writer: bool, tree: map<Handle, Node>,
    nodes: map<Node, PortNode>)

  datatype Action =
    | StartUse(t: nat, h: Handle)
    | StartClose(t: nat, h: Handle)
    | StartCreate(t: nat, n: Node, h: Handle)
    | Run(t: nat)
    | Meet(t: nat, u: nat)

  /** `InterlockedAdd` on a 32-bit word. */
  function Plus(word: nat, d: int): nat {
    (word + d) % WORD
  }

  /** The word has none of the bits in `REFLOCK__DESTROY_MASK`. */
  predicate Unmarked(word: nat) {
    word < DESTROY
  }

  /** Of the bits in `REFLOCK__DESTROY_MASK`, the word has only `REFLOCK__DESTROY`. */
  predicate Marked(word: nat) {
    DESTROY <= word < 2 * DESTROY
  }

  /** `word & REFLOCK__REF_MASK` */
  function RefCount(word: nat): nat {
    word % DESTROY
  }

  predicate IsStart(a: Action) {
    a.StartUse? || a.StartClose? || a.StartCreate?
  }

  // ---------- steps ----------

  /** Whether a step can be taken now; the system gives out fresh memory and the handle of no open completion port. */
  ghost predicate Enabled(s: System, a: Action) {
    match a
    case StartUse(t, _) => t < |s.pcs| && s.pcs[t] == Idle
    case StartClose(t, _) => t < |s.pcs| && s.pcs[t] == Idle
    case StartCreate(t, n, h) =>
      t < |s.pcs| && s.pcs[t] == Idle && n !in s.nodes && forall m | m in s.nodes :: s.nodes[m].iocp != Some(h)
    case Run(t) => t < |s.pcs| && CanRun(s, s.pcs[t])
    case Meet(t, u) => t < |s.pcs| && u < |s.pcs| && s.pcs[t].Signalling? && s.pcs[u] == Awaiting(s.pcs[t].n)
  }

  predicate CanRun(s: System, pc: Pc) {
    match pc
    case Idle => false
    case WantShared(_) => !s.writer
    case WantExclusive(_) => !s.writer && s.readers == 0
    case Created(_) => !s.writer && s.readers == 0
    case Signalling(_) => false
    case Awaiting(_) => false
    case _ => true
  }

  predicate Live(s: System, n: Node) {
    n in s.nodes && !s.nodes[n].freed
  }

  /** Memory that is touched has not been freed, and the assertions of `reflock_ref`, `reflock_unref`,
      `reflock_unref_and_destroy` and `port_delete` hold. */
  predicate Safe(s: System, a: Action) {
    match a
    case Run(t) => t < |s.pcs| ==> SafePc(s, s.pcs[t])
    case Meet(t, u) => u < |s.pcs| && s.pcs[u].Awaiting? ==> Live(s, s.pcs[u].n)
    case _ => true
  }

  predicate SafePc(s: System, pc: Pc) {
    match pc
    case Finding(h) => h in s.tree ==> Live(s, s.tree[h])
    case Removing(h) => h in s.tree ==> Live(s, s.tree[h])
    case Found(n) => Live(s, n) && Unmarked(Plus(s.nodes[n].word, REF))
    case Removed(n) => Live(s, n) && Unmarked(Plus(s.nodes[n].word, REF))
    case Using(n) => Live(s, n) && (var w := Plus(s.nodes[n].word, -REF); Unmarked(w) || Marked(w))
    case Closing(n) => Live(s, n)
    case Closed(n) => Live(s, n) && Marked(Plus(s.nodes[n].word, DESTROY - REF))
    case Poisoning(n) => Live(s, n) && s.nodes[n].word == DESTROY
    case Deleting(n) => Live(s, n) && s.nodes[n].iocp == None
    case Adding(n) => Live(s, n) && s.nodes[n].iocp.Some?
    case Clash(n) => Live(s, n) && s.nodes[n].iocp == None
    case _ => true
  }

  function At(s: System, t: nat, pc: Pc): System
    requires t < |s.pcs|
  {
    s.(pcs := s.pcs[t := pc])
  }

  function SetWord(s: System, n: Node, word: nat): System
    requires n in s.nodes
  {
    s.(nodes := s.nodes[n := s.nodes[n].(word := word)])
  }

  function Next(s: System, a: Action): System
    requires match a case Run(t) => t < |s.pcs| && SafePc(s, s.pcs[t])
                     case Meet(t, u) => t < |s.pcs| && u < |s.pcs| && s.pcs[u].Awaiting?
                     case _ => a.t < |s.pcs|
  {
    match a
    case StartUse(t, h) => At(s, t, WantShared(h))
    case StartClose(t, h) => At(s, t, WantExclusive(h))
    case StartCreate(t, n, h) => At(s.(nodes := s.nodes[n := PortNode(0, Some(h), false)]), t, Created(n))
    case Run(t) => Continue(s, t)
    case Meet(t, u) => At(At(s, t, Idle), u, Poisoning(s.pcs[u].n))
  }

  /** The next step of one thread. */
  function Continue(s: System, t: nat): System
    requires t < |s.pcs| && SafePc(s, s.pcs[t])
  {
    match s.pcs[t]
    // ts_tree_find_and_ref
    case WantShared(h) => At(s.(readers := s.readers + 1), t, Finding(h))
    case Finding(h) => At(s, t, if h in s.tree then Found(s.tree[h]) else NotFound)
    case Found(n) => At(SetWord(s, n, Plus(s.nodes[n].word, REF)), t, Referenced(n))
    case Referenced(n) => At(s.(readers := s.readers - 1), t, Using(n))
    case NotFound => At(s.(readers := s.readers - 1), t, Idle)
    // port_ctl or port_wait, then reflock_unref
    case Using(n) =>
      var w := Plus(s.nodes[n].word, -REF);
      At(SetWord(s, n, w), t, if w == DESTROY then Signalling(n) else Idle)
    // ts_tree_del_and_ref
    case WantExclusive(h) => At(s.(writer := true), t, Removing(h))
    case Removing(h) => if h in s.tree then At(s.(tree := s.tree - {h}), t, Removed(s.tree[h])) else At(s, t, NoSuch)
    case Removed(n) => At(SetWord(s, n, Plus(s.nodes[n].word, REF)), t, Claimed(n))
    case Claimed(n) => At(s.(writer := false), t, Closing(n))
    case NoSuch => At(s.(writer := false), t, Idle)
    // port_close
    case Closing(n) => At(s.(nodes := s.nodes[n := s.nodes[n].(iocp := None)]), t, Closed(n))
    // reflock_unref_and_destroy
    case Closed(n) =>
      var w := Plus(s.nodes[n].word, DESTROY - REF);
      At(SetWord(s, n, w), t, if RefCount(w) != 0 then Awaiting(n) else Poisoning(n))
    case Poisoning(n) => At(SetWord(s, n, POISON), t, Deleting(n))
    // port_delete
    case Deleting(n) => At(s.(nodes := s.nodes[n := s.nodes[n].(freed := true)]), t, Idle)
    // ts_tree_add
    case Created(n) => At(s.(writer := true), t, Adding(n))
    case Adding(n) =>
      var h := s.nodes[n].iocp.value;
      if h in s.tree then At(s, t, Clash(n)) else At(s.(tree := s.tree[h := n]), t, Added)
    case Added => At(s.(writer := false), t, Idle)
    case Clash(n) => At(s.(writer := false, nodes := s.nodes[n := s.nodes[n].(freed := true)]), t, Idle)
    case _ => s
  }

  datatype Outcome = Running(s: System) | Fault

  function Init(threads: nat): System {
    System(seq(threads, _ => Idle), 0, false, map[], map[])
  }

  /** What a schedule leads to; steps that cannot be taken are skipped, and an unsafe one is a fault. */
  ghost function Exec(threads: nat, acts: seq<Action>): Outcome
    decreases |acts|
  {
    if acts == [] then Running(Init(threads))
    else
      match Exec(threads, acts[..|acts| - 1])
      case Fault => Fault
      case Running(s) => Step(s, acts[|acts| - 1])
  }

  ghost function Step(s: System, a: Action): Outcome {
    if !Enabled(s, a) then Running(s) else if !Safe(s, a) then Fault else Running(Next(s, a))
  }

  // ---------- counting threads ----------

  /** What a thread is doing to one given node. */
  datatype Role = Away | Makes | Seeks | Holds | Signals | Removes | Claims | Closes | Waits | Poisons | Deletes

  function RoleOf(pc: Pc, n: Node): Role {
    match pc
    case Created(m) => if m == n then Makes else Away
    case Adding(m) => if m == n then Makes else Away
    case Clash(m) => if m == n then Makes else Away
    case Found(m) => if m == n then Seeks else Away
    case Referenced(m) => if m == n then Holds else Away
    case Using(m) => if m == n then Holds else Away
    case Signalling(m) => if m == n then Signals else Away
    case Removed(m) => if m == n then Removes else Away
    case Claimed(m) => if m == n then Claims else Away
    case Closing(m) => if m == n then Claims else Away
    case Closed(m) => if m == n then Closes else Away
    case Awaiting(m) => if m == n then Waits else Away
    case Poisoning(m) => if m == n then Poisons else Away
    case Deleting(m) => if m == n then Deletes else Away
    case _ => Away
  }

  /** How many threads have each role. */
  datatype Tally = Tally(makes: int, seeks: int, holds: int, signals: int, removes: int, claims: int, closes: int,
    waits: int, poisons: int, deletes: int)

  /** One thread gives up role `p` for role `q`. */
  function Moved(x: Tally, p: Role, q: Role): Tally {
    Tally(x.makes + Change(Makes, p, q), x.seeks + Change(Seeks, p, q), x.holds + Change(Holds, p, q),
          x.signals + Change(Signals, p, q), x.removes + Change(Removes, p, q), x.claims + Change(Claims, p, q),
          x.closes + Change(Closes, p, q), x.waits + Change(Waits, p, q), x.poisons + Change(Poisons, p, q),
          x.deletes + Change(Deletes, p, q))
  }

  function Change(r: Role, p: Role, q: Role): int {
    One(q == r) - One(p == r)
  }

  function Number(x: Tally, r: Role): int {
    match r
    case Away => 1
    case Makes => x.makes
    case Seeks => x.seeks
    case Holds => x.holds
    case Signals => x.signals
    case Removes => x.removes
    case Claims => x.claims
    case Closes => x.closes
    case Waits => x.waits
    case Poisons => x.poisons
    case Deletes => x.deletes
  }

  predicate Proper(x: Tally) {
    x.makes >= 0 && x.seeks >= 0 && x.holds >= 0 && x.signals >= 0 && x.removes >= 0 && x.claims >= 0 && x.closes >= 0
      && x.waits >= 0 && x.poisons >= 0 && x.deletes >= 0
  }

  predicate Unused(x: Tally) {
    x.makes + x.seeks + x.holds + x.signals + x.removes + x.claims + x.closes + x.waits + x.poisons + x.deletes <= 0
  }

  /** What the threads are doing to one node. */
  function Roles(pcs: seq<Pc>, n: Node): (x: Tally)
    ensures Proper(x)
  {
    if pcs == [] then Tally(0, 0, 0, 0, 0, 0, 0, 0, 0, 0) else Moved(Roles(pcs[1..], n), Away, RoleOf(pcs[0], n))
  }

  /** Threads that hold a reference. */
  function Holders(x: Tally): int {
    x.holds + x.claims + x.closes
  }

  /** Threads between `tree_del` and the end of `port_delete`. */
  function Owners(x: Tally): int {
    x.removes + x.claims + x.closes + x.waits + x.poisons + x.deletes
  }

  datatype Kind = Reader | Writer | Rank

  function One(b: bool): nat {
    if b then 1 else 0
  }

  function Weight(k: Kind, pc: Pc): nat {
    match k
    case Reader => One(pc.Finding? || pc.Found? || pc.Referenced? || pc.NotFound?)
    case Writer => One(pc.Removing? || pc.Removed? || pc.Claimed? || pc.NoSuch? || pc.Adding? || pc.Added? || pc.Clash?)
    case Rank => StepsLeft(pc)
  }

  /** How many more steps a call can take. */
  function StepsLeft(pc: Pc): nat {
    match pc
    case Idle => 0
    case WantShared(_) => 7 case Finding(_) => 6 case Found(_) => 5 case Referenced(_) => 4
    case NotFound => 1 case Using(_) => 3 case Signalling(_) => 2
    case WantExclusive(_) => 10 case Removing(_) => 9 case Removed(_) => 8 case Claimed(_) => 7
    case NoSuch => 1 case Closing(_) => 6 case Closed(_) => 5 case Awaiting(_) => 4 case Poisoning(_) => 3
    case Deleting(_) => 2
    case Created(_) => 4 case Adding(_) => 3 case Added => 1 case Clash(_) => 2
  }

  function Sum(pcs: seq<Pc>, k: Kind): nat {
    if pcs == [] then 0 else Weight(k, pcs[0]) + Sum(pcs[1..], k)
  }

  lemma {:induction false} SumMove(pcs: seq<Pc>, t: nat, pc: Pc, k: Kind)
    requires t < |pcs|
    ensures Sum(pcs[t := pc], k) == Sum(pcs, k) - Weight(k, pcs[t]) + Weight(k, pc)
    ensures Sum(pcs, k) >= Weight(k, pcs[t])
  {
    if t == 0 {
      assert pcs[t := pc][1..] == pcs[1..];
    } else {
      assert pcs[t := pc][1..] == pcs[1..][t - 1 := pc];
      SumMove(pcs[1..], t - 1, pc, k);
    }
  }

  lemma {:induction false} SumZero(pcs: seq<Pc>, k: Kind)
    requires forall t | 0 <= t < |pcs| :: Weight(k, pcs[t]) == 0
    ensures Sum(pcs, k) == 0
  {
    if pcs != [] {
      assert forall t | 0 <= t < |pcs[1..]| :: pcs[1..][t] == pcs[t + 1];
      SumZero(pcs[1..], k);
    }
  }

  lemma {:induction false} Someone(pcs: seq<Pc>, k: Kind) returns (t: nat)
    requires Sum(pcs, k) > 0
    ensures t < |pcs| && Weight(k, pcs[t]) > 0
  {
    if Weight(k, pcs[0]) > 0 {
      t := 0;
    } else {
      t := Someone(pcs[1..], k);
      t := t + 1;
    }
  }

  lemma {:induction false} MovedTwice(x: Tally, p: Role, q: Role, r: Role)
    ensures Moved(Moved(x, p, q), Away, r) == Moved(Moved(x, Away, r), p, q)
    ensures Moved(Moved(x, Away, p), p, r) == Moved(x, Away, r)
  {
  }

  lemma {:induction false} NumberMoved(x: Tally, p: Role, q: Role, r: Role)
    ensures Number(Moved(x, p, q), r) == Number(x, r) + (if r == Away then 0 else Change(r, p, q))
  {
  }

  lemma {:induction false} RoleMove(pcs: seq<Pc>, t: nat, pc: Pc, n: Node)
    requires t < |pcs|
    ensures Number(Roles(pcs, n), RoleOf(pcs[t], n)) >= 1
    ensures Roles(pcs[t := pc], n) == Moved(Roles(pcs, n), RoleOf(pcs[t], n), RoleOf(pc, n))
  {
    hide Moved, RoleOf;
    var rest := pcs[1..];
    var x, first, was, now := Roles(rest, n), RoleOf(pcs[0], n), RoleOf(pcs[t], n), RoleOf(pc, n);
    NumberMoved(x, Away, first, was);
    if t == 0 {
      assert pcs[t := pc][1..] == rest;
      MovedTwice(x, first, first, now);
    } else {
      assert pcs[t := pc][1..] == rest[t - 1 := pc];
      RoleMove(rest, t - 1, pc, n);
      MovedTwice(x, was, now, first);
    }
  }

  lemma {:induction false} Somebody(pcs: seq<Pc>, n: Node, r: Role) returns (t: nat)
    ensures r != Away && Number(Roles(pcs, n), r) >= 1 ==> t < |pcs| && RoleOf(pcs[t], n) == r
  {
    hide Moved, RoleOf;
    t := 0;
    if pcs != [] && RoleOf(pcs[0], n) != r {
      NumberMoved(Roles(pcs[1..], n), Away, RoleOf(pcs[0], n), r);
      t := Somebody(pcs[1..], n, r);
      t := t + 1;
    }
  }

  /** Different threads are counted separately. */
  lemma {:induction false} TwoRoles(pcs: seq<Pc>, t: nat, u: nat, n: Node)
    requires t < |pcs| && u < |pcs| && t != u
    ensures Number(Roles(pcs, n), RoleOf(pcs[t], n)) >= 1
    ensures Number(Moved(Roles(pcs, n), RoleOf(pcs[t], n), Away), RoleOf(pcs[u], n)) >= 1
  {
    RoleMove(pcs, t, Idle, n);
    RoleMove(pcs[t := Idle], u, Idle, n);
    assert pcs[t := Idle][u] == pcs[u];
  }

  lemma {:induction false} MovedIn(x: Tally, r: Role)
    ensures Moved(x, Away, Away) == x
    ensures Holders(Moved(x, Away, r)) <= Holders(x) + 1
    ensures Moved(x, Away, r).seeks == x.seeks + One(r == Seeks)
  {
  }

  lemma {:induction false} HoldersBound(pcs: seq<Pc>, n: Node)
    ensures Holders(Roles(pcs, n)) <= |pcs|
  {
    hide Moved;
    if pcs != [] {
      MovedIn(Roles(pcs[1..], n), RoleOf(pcs[0], n));
      HoldersBound(pcs[1..], n);
    }
  }

  lemma {:induction false} SeekersRead(pcs: seq<Pc>, n: Node)
    ensures Roles(pcs, n).seeks <= Sum(pcs, Reader)
  {
    hide Moved;
    if pcs != [] {
      MovedIn(Roles(pcs[1..], n), RoleOf(pcs[0], n));
      SeekersRead(pcs[1..], n);
    }
  }

  /** A node that no thread has to do with. */
  lemma {:induction false} NobodyThere(pcs: seq<Pc>, n: Node)
    requires forall t | 0 <= t < |pcs| :: RoleOf(pcs[t], n) == Away
    ensures Unused(Roles(pcs, n))
  {
    hide Moved;
    if pcs != [] {
      assert forall t | 0 <= t < |pcs[1..]| :: pcs[1..][t] == pcs[t + 1];
      MovedIn(Roles(pcs[1..], n), Away);
      NobodyThere(pcs[1..], n);
    }
  }
}
