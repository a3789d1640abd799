/** What the event masks mean, bit by bit. */
module PortEvents {
  import opened PortModel

  predicate Bit(b: bv32) {
    b != 0 && b & (b - 1) == 0
  }

  predicate Has(mask: bv32, b: bv32) {
    mask & b != 0
  }

  /** The events of epoll that each event of a poll request stands for.  After `connect` has failed, Linux reports
      six. */
  predicate Signals(a: bv32, b: bv32) {
    || (a == AFD_RECEIVE && (b == EPOLLIN || b == EPOLLRDNORM))
    || (a == AFD_ACCEPT && (b == EPOLLIN || b == EPOLLRDNORM))
    || (a == AFD_RECEIVE_EXPEDITED && (b == EPOLLPRI || b == EPOLLRDBAND))
    || (a == AFD_SEND && (b == EPOLLOUT || b == EPOLLWRNORM || b == EPOLLWRBAND))
    || (a == AFD_DISCONNECT && (b == EPOLLIN || b == EPOLLRDNORM || b == EPOLLRDHUP))
    || (a == AFD_ABORT && b == EPOLLHUP)
    || (a == AFD_CONNECT_FAIL && (b == EPOLLIN || b == EPOLLOUT || b == EPOLLERR))
    || (a == AFD_CONNECT_FAIL && (b == EPOLLRDNORM || b == EPOLLWRNORM || b == EPOLLRDHUP))
  }

  /** The events of poll requests that stand for something. */
  predicate Speaks(a: bv32) {
    || a == AFD_RECEIVE || a == AFD_ACCEPT || a == AFD_RECEIVE_EXPEDITED || a == AFD_SEND
    || a == AFD_DISCONNECT || a == AFD_ABORT || a == AFD_CONNECT_FAIL
  }

  /** Some event in the mask is one that `a` stands for. */
  ghost predicate Asks(mask: bv32, a: bv32) {
    exists b :: Signals(a, b) && Has(mask, b)
  }

  /** The request for an interest: that the socket is closed, and everything that stands for something asked for; a
      failed connection only if errors are asked for. */
  lemma {:induction false} RequestExact(e: bv32, a: bv32)
    requires Bit(a)
    ensures Has(AfdEvents(e), a) <==>
            a == AFD_LOCAL_CLOSE || (Asks(e, a) && (a == AFD_CONNECT_FAIL ==> Has(e, EPOLLERR)))
  {
    RequestBits(e);
    if Speaks(a) {
      Named(e, a);
    } else if a != AFD_LOCAL_CLOSE {
      NoOthers(e, a);
    }
  }

  /** The sources of an event, one by one. */
  lemma {:induction false} Named(e: bv32, a: bv32)
    ensures Asks(e, a) <==>
            || (Signals(a, EPOLLIN) && Has(e, EPOLLIN)) || (Signals(a, EPOLLPRI) && Has(e, EPOLLPRI))
            || (Signals(a, EPOLLOUT) && Has(e, EPOLLOUT)) || (Signals(a, EPOLLERR) && Has(e, EPOLLERR))
            || (Signals(a, EPOLLHUP) && Has(e, EPOLLHUP)) || (Signals(a, EPOLLRDNORM) && Has(e, EPOLLRDNORM))
            || (Signals(a, EPOLLRDBAND) && Has(e, EPOLLRDBAND)) || (Signals(a, EPOLLWRNORM) && Has(e, EPOLLWRNORM))
            || (Signals(a, EPOLLWRBAND) && Has(e, EPOLLWRBAND)) || (Signals(a, EPOLLRDHUP) && Has(e, EPOLLRDHUP))
  {
    hide Has;
  }

  lemma {:induction false} RequestBits(e: bv32)
    ensures Has(AfdEvents(e), AFD_LOCAL_CLOSE)
    ensures Has(AfdEvents(e), AFD_RECEIVE) <==> Has(e, EPOLLIN) || Has(e, EPOLLRDNORM)
    ensures Has(AfdEvents(e), AFD_ACCEPT) <==> Has(e, EPOLLIN) || Has(e, EPOLLRDNORM)
    ensures Has(AfdEvents(e), AFD_RECEIVE_EXPEDITED) <==> Has(e, EPOLLPRI) || Has(e, EPOLLRDBAND)
    ensures Has(AfdEvents(e), AFD_SEND) <==> Has(e, EPOLLOUT) || Has(e, EPOLLWRNORM) || Has(e, EPOLLWRBAND)
    ensures Has(AfdEvents(e), AFD_DISCONNECT) <==> Has(e, EPOLLIN) || Has(e, EPOLLRDNORM) || Has(e, EPOLLRDHUP)
    ensures Has(AfdEvents(e), AFD_ABORT) <==> Has(e, EPOLLHUP)
    ensures Has(AfdEvents(e), AFD_CONNECT_FAIL) <==> Has(e, EPOLLERR)
  {
  }

  lemma {:induction false} NoOthers(e: bv32, a: bv32)
    requires Bit(a) && a != AFD_LOCAL_CLOSE && !Speaks(a)
    ensures !Has(AfdEvents(e), a)
  {
  }

  /** What a completed request tells the user: everything that one of its events stands for. */
  ghost predicate Told(a: bv32, b: bv32) {
    exists x :: Signals(x, b) && Has(a, x)
  }

  lemma {:induction false} AnswerExact(a: bv32, b: bv32)
    requires Bit(b)
    ensures Has(EpollEvents(a), b) <==> Told(a, b)
  {
    AnswerBits(a);
    Sources(a, b);
    if !Known(b) {
      NothingElse(a, b);
    }
  }

  lemma {:induction false} Sources(a: bv32, b: bv32)
    ensures Told(a, b) <==>
            || (Signals(AFD_RECEIVE, b) && Has(a, AFD_RECEIVE)) || (Signals(AFD_ACCEPT, b) && Has(a, AFD_ACCEPT))
            || (Signals(AFD_RECEIVE_EXPEDITED, b) && Has(a, AFD_RECEIVE_EXPEDITED))
            || (Signals(AFD_SEND, b) && Has(a, AFD_SEND)) || (Signals(AFD_DISCONNECT, b) && Has(a, AFD_DISCONNECT))
            || (Signals(AFD_ABORT, b) && Has(a, AFD_ABORT))
            || (Signals(AFD_CONNECT_FAIL, b) && Has(a, AFD_CONNECT_FAIL))
  {
    hide Has;
  }

  predicate Known(b: bv32) {
    || b == EPOLLIN || b == EPOLLPRI || b == EPOLLOUT || b == EPOLLERR || b == EPOLLHUP || b == EPOLLRDNORM
    || b == EPOLLRDBAND || b == EPOLLWRNORM || b == EPOLLWRBAND || b == EPOLLRDHUP
  }

  lemma {:induction false} AnswerBits(a: bv32)
    ensures Has(EpollEvents(a), EPOLLIN) <==>
            Has(a, AFD_RECEIVE) || Has(a, AFD_ACCEPT) || Has(a, AFD_DISCONNECT) || Has(a, AFD_CONNECT_FAIL)
    ensures Has(EpollEvents(a), EPOLLRDNORM) <==> Has(EpollEvents(a), EPOLLIN)
    ensures Has(EpollEvents(a), EPOLLPRI) <==> Has(a, AFD_RECEIVE_EXPEDITED)
    ensures Has(EpollEvents(a), EPOLLRDBAND) <==> Has(a, AFD_RECEIVE_EXPEDITED)
    ensures Has(EpollEvents(a), EPOLLOUT) <==> Has(a, AFD_SEND) || Has(a, AFD_CONNECT_FAIL)
    ensures Has(EpollEvents(a), EPOLLWRNORM) <==> Has(a, AFD_SEND) || Has(a, AFD_CONNECT_FAIL)
    ensures Has(EpollEvents(a), EPOLLWRBAND) <==> Has(a, AFD_SEND)
    ensures Has(EpollEvents(a), EPOLLRDHUP) <==> Has(a, AFD_DISCONNECT) || Has(a, AFD_CONNECT_FAIL)
    ensures Has(EpollEvents(a), EPOLLERR) <==> Has(a, AFD_CONNECT_FAIL)
    ensures Has(EpollEvents(a), EPOLLHUP) <==> Has(a, AFD_ABORT)
  {
  }

  lemma {:induction false} NothingElse(a: bv32, b: bv32)
    requires Bit(b) && !Known(b)
    ensures !Has(EpollEvents(a), b)
  {
  }

  /** A request that is out covers an interest: every event that stands for something asked for is in it. */
  ghost predicate Watches(request: bv32, e: bv32) {
    Has(request, AFD_LOCAL_CLOSE) && forall a | Asks(e, a) :: Has(request, a)
  }

  /** Every interest there is asks for errors, or for nothing. */
  predicate Proper(e: bv32) {
    e == 0 || (Has(e, EPOLLERR) && Has(e, EPOLLHUP))
  }

  /** The code's test on masks of epoll is enough for the masks of requests. */
  lemma {:induction false} CoveredWatches(e: bv32, pending: bv32)
    requires Covered(e, pending) && Proper(e)
    ensures Watches(AfdEvents(pending), e)
  {
    RequestBits(pending);
    forall a | Asks(e, a)
      ensures Has(AfdEvents(pending), a)
    {
      var b :| Signals(a, b) && Has(e, b);
      CoveredKnown(e, pending, b);
      CoveredKnown(e, pending, EPOLLERR);
    }
  }

  lemma {:induction false} CoveredKnown(e: bv32, pending: bv32, b: bv32)
    requires Covered(e, pending) && Known(b) && Has(e, b)
    ensures Has(pending, b)
  {
  }

  lemma {:induction false} CoveredBit(e: bv32, pending: bv32, b: bv32)
    requires Covered(e, pending) && Has(KNOWN, b) && Has(e, b) && Bit(b)
    ensures Has(pending, b)
  {
  }

  /** The test holds exactly if every known event asked for is being monitored. */
  lemma {:induction false} CoveredExact(e: bv32, pending: bv32)
    ensures Covered(e, pending) <==> forall b | Bit(b) && Has(KNOWN, b) && Has(e, b) :: Has(pending, b)
  {
    hide Has, Bit, Covered;
    forall b | Covered(e, pending) && Bit(b) && Has(KNOWN, b) && Has(e, b)
      ensures Has(pending, b)
    {
      CoveredBit(e, pending, b);
    }
    if !Covered(e, pending) {
      var b := Uncovered(e, pending);
    }
  }

  lemma {:induction false} Uncovered(e: bv32, pending: bv32) returns (b: bv32)
    requires !Covered(e, pending)
    ensures Bit(b) && Has(KNOWN, b) && Has(e, b) && !Has(pending, b)
  {
    hide Has, Bit;
    b := LowBit(e & KNOWN & !pending);
    Missing(e, pending, b);
  }

  lemma {:induction false} LowBit(m: bv32) returns (b: bv32)
    requires m != 0
    ensures Bit(b) && m & b == b
  {
    b := m & (0 - m);
  }

  lemma {:induction false} Missing(e: bv32, pending: bv32, b: bv32)
    requires Bit(b) && e & KNOWN & !pending & b == b
    ensures Has(KNOWN, b) && Has(e, b) && !Has(pending, b)
  {
  }
}
