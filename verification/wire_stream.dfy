/** What a client's connection does with the bytes it is given, however they are cut up. */
module WireStream {
  import opened Basics
  import opened Wire
  import opened WireCursor
  import opened WireExact

  datatype Protocol = Default | Binary | Msgpack

  /** What the logging framework is handed. */
  datatype Event = Event(logger: Bytes, level: int, message: Bytes, timestamp: int, thread: Bytes, place: seq<Bytes>)

  /** A parser for one event at the start of a buffer. */
  type Parser = Bytes -> Parsed<Got<Event>>

  /** `timeStamp *= 1000` in 64 bits. */
  function Wrap64(v: int): int {
    Signed(v % Pow256(8), 8)
  }

  function NumOf(v: Value): int {
    if v.Num? then v.i else 0
  }

  function StrOf(v: Value): Bytes {
    if v.Str? then v.b else []
  }

  function DefaultEvent(v: seq<Value>): Event
    requires |v| == |DEFAULT_FIELDS|
  {
    Event(StrOf(v[4]), NumOf(v[13]), StrOf(v[8]), Wrap64(NumOf(v[3]) * 1000), StrOf(v[9]), [StrOf(v[5])])
  }

  function BytesEvent(v: seq<Value>): Event
    requires |v| == |BYTES_FIELDS|
  {
    Event(StrOf(v[0]), NumOf(v[1]), StrOf(v[2]), NumOf(v[3]), StrOf(v[4]), [StrOf(v[5]), StrOf(v[6]), StrOf(v[7])])
  }

  function ParseDefault(s: Bytes): Parsed<Got<Event>> {
    var x :- AllAt(DEFAULT_FIELDS, s, 0);
    Done(Got(DefaultEvent(x.v), x.n))
  }

  function ParseBytes(s: Bytes): Parsed<Got<Event>> {
    var x :- AllAt(BYTES_FIELDS, s, 0);
    Done(Got(BytesEvent(x.v), x.n))
  }

  /** A parser that can be called again when there is more: it takes something, nothing beyond the buffer, and changes
      its mind only if it had found too little. */
  ghost predicate Restartable(p: Parser) {
    && (forall s: Bytes :: Progress(s, p(s)))
    && (forall s: Bytes, t: Bytes :: Stable(p(s), p(s + t)))
  }

  predicate Progress(s: Bytes, r: Parsed<Got<Event>>) {
    r.Done? ==> 0 < r.value.n <= |s|
  }

  lemma {:induction false} DefaultRestartable()
    ensures Restartable(ParseDefault)
  {
    forall s: Bytes, t: Bytes
      ensures Stable(ParseDefault(s), ParseDefault(s + t))
    {
      AllAtStable(DEFAULT_FIELDS, s, t, 0);
    }
    forall s: Bytes
      ensures Progress(s, ParseDefault(s))
    {
      if AllAt(DEFAULT_FIELDS, s, 0).Done? {
        SomethingRead(DEFAULT_FIELDS, s, 0);
      }
    }
  }

  /** Where no class descriptor has a negative length, the grammar is the whole story, and the loader returns. */
  lemma {:induction false} DefaultForward(s: Bytes)
    requires ReadAll(DEFAULT_FIELDS, s) != Backwards
    ensures AllAt(DEFAULT_FIELDS, s, 0) == ReadAll(DEFAULT_FIELDS, s) && !ParseDefault(s).Astray()
  {
    hide ReadAll, AllAt;
    assert From(s, 0) == s;
    AllAgree(DEFAULT_FIELDS, s, 0);
    ShiftZero(ReadAll(DEFAULT_FIELDS, s));
  }

  /** In the Bytes protocol there are no class descriptors, so the grammar is the whole story. */
  lemma {:induction false} BytesForward(s: Bytes)
    ensures AllAt(BYTES_FIELDS, s, 0) == ReadAll(BYTES_FIELDS, s)
  {
    hide ReadAll, AllAt;
    PlainForward(BYTES_FIELDS, s);
    assert From(s, 0) == s;
    AllAgree(BYTES_FIELDS, s, 0);
    ShiftZero(ReadAll(BYTES_FIELDS, s));
  }

  lemma {:induction false} BytesRestartable()
    ensures Restartable(ParseBytes)
  {
    forall s: Bytes, t: Bytes
      ensures Stable(ParseBytes(s), ParseBytes(s + t))
    {
      AllAtStable(BYTES_FIELDS, s, t, 0);
    }
    forall s: Bytes
      ensures Progress(s, ParseBytes(s))
    {
      BytesForward(s);
    }
  }

  // ---------- which protocol ----------

  const DEFAULT_START: Bytes := [0xAC, 0xED, 0x00, 0x05]
  const BYTES_START: Bytes := [0xAC, 0xED, 0x01, 0x05]
  const MSGPACK_START: Bytes := [0xAC, 0xED, 0x02, 0x05]

  function Start(k: Protocol): Bytes {
    match k
    case Default => DEFAULT_START
    case Binary => BYTES_START
    case Msgpack => MSGPACK_START
  }

  /** `createLoggingEventFunc`: the first protocol whose start is there; a short buffer settles nothing. */
  function Select(s: Bytes, order: seq<Protocol>): Parsed<Protocol>
    decreases |order|
  {
    if order == [] then Invalid
    else match Exactly(s, Start(order[0]))
      case Done(_) => Done(order[0])
      case Small => Small
      case _ => Select(s, order[1..])
  }

  const PROTOCOLS: seq<Protocol> := [Default, Binary, Msgpack]

  // ---------- the loop ----------

  /** How a call to `forceLog` ends: it returns `true`, or `false`; or it does not return, or reads outside its buffer,
      both of which take a negative length in a class descriptor. */
  datatype End = Open | Refused | Stuck

  datatype Drained = Drained(events: seq<Event>, rest: Bytes, end: End)

  ghost function Drain(p: Parser, s: Bytes): (r: Drained)
    requires Restartable(p)
    decreases |s|
  {
    if s == [] then Drained([], [], Open)
    else match p(s)
      case Done(x) =>
        assert Progress(s, p(s));
        var r := Drain(p, s[x.n..]);
        r.(events := [x.v] + r.events)
      case Small => Drained([], s, Open)
      case Invalid => Drained([], s, Refused)
      case _ => Drained([], s, Stuck)
  }

  lemma {:induction false} DrainStep(p: Parser, s: Bytes)
    requires Restartable(p)
    ensures s == [] ==> Drain(p, s) == Drained([], [], Open)
    ensures Progress(s, p(s))
    ensures s != [] ==>
            match p(s)
            case Done(x) => Drain(p, s) == (var r := Drain(p, s[x.n..]); r.(events := [x.v] + r.events))
            case Small => Drain(p, s) == Drained([], s, Open)
            case Invalid => Drain(p, s) == Drained([], s, Refused)
            case _ => Drain(p, s) == Drained([], s, Stuck)
  {
  }

  /** How it ends is decided by what is left: more is waited for if that is too little, and it is refused if it is
      malformed. */
  lemma {:induction false} DrainEnds(p: Parser, s: Bytes)
    requires Restartable(p)
    ensures var r := Drain(p, s);
            && (r.end == Open <==> r.rest == [] || p(r.rest) == Small)
            && (r.end == Refused <==> r.rest != [] && p(r.rest) == Invalid)
            && |r.rest| <= |s| && r.rest == s[|s| - |r.rest|..]
    decreases |s|
  {
    DrainStep(p, s);
    if s != [] && p(s).Done? {
      var n := p(s).value.n;
      DrainEnds(p, s[n..]);
      var r := Drain(p, s[n..]);
      assert s[n..][|s[n..]| - |r.rest|..] == s[|s| - |r.rest|..];
    } else if s != [] {
      assert s[0..] == s;
    }
  }

  /** More bytes after a call that has returned `true` pick up where it left off; otherwise they change nothing. */
  lemma {:induction false} DrainMore(p: Parser, s: Bytes, t: Bytes)
    requires Restartable(p)
    ensures var r := Drain(p, s);
            Drain(p, s + t) == if r.end == Open then var q := Drain(p, r.rest + t); q.(events := r.events + q.events)
                               else r.(rest := r.rest + t)
    decreases |s|
  {
    if s == [] {
      assert s + t == t && [] + t == t;
      assert [] + Drain(p, t).events == Drain(p, t).events;
    } else {
      assert Stable(p(s), p(s + t)) && Progress(s, p(s));
      hide Restartable;
      if p(s).Done? {
        var x := p(s).value;
        assert (s + t)[x.n..] == s[x.n..] + t;
        DrainMore(p, s[x.n..], t);
        var r := Drain(p, s[x.n..]);
        var q := Drain(p, r.rest + t);
        assert [x.v] + (r.events + q.events) == ([x.v] + r.events) + q.events;
      } else if p(s) == Small {
        assert [] + Drain(p, s + t).events == Drain(p, s + t).events;
      }
    }
  }

  // ---------- one connection ----------

  /** The parsers, by protocol. */
  type Parsers = Protocol -> Parser

  ghost predicate AllRestartable(ps: Parsers) {
    forall k :: Restartable(ps(k))
  }

  /** `m_LoggingFunc` and `m_ByteBuf` */
  datatype Conn = Conn(func: Option<Protocol>, buf: Bytes)

  datatype Called = Called(conn: Conn, events: seq<Event>, end: End)

  /** `forceLog` */
  ghost function Call(ps: Parsers, c: Conn, bytes: Bytes): Called
    requires AllRestartable(ps)
  {
    var s := c.buf + bytes;
    match c.func
    case Some(k) =>
      var r := Drain(ps(k), s);
      Called(Conn(c.func, r.rest), r.events, r.end)
    case None =>
      match Select(s, PROTOCOLS)
      case Done(k) =>
        var r := Drain(ps(k), s[4..]);
        Called(Conn(Some(k), r.rest), r.events, r.end)
      case Small => Called(Conn(None, s), [], Open)
      case _ => Called(Conn(None, s), [], Refused)
  }

  lemma {:induction false} SelectStable(s: Bytes, t: Bytes, order: seq<Protocol>)
    ensures Stable(Select(s, order), Select(s + t, order))
    ensures Select(s, order).Done? ==> |s| >= 4
    ensures Select(s, order).Done? || Select(s, order) == Small || Select(s, order) == Invalid
    decreases |order|
  {
    if order != [] {
      ExactlyStable(s, t, Start(order[0]));
      SelectStable(s, t, order[1..]);
    }
  }

  /** A protocol is chosen if and only if its start is there, and nothing is settled before four bytes are. */
  lemma {:induction false} SelectExact(s: Bytes, k: Protocol)
    ensures |s| < 4 ==> Select(s, PROTOCOLS) == Small
    ensures |s| >= 4 ==> Select(s, PROTOCOLS) != Small
    ensures Select(s, PROTOCOLS) == Done(k) <==> |s| >= 4 && s[..4] == Start(k)
  {
    assert PROTOCOLS[1..] == [Binary, Msgpack] && PROTOCOLS[2..] == [Msgpack];
    assert DEFAULT_START[2] != BYTES_START[2] && BYTES_START[2] != MSGPACK_START[2];
    assert DEFAULT_START[2] != MSGPACK_START[2];
    SelectStep(s, PROTOCOLS);
    SelectStep(s, [Binary, Msgpack]);
    SelectStep(s, [Msgpack]);
  }

  /** A first call settles the protocol, or waits for four bytes, or refuses anything else. */
  lemma {:induction false} CallChooses(ps: Parsers, bytes: Bytes)
    requires AllRestartable(ps)
    ensures var c := Call(ps, Conn(None, []), bytes);
            if |bytes| < 4 then c == Called(Conn(None, bytes), [], Open)
            else if k: Protocol :| bytes[..4] == Start(k) then
              var r := Drain(ps(k), bytes[4..]); c == Called(Conn(Some(k), r.rest), r.events, r.end)
            else c == Called(Conn(None, bytes), [], Refused)
  {
    hide Select, Drain, AllRestartable;
    assert [] + bytes == bytes;
    SelectExact(bytes, Default);
    SelectExact(bytes, Binary);
    SelectExact(bytes, Msgpack);
    if Select(bytes, PROTOCOLS).Done? {
      SelectExact(bytes, Select(bytes, PROTOCOLS).value);
    }
  }

  lemma {:induction false} SelectStep(s: Bytes, order: seq<Protocol>)
    requires order != []
    ensures |s| < 4 ==> Select(s, order) == Small
    ensures |s| >= 4 ==> Select(s, order) == if s[..4] == Start(order[0]) then Done(order[0]) else Select(s, order[1..])
  {
  }

  /** No part of an event is taken for one, or for a mistake: the parser waits for the rest. */
  lemma {:induction false} WaitsForRest(p: Parser, s: Bytes, k: nat)
    requires Restartable(p) && p(s).Done? && p(s).value.n == |s| && k < |s|
    ensures p(s[..k]) == Small
  {
    assert s[..k] + s[k..] == s;
    assert Stable(p(s[..k]), p(s[..k] + s[k..])) && Progress(s[..k], p(s[..k]));
  }

  /** Two calls, unless the first one does not come back. */
  ghost function Then(ps: Parsers, c: Called, bytes: Bytes): Called
    requires AllRestartable(ps)
  {
    if c.end == Stuck then c
    else
      var d := Call(ps, c.conn, bytes);
      d.(events := c.events + d.events)
  }

  /** Two calls in a row do what one call with all the bytes does. */
  lemma {:induction false} TwoCalls(ps: Parsers, c: Conn, s: Bytes, t: Bytes)
    requires AllRestartable(ps) && Call(ps, c, s + t).end != Stuck
    ensures Call(ps, c, s).end != Stuck && Then(ps, Call(ps, c, s), t) == Call(ps, c, s + t)
  {
    assert c.buf + (s + t) == (c.buf + s) + t;
    match c.func {
      case Some(k) => LoopTwice(ps, k, c.buf + s, t);
      case None =>
        SelectStable(c.buf + s, t, PROTOCOLS);
        var first := Select(c.buf + s, PROTOCOLS);
        if first.Done? {
          assert ((c.buf + s) + t)[4..] == (c.buf + s)[4..] + t;
          LoopTwice(ps, first.value, (c.buf + s)[4..], t);
        } else {
          assert [] + Call(ps, c, s + t).events == Call(ps, c, s + t).events;
        }
    }
  }

  lemma {:induction false} LoopTwice(ps: Parsers, k: Protocol, s: Bytes, t: Bytes)
    requires AllRestartable(ps) && Drain(ps(k), s + t).end != Stuck
    ensures var r := Drain(ps(k), s);
            r.end != Stuck && Then(ps, Called(Conn(Some(k), r.rest), r.events, r.end), t)
                           == Called(Conn(Some(k), Drain(ps(k), s + t).rest), Drain(ps(k), s + t).events,
                             Drain(ps(k), s + t).end)
  {
    DrainMore(ps(k), s, t);
    var r := Drain(ps(k), s);
    if r.end == Refused {
      RefusedAgain(ps(k), s, t);
    }
  }

  /** A buffer that was refused is refused again, and yields nothing. */
  lemma {:induction false} RefusedAgain(p: Parser, s: Bytes, t: Bytes)
    requires Restartable(p) && Drain(p, s).end == Refused
    ensures Drain(p, Drain(p, s).rest + t) == Drained([], Drain(p, s).rest + t, Refused)
    decreases |s|
  {
    assert Stable(p(s), p(s + t)) && Progress(s, p(s));
    if p(s).Done? {
      RefusedAgain(p, s[p(s).value.n..], t);
    }
  }

  // ---------- any number of calls ----------

  /** One call for each chunk, in order. */
  ghost function Calls(ps: Parsers, c: Conn, chunks: seq<Bytes>): Called
    requires AllRestartable(ps) && chunks != []
    decreases |chunks|
  {
    var m := |chunks| - 1;
    if m == 0 then Call(ps, c, chunks[0]) else Then(ps, Calls(ps, c, chunks[..m]), chunks[m])
  }

  /** However a stream is cut into chunks, the same events come out, the same bytes are left over, and the last call
      ends the way one call with the whole stream would. */
  lemma {:induction false} ChunksDoNotMatter(ps: Parsers, c: Conn, chunks: seq<Bytes>)
    requires AllRestartable(ps) && chunks != [] && Call(ps, c, Concat(chunks)).end != Stuck
    ensures Calls(ps, c, chunks) == Call(ps, c, Concat(chunks))
    decreases |chunks|
  {
    hide Call, Then, AllRestartable;
    var m := |chunks| - 1;
    if m == 0 {
      assert Concat(chunks[..0]) + chunks[0] == chunks[0];
    } else {
      TwoCalls(ps, c, Concat(chunks[..m]), chunks[m]);
      ChunksDoNotMatter(ps, c, chunks[..m]);
    }
  }

  /** Once a call has returned `false`, every later one does too, and no more events come out. */
  lemma {:induction false} NothingAfterRefusal(ps: Parsers, c: Conn, s: Bytes, t: Bytes)
    requires AllRestartable(ps) && Call(ps, c, s).end == Refused
    ensures var d := Call(ps, Call(ps, c, s).conn, t); d.events == [] && d.end == Refused
  {
    var b := c.buf + s;
    match c.func {
      case Some(k) => RefusedAgain(ps(k), b, t);
      case None =>
        SelectStable(b, t, PROTOCOLS);
        if Select(b, PROTOCOLS).Done? {
          RefusedAgain(ps(Select(b, PROTOCOLS).value), b[4..], t);
        }
    }
  }

  /** The parsers of the C++ code; the one for msgpack is not part of this model, and may be any. */
  function Loaders(msgpack: Parser): Parsers {
    (k: Protocol) => match k case Default => ParseDefault case Binary => ParseBytes case Msgpack => msgpack
  }

  lemma {:induction false} LoadersRestartable(msgpack: Parser)
    requires Restartable(msgpack)
    ensures AllRestartable(Loaders(msgpack))
  {
    hide Restartable;
    DefaultRestartable();
    BytesRestartable();
  }

  /** A stream on which `forceLog` does not return: it begins the right way, and its first class descriptor goes round
      in circles. */
  lemma {:induction false} NeverReturns(msgpack: Parser)
    requires Restartable(msgpack)
    ensures AllRestartable(Loaders(msgpack))
    ensures ParseDefault(LOOPING) == Endless
    ensures Call(Loaders(msgpack), Conn(None, []), DEFAULT_START + LOOPING).end == Stuck
  {
    hide PrologAt, Restartable;
    LoadersRestartable(msgpack);
    LoopingEndless();
    var fs, b := DEFAULT_FIELDS, LOOPING;
    assert fs[1..][0] == Describes;
    assert b[0..] == b;
    assert FieldAt(Opens, b, 0) == Done(Got(Nothing, 1)) && FieldAt(Describes, b, 1) == Endless;
    assert AllAt(fs[1..], b, 1) == Endless && AllAt(fs, b, 0) == Endless;
    var s := [] + (DEFAULT_START + b);
    assert s[..4] == DEFAULT_START && s[4..] == b;
    assert PROTOCOLS[0] == Default;
  }
}
