/** The event loaders, which erase what they have read, and the client that feeds them. */
module WireClient {
  import opened Basics
  import opened Wire
  import opened WireCursor
  import opened WireExact
  import opened WireStream
  import opened WireBuffer

  /** `std::vector<char>` */
  class ByteBuffer {
    var data: Bytes

    constructor ()
      ensures data == []
    {
      data := [];
    }

    /** `erase(begin(), begin() + n)` */
    method EraseFront(n: nat)
      requires n <= |data|
      modifies this
      ensures data == old(data)[n..]
    {
      data := data[n..];
    }
  }

  // ---------- one event ----------

  /** The first `i` fields have been read up to `pos`. */
  ghost predicate Upto(fs: seq<Field>, s: Bytes, i: nat, pos: nat, vals: seq<Value>) {
    && i <= |fs| && pos <= |s| && |vals| == i
    && AllAt(fs, s, 0) == Prefix(vals, AllAt(fs[i..], s, pos))
  }

  function Prefix(vals: seq<Value>, r: Parsed<Got<seq<Value>>>): Parsed<Got<seq<Value>>> {
    match r
    case Done(x) => Done(Got(vals + x.v, x.n))
    case _ => r
  }

  lemma {:induction false} UptoStart(fs: seq<Field>, s: Bytes)
    ensures Upto(fs, s, 0, 0, []) == true
  {
    assert fs[0..] == fs;
    var r := AllAt(fs, s, 0);
    if r.Done? {
      assert [] + r.value.v == r.value.v;
    }
  }

  /** The next field: what is read of it is what is read of the event. */
  lemma {:induction false} UptoNext(fs: seq<Field>, s: Bytes, i: nat, pos: nat, vals: seq<Value>)
    requires Upto(fs, s, i, pos, vals) && i < |fs|
    ensures var x := FieldAt(fs[i], s, pos);
            if x.Done? then Upto(fs, s, i + 1, x.value.n, vals + [x.value.v]) == true
            else AllAt(fs, s, 0) == x.PropagateFailure()
  {
    hide FieldAt;
    var x := FieldAt(fs[i], s, pos);
    assert fs[i..][0] == fs[i] && fs[i..][1..] == fs[i + 1..];
    if x.Done? {
      var y := AllAt(fs[i + 1..], s, x.value.n);
      if y.Done? {
        assert vals + ([x.value.v] + y.value.v) == (vals + [x.value.v]) + y.value.v;
      }
    }
  }

  lemma {:induction false} UptoEnd(fs: seq<Field>, s: Bytes, pos: nat, vals: seq<Value>)
    requires Upto(fs, s, |fs|, pos, vals)
    ensures AllAt(fs, s, 0) == Done(Got(vals, pos))
  {
    assert fs[|fs|..] == [];
    assert vals + [] == vals;
  }

  /** `Default::createLoggingEvent` up to the time stamp */
  method DefaultHead(byteBuf: Bytes) returns (r: Parsed<Got<int>>, ghost vals: seq<Value>)
    requires !AllAt(DEFAULT_FIELDS, byteBuf, 0).Astray()
    ensures match r
            case Done(x) => Upto(DEFAULT_FIELDS, byteBuf, 4, x.n, vals) == true && |vals| == 4 && vals[3] == Num(x.v)
            case f => AllAt(DEFAULT_FIELDS, byteBuf, 0) == f.PropagateFailure()
  {
    hide Upto, Opening, PrologAt, Exactly, Integer, AllAt, From, Signed;
    var pos: nat := 0;
    ghost var fs := DEFAULT_FIELDS;
    vals := [];
    UptoStart(fs, byteBuf);
    UptoNext(fs, byteBuf, 0, pos, vals);
    var opening :- ReadOpening(byteBuf, pos);
    pos, vals := pos + opening.n, vals + [Nothing];
    UptoNext(fs, byteBuf, 1, pos, vals);
    var prolog :- ReadProlog(byteBuf, pos);
    pos, vals := prolog, vals + [Nothing];
    UptoNext(fs, byteBuf, 2, pos, vals);
    var lookups :- ReadExactly(byteBuf, pos, [0, 0]);
    pos, vals := pos + lookups.n, vals + [Nothing];
    UptoNext(fs, byteBuf, 3, pos, vals);
    var timeStamp :- ReadSigned(byteBuf, pos, 8);
    pos, vals := pos + timeStamp.n, vals + [Num(timeStamp.v)];
    return Done(Got(timeStamp.v, pos)), vals;
  }

  /** Then the logger and the location. */
  method DefaultPlace(byteBuf: Bytes, start: nat, ghost head: seq<Value>)
    returns (r: Parsed<Got<(Bytes, Bytes)>>, ghost vals: seq<Value>)
    requires !AllAt(DEFAULT_FIELDS, byteBuf, 0).Astray()
    requires Upto(DEFAULT_FIELDS, byteBuf, 4, start, head) == true && |head| == 4
    ensures match r
            case Done(x) =>
              && Upto(DEFAULT_FIELDS, byteBuf, 6, x.n, vals) == true && |vals| == 6 && vals[..4] == head
              && vals[4] == Str(x.v.0) && vals[5] == Str(x.v.1)
            case f => AllAt(DEFAULT_FIELDS, byteBuf, 0) == f.PropagateFailure()
  {
    hide Upto, Text, LocationAt, AllAt, From, Signed;
    var pos := start;
    ghost var fs := DEFAULT_FIELDS;
    vals := head;
    UptoNext(fs, byteBuf, 4, pos, vals);
    var logger :- ReadText(byteBuf, pos);
    pos, vals := pos + logger.n, vals + [Str(logger.v)];
    UptoNext(fs, byteBuf, 5, pos, vals);
    var fullInfo :- ReadLocationInfo(byteBuf, pos);
    pos, vals := fullInfo.n, vals + [Str(fullInfo.v)];
    return Done(Got((logger.v, fullInfo.v), pos)), vals;
  }

  /** Then the two contexts, which do not get into the event. */
  method DefaultContexts(byteBuf: Bytes, start: nat, ghost place: seq<Value>)
    returns (r: Parsed<Got<()>>, ghost vals: seq<Value>)
    requires !AllAt(DEFAULT_FIELDS, byteBuf, 0).Astray()
    requires Upto(DEFAULT_FIELDS, byteBuf, 6, start, place) == true && |place| == 6
    ensures match r
            case Done(x) => Upto(DEFAULT_FIELDS, byteBuf, 8, x.n, vals) == true && |vals| == 8 && vals[..6] == place
            case f => AllAt(DEFAULT_FIELDS, byteBuf, 0) == f.PropagateFailure()
  {
    hide Upto, MdcAt, Ndc, AllAt, From, Signed;
    var pos := start;
    ghost var fs := DEFAULT_FIELDS;
    vals := place;
    UptoNext(fs, byteBuf, 6, pos, vals);
    var mdcMap :- ReadMDC(byteBuf, pos);
    pos, vals := mdcMap.n, vals + [Table(mdcMap.v)];
    UptoNext(fs, byteBuf, 7, pos, vals);
    var ndc :- ReadNDC(byteBuf, pos);
    pos, vals := pos + ndc.n, vals + [Str(ndc.v)];
    return Done(Got((), pos)), vals;
  }

  /** Then the message and the thread. */
  method DefaultMessage(byteBuf: Bytes, start: nat, ghost place: seq<Value>)
    returns (r: Parsed<Got<(Bytes, Bytes)>>, ghost vals: seq<Value>)
    requires Upto(DEFAULT_FIELDS, byteBuf, 8, start, place) == true && |place| == 8
    ensures match r
            case Done(x) =>
              && Upto(DEFAULT_FIELDS, byteBuf, 10, x.n, vals) == true && |vals| == 10 && vals[..8] == place
              && vals[8] == Str(x.v.0) && vals[9] == Str(x.v.1)
            case f => AllAt(DEFAULT_FIELDS, byteBuf, 0) == f.PropagateFailure()
  {
    hide Upto, Text, AllAt, From, Signed;
    var pos := start;
    ghost var fs := DEFAULT_FIELDS;
    vals := place;
    UptoNext(fs, byteBuf, 8, pos, vals);
    var message :- ReadText(byteBuf, pos);
    pos, vals := pos + message.n, vals + [Str(message.v)];
    UptoNext(fs, byteBuf, 9, pos, vals);
    var threadName :- ReadText(byteBuf, pos);
    pos, vals := pos + threadName.n, vals + [Str(threadName.v)];
    return Done(Got((message.v, threadName.v), pos)), vals;
  }

  /** The end of `Default::createLoggingEvent`: the level, and the bytes around it. */
  method DefaultTail(byteBuf: Bytes, start: nat, ghost body: seq<Value>)
    returns (r: Parsed<Got<int>>, ghost vals: seq<Value>)
    requires Upto(DEFAULT_FIELDS, byteBuf, 10, start, body) == true && |body| == 10
    ensures match r
            case Done(x) =>
              && Upto(DEFAULT_FIELDS, byteBuf, 16, x.n, vals) == true && |vals| == 16
              && vals[..10] == body && vals[13] == Num(x.v)
            case f => AllAt(DEFAULT_FIELDS, byteBuf, 0) == f.PropagateFailure()
  {
    hide Upto, Exactly, Integer, AllAt, From;
    var pos := start;
    ghost var fs := DEFAULT_FIELDS;
    vals := body;
    UptoNext(fs, byteBuf, 10, pos, vals);
    var null0 :- ReadExactly(byteBuf, pos, [TC_NULL]);
    pos, vals := pos + null0.n, vals + [Nothing];
    UptoNext(fs, byteBuf, 11, pos, vals);
    var block :- ReadExactly(byteBuf, pos, [TC_BLOCKDATA]);
    pos, vals := pos + block.n, vals + [Nothing];
    UptoNext(fs, byteBuf, 12, pos, vals);
    var four :- ReadExactly(byteBuf, pos, [4]);
    pos, vals := pos + four.n, vals + [Nothing];
    UptoNext(fs, byteBuf, 13, pos, vals);
    var level :- ReadSigned(byteBuf, pos, 4);
    pos, vals := pos + level.n, vals + [Num(level.v)];
    UptoNext(fs, byteBuf, 14, pos, vals);
    var null1 :- ReadExactly(byteBuf, pos, [TC_NULL]);
    pos, vals := pos + null1.n, vals + [Nothing];
    UptoNext(fs, byteBuf, 15, pos, vals);
    var end :- ReadExactly(byteBuf, pos, [TC_ENDBLOCKDATA]);
    pos, vals := pos + end.n, vals + [Nothing];
    return Done(Got(level.v, pos)), vals;
  }

  /** `Default::createLoggingEvent` without the erasing */
  method DefaultEventAt(byteBuf: Bytes) returns (r: Parsed<Got<Event>>)
    requires !ParseDefault(byteBuf).Astray()
    ensures r == ParseDefault(byteBuf)
  {
    hide Upto, AllAt;
    var timeStamp, head :- DefaultHead(byteBuf);
    var x, place :- DefaultPlace(byteBuf, timeStamp.n, head);
    var contexts, both :- DefaultContexts(byteBuf, x.n, place);
    var y, body :- DefaultMessage(byteBuf, contexts.n, both);
    var level, vals :- DefaultTail(byteBuf, y.n, body);
    UptoEnd(DEFAULT_FIELDS, byteBuf, level.n, vals);
    assert vals[..10][..8][..6][..4] == head;
    var (logger, fullInfo) := x.v;
    var (message, threadName) := y.v;
    var time := Wrap64(timeStamp.v * 1000);
    return Done(Got(Event(logger, level.v, message, time, threadName, [fullInfo]), level.n));
  }

  /** `Bytes::createLoggingEvent` up to the thread */
  method BytesHead(byteBuf: Bytes)
    returns (r: Parsed<Got<(Bytes, int, Bytes, int, Bytes)>>, ghost vals: seq<Value>)
    ensures match r
            case Done(x) =>
              && Upto(BYTES_FIELDS, byteBuf, 5, x.n, vals) == true
              && vals == [Str(x.v.0), Num(x.v.1), Str(x.v.2), Num(x.v.3), Str(x.v.4)]
            case f => AllAt(BYTES_FIELDS, byteBuf, 0) == f.PropagateFailure()
  {
    hide Upto, Counted, Integer, AllAt, CString, From, Signed;
    var pos: nat := 0;
    ghost var fs := BYTES_FIELDS;
    vals := [];
    UptoStart(fs, byteBuf);
    UptoNext(fs, byteBuf, 0, pos, vals);
    var logger :- ReadCounted(byteBuf, pos, 4);
    pos, vals := pos + logger.n, vals + [Str(logger.v)];
    UptoNext(fs, byteBuf, 1, pos, vals);
    var level :- ReadSigned(byteBuf, pos, 4);
    pos, vals := pos + level.n, vals + [Num(level.v)];
    UptoNext(fs, byteBuf, 2, pos, vals);
    var message :- ReadCounted(byteBuf, pos, 4);
    pos, vals := pos + message.n, vals + [Str(message.v)];
    UptoNext(fs, byteBuf, 3, pos, vals);
    var time :- ReadSigned(byteBuf, pos, 8);
    pos, vals := pos + time.n, vals + [Num(time.v)];
    UptoNext(fs, byteBuf, 4, pos, vals);
    var thread :- ReadCounted(byteBuf, pos, 4);
    pos, vals := pos + thread.n, vals + [Str(thread.v)];
    return Done(Got((logger.v, level.v, message.v, time.v, thread.v), pos)), vals;
  }

  /** `Bytes::createLoggingEvent` without the erasing */
  method BytesEventAt(byteBuf: Bytes) returns (r: Parsed<Got<Event>>)
    ensures r == ParseBytes(byteBuf)
  {
    hide Upto, Counted, AllAt, CString, From, Signed;
    ghost var fs := BYTES_FIELDS;
    var head, vals :- BytesHead(byteBuf);
    var pos := head.n;
    UptoNext(fs, byteBuf, 5, pos, vals);
    var path :- ReadUtf(byteBuf, pos);
    pos, vals := pos + path.n, vals + [Str(path.v)];
    UptoNext(fs, byteBuf, 6, pos, vals);
    var func :- ReadUtf(byteBuf, pos);
    pos, vals := pos + func.n, vals + [Str(func.v)];
    UptoNext(fs, byteBuf, 7, pos, vals);
    var line :- ReadUtf(byteBuf, pos);
    pos, vals := pos + line.n, vals + [Str(line.v)];
    UptoEnd(fs, byteBuf, pos, vals);
    var (logger, level, message, time, thread) := head.v;
    return Done(Got(Event(logger, level, message, time, thread, [path.v, func.v, line.v]), pos));
  }

  /** `Bytes::readUTFString` */
  method ReadUtf(byteBuf: Bytes, pos: nat) returns (r: Parsed<Got<Bytes>>)
    ensures match Counted(From(byteBuf, pos), 4)
            case Done(x) => r == Done(Got(CString(x.v), x.n))
            case f => r == f
  {
    hide Counted, CString;
    var x :- ReadCounted(byteBuf, pos, 4);
    var value := CutAtNul(x.v);
    return Done(Got(value, x.n));
  }

  /** A loader erases what it has read, and nothing if it fails. */
  ghost predicate Loads(r: Parsed<Event>, before: Bytes, after: Bytes, parsed: Parsed<Got<Event>>) {
    match parsed
    case Done(x) => x.n <= |before| && r == Done(x.v) && after == before[x.n..]
    case f => r == f.PropagateFailure() && after == before
  }

  /** `Default::createLoggingEvent` */
  method CreateDefaultEvent(byteBuf: ByteBuffer) returns (r: Parsed<Event>)
    requires !ParseDefault(byteBuf.data).Astray()
    modifies byteBuf
    ensures Loads(r, old(byteBuf.data), byteBuf.data, ParseDefault(old(byteBuf.data)))
  {
    hide AllAt;
    var x :- DefaultEventAt(byteBuf.data);
    byteBuf.EraseFront(x.n);
    return Done(x.v);
  }

  /** `Bytes::createLoggingEvent` */
  method CreateBytesEvent(byteBuf: ByteBuffer) returns (r: Parsed<Event>)
    modifies byteBuf
    ensures Loads(r, old(byteBuf.data), byteBuf.data, ParseBytes(old(byteBuf.data)))
  {
    hide AllAt;
    var x :- BytesEventAt(byteBuf.data);
    byteBuf.EraseFront(x.n);
    return Done(x.v);
  }

  // ---------- the client ----------

  /** `readStart` of one protocol */
  method ReadStart(byteBuf: Bytes, k: Protocol) returns (r: Parsed<nat>)
    ensures match Exactly(byteBuf, Start(k)) case Done(_) => r == Done(4) case Small => r == Small
            case _ => r == Invalid
  {
    if 4 > |byteBuf| {
      return Small;
    }
    if byteBuf[..4] != Start(k) {
      return Invalid;
    }
    return Done(4);
  }

  /** `createLoggingEventFunc`: the loop over the protocols; the start is erased once it has been recognised. */
  method CreateLoggingEventFunc(byteBuf: ByteBuffer) returns (r: Parsed<Protocol>)
    modifies byteBuf
    ensures r == Select(old(byteBuf.data), PROTOCOLS)
    ensures if r.Done? then |old(byteBuf.data)| >= 4 && byteBuf.data == old(byteBuf.data)[4..]
            else byteBuf.data == old(byteBuf.data)
  {
    var funcs := PROTOCOLS;
    var i := 0;
    assert funcs[0..] == funcs;
    while i < |funcs|
      invariant 0 <= i <= |funcs| && funcs == PROTOCOLS && byteBuf.data == old(byteBuf.data)
      invariant Select(byteBuf.data, PROTOCOLS) == Select(byteBuf.data, funcs[i..])
    {
      assert funcs[i..][0] == funcs[i] && funcs[i..][1..] == funcs[i + 1..];
      var readBytes := ReadStart(byteBuf.data, funcs[i]);
      match readBytes {
        case Done(n) =>
          byteBuf.EraseFront(n);
          return Done(funcs[i]);
        case Small =>
          return Small;
        case _ =>
      }
      i := i + 1;
    }
    return Invalid;
  }

  class Client {
    const byteBuf: ByteBuffer
    var func: Option<Protocol>
    var emitted: seq<Event>
    const msgpack: Parser

    constructor (msgpack: Parser)
      ensures this.msgpack == msgpack && emitted == [] && fresh(byteBuf)
      ensures func == None && byteBuf.data == []
    {
      this.msgpack := msgpack;
      byteBuf := new ByteBuffer();
      func, emitted := None, [];
    }

    function State(): Conn
      reads this, byteBuf
    {
      Conn(func, byteBuf.data)
    }

    /** A call of `m_LoggingFunc` */
    method LoadEvent(k: Protocol) returns (r: Parsed<Event>)
      requires AllRestartable(Loaders(msgpack)) && !Loaders(msgpack)(k)(byteBuf.data).Astray()
      modifies byteBuf
      ensures Loads(r, old(byteBuf.data), byteBuf.data, Loaders(msgpack)(k)(old(byteBuf.data)))
    {
      hide Loads, ParseDefault, ParseBytes;
      match k {
        case Default =>
          r := CreateDefaultEvent(byteBuf);
        case Binary =>
          r := CreateBytesEvent(byteBuf);
        case Msgpack =>
          r := CreateMsgpackEvent();
      }
    }

    /** Whatever the msgpack loader is. */
    method CreateMsgpackEvent() returns (r: Parsed<Event>)
      requires AllRestartable(Loaders(msgpack))
      modifies byteBuf
      ensures Loads(r, old(byteBuf.data), byteBuf.data, msgpack(old(byteBuf.data)))
    {
      assert Restartable(Loaders(msgpack)(Msgpack));
      assert Progress(byteBuf.data, msgpack(byteBuf.data));
      var x :- msgpack(byteBuf.data);
      byteBuf.EraseFront(x.n);
      return Done(x.v);
    }

    /** `forceLog`, whenever it returns without having left its buffer */
    method ForceLog(bytes: Bytes) returns (end: End)
      requires AllRestartable(Loaders(msgpack)) && Call(Loaders(msgpack), State(), bytes).end != Stuck
      modifies this`func, this`emitted, byteBuf
      ensures var c := Call(Loaders(msgpack), old(State()), bytes);
              State() == c.conn && end == c.end && emitted == old(emitted) + c.events
    {
      byteBuf.data := byteBuf.data + bytes;
      if func == None {
        var selected := CreateLoggingEventFunc(byteBuf);
        match selected {
          case Done(k) => func := Some(k);
          case Small => return Open;
          case _ => return Refused;
        }
      }
      end := Loop(func.value);
    }

    /** The loop of `forceLog` */
    method Loop(k: Protocol) returns (end: End)
      requires AllRestartable(Loaders(msgpack)) && Drain(Loaders(msgpack)(k), byteBuf.data).end != Stuck
      modifies this`emitted, byteBuf
      ensures var d := Drain(Loaders(msgpack)(k), old(byteBuf.data));
              byteBuf.data == d.rest && end == d.end && emitted == old(emitted) + d.events
    {
      hide Drain, Restartable, Loaders;
      ghost var p := Loaders(msgpack)(k);
      assert Restartable(p);
      ghost var all := Drain(p, byteBuf.data);
      while byteBuf.data != []
        invariant all.rest == Drain(p, byteBuf.data).rest && all.end == Drain(p, byteBuf.data).end
        invariant old(emitted) + all.events == emitted + Drain(p, byteBuf.data).events
        decreases |byteBuf.data|
      {
        DrainStep(p, byteBuf.data);
        var event := LoadEvent(k);
        match event {
          case Done(e) =>
            emitted := emitted + [e];
          case Small =>
            assert emitted + [] == emitted;
            return Open;
          case Invalid =>
            assert emitted + [] == emitted;
            return Refused;
        }
      }
      DrainStep(p, byteBuf.data);
      assert emitted + [] == emitted;
      return Open;
    }
  }
}
