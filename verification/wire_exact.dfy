/** Events as the readers take them, wherever the cursor of `readProlog` goes: what more bytes can change, and that the
    grammar is right about every event in which no length is negative. */
module WireExact {
  import opened Basics
  import opened Wire
  import opened WireCursor

  // ---------- events, by absolute positions ----------

  /** `readLocationInfo` */
  function LocationAt(b: Bytes, c: nat): (r: Parsed<Got<Bytes>>)
    ensures r.Done? ==> r.value.n <= |b|
    ensures r != Backwards
  {
    var tag :- ByteAt(b, c);
    if tag == TC_NULL then Done(Got([], c + 1))
    else if tag == TC_OBJECT then
      var d :- PrologAt(b, c + 1);
      var info :- Shift(d, Text(From(b, d)));
      Done(Got(CString(info.v), info.n))
    else Invalid
  }

  /** `readObject` without its tag */
  function HashtableAt(b: Bytes, c: nat): (r: Parsed<Got<map<Bytes, Bytes>>>)
    ensures r.Done? ==> r.value.n <= |b|
    ensures r != Backwards
  {
    var d :- PrologAt(b, c);
    var data :- Exactly(From(b, d), HASH_DATA);
    Shift(d + data.n, Pairs(From(b, d + data.n)))
  }

  /** `readMDC` */
  function MdcAt(b: Bytes, c: nat): (r: Parsed<Got<map<Bytes, Bytes>>>)
    ensures r.Done? ==> r.value.n <= |b|
    ensures r != Backwards
  {
    var tag :- ByteAt(b, c);
    if tag == TC_NULL then Done(Got(map[], c + 1))
    else if tag == TC_OBJECT then HashtableAt(b, c + 1)
    else Invalid
  }

  /** One field of an event, and the position after it. */
  function FieldAt(f: Field, b: Bytes, c: nat): (r: Parsed<Got<Value>>)
    ensures r.Done? && c <= |b| ==> r.value.n <= |b|
  {
    match f
    case Describes => var d :- PrologAt(b, c); Done(Got(Nothing, d))
    case Place => var x :- LocationAt(b, c); Done(Got(Str(x.v), x.n))
    case Context => var x :- MdcAt(b, c); Done(Got(Table(x.v), x.n))
    case _ => Shift(c, Read(f, From(b, c)))
  }

  function AllAt(fs: seq<Field>, b: Bytes, c: nat): (r: Parsed<Got<seq<Value>>>)
    ensures r.Done? && c <= |b| ==> r.value.n <= |b|
    ensures r.Done? ==> |r.value.v| == |fs|
    decreases |fs|
  {
    if fs == [] then Done(Got([], c))
    else
      var x :- FieldAt(fs[0], b, c);
      var y :- AllAt(fs[1..], b, x.n);
      Done(Got([x.v] + y.v, y.n))
  }

  /** An event that ends with some fixed bytes has been read past position 0, wherever the cursor has been. */
  lemma {:induction false} SomethingRead(fs: seq<Field>, b: Bytes, c: nat)
    requires fs != [] && fs[|fs| - 1].Fixed? && fs[|fs| - 1].want != [] && AllAt(fs, b, c).Done?
    ensures AllAt(fs, b, c).value.n > 0
    decreases |fs|
  {
    hide FieldAt;
    var x := FieldAt(fs[0], b, c).value;
    if |fs| == 1 {
      FixedSize(fs[0].want, b, c);
    } else {
      SomethingRead(fs[1..], b, x.n);
    }
  }

  lemma {:induction false} FixedSize(want: Bytes, b: Bytes, c: nat)
    requires FieldAt(Fixed(want), b, c).Done?
    ensures FieldAt(Fixed(want), b, c).value.n == c + |want|
  {
    hide From;
  }

  // ---------- more bytes ----------

  lemma {:induction false} AtStable(b: Bytes, t: Bytes, c: int)
    ensures Stable(ByteAt(b, c), ByteAt(b + t, c)) && Stable(ShortAt(b, c), ShortAt(b + t, c))
    ensures Stable(ReadAt(b, c, 4), ReadAt(b + t, c, 4))
  {
    CopyStable(b, t, c, 1);
    CopyStable(b, t, c, 2);
    CopyStable(b, t, c, 4);
  }

  lemma {:induction false} CopyStable(b: Bytes, t: Bytes, c: int, k: nat)
    requires k > 0
    ensures Stable(ReadAt(b, c, k), ReadAt(b + t, c, k))
  {
    if 0 <= c && c + k <= |b| {
      assert (b + t)[c..c + k] == b[c..c + k];
    }
  }

  lemma {:induction false} RoundStable(b: Bytes, t: Bytes, c: int)
    ensures Stable(Round(b, c), Round(b + t, c))
  {
    hide ReadAt, ShortAt, ByteAt;
    AtStable(b, t, c);
    AtStable(b, t, c + 1);
  }

  lemma {:induction false} RoundsStable(b: Bytes, t: Bytes, c: int, n: nat)
    requires Rounds(b, c, n).Some?
    ensures Rounds(b + t, c, n) == Rounds(b, c, n)
    decreases n
  {
    hide Round;
    if n > 0 {
      RoundStable(b, t, c);
      RoundsStable(b, t, Round(b, c).value.c, n - 1);
    }
  }

  lemma {:induction false} RunStable(b: Bytes, t: Bytes, c: int, more: nat, more': nat)
    requires more <= more' && Run(b, c, more) != Endless
    ensures Stable(Run(b, c, more), Run(b + t, c, more'))
    decreases more
  {
    hide Round;
    RoundStable(b, t, c);
    match Round(b, c)
    case Done(On(d)) => RunStable(b, t, d, more - 1, more' - 1);
    case _ =>
  }

  /** A loop that never ends does not end because there is more to read. */
  lemma {:induction false} TagLoopStable(b: Bytes, t: Bytes, c: int)
    ensures Stable(TagLoop(b, c), TagLoop(b + t, c))
  {
    hide Rounds, Run;
    if TagLoop(b, c) == Endless {
      NeverEnds(b, c);
      forall n: nat
        ensures Rounds(b + t, c, n).Some?
      {
        RoundsStable(b, t, c, n);
      }
      NeverEnds(b + t, c);
    } else {
      RunStable(b, t, c, |b|, |b + t|);
    }
  }

  lemma {:induction false} FieldsAtStable(b: Bytes, t: Bytes, c: int, count: int)
    ensures Stable(FieldsAt(b, c, count), FieldsAt(b + t, c, count))
    decreases if count > 0 then count else 0
  {
    hide ShortAt;
    if count > 0 {
      AtStable(b, t, c + 1);
      if ShortAt(b, c + 1).Done? {
        FieldsAtStable(b, t, c + 3 + ShortAt(b, c + 1).value, count - 1);
      }
    }
  }

  lemma {:induction false} EndingAtStable(b: Bytes, t: Bytes, c: int)
    ensures Stable(EndingAt(b, c), EndingAt(b + t, c))
  {
    hide TagLoop, ByteAt;
    TagLoopStable(b, t, c);
    if TagLoop(b, c).Done? {
      AtStable(b, t, TagLoop(b, c).value);
    }
  }

  lemma {:induction false} MembersAtStable(b: Bytes, t: Bytes, c: int)
    ensures Stable(MembersAt(b, c), MembersAt(b + t, c))
  {
    hide ShortAt, FieldsAt, EndingAt;
    AtStable(b, t, c);
    if ShortAt(b, c).Done? {
      var count := ShortAt(b, c).value;
      FieldsAtStable(b, t, c + 2, count);
      if FieldsAt(b, c + 2, count).Done? {
        EndingAtStable(b, t, FieldsAt(b, c + 2, count).value);
      }
    }
  }

  /** `readProlog`: only "too small" can change when bytes are appended, wherever the cursor goes. */
  lemma {:induction false} PrologAtStable(b: Bytes, t: Bytes, c: int)
    ensures Stable(PrologAt(b, c), PrologAt(b + t, c))
  {
    hide ShortAt, ByteAt, ReadAt, MembersAt;
    AtStable(b, t, c);
    AtStable(b, t, c + 1);
    if ShortAt(b, c + 1).Done? {
      MembersAtStable(b, t, c + 1 + 2 + ShortAt(b, c + 1).value + 8 + 1);
    }
  }

  lemma {:induction false} LocationAtStable(b: Bytes, t: Bytes, c: nat)
    ensures Stable(LocationAt(b, c), LocationAt(b + t, c))
  {
    hide ByteAt, PrologAt, Text, CString;
    AtStable(b, t, c);
    PrologAtStable(b, t, c + 1);
    if PrologAt(b, c + 1).Done? {
      var d := PrologAt(b, c + 1).value;
      Drop(b, t, d);
      TextStable(b[d..], t);
    }
  }

  lemma {:induction false} HashtableAtStable(b: Bytes, t: Bytes, c: nat)
    ensures Stable(HashtableAt(b, c), HashtableAt(b + t, c))
  {
    hide PrologAt, Exactly, Pairs;
    PrologAtStable(b, t, c);
    if PrologAt(b, c).Done? {
      var d := PrologAt(b, c).value;
      Drop(b, t, d);
      ExactlyStable(b[d..], t, HASH_DATA);
      if Exactly(b[d..], HASH_DATA).Done? {
        var e := d + |HASH_DATA|;
        Drop(b, t, e);
        PairsStable(b[e..], t);
      }
    }
  }

  /** Each kind of field: only "too small" can change when bytes are appended. */
  lemma {:induction false} FieldAtStable(f: Field, b: Bytes, t: Bytes, c: nat)
    requires c <= |b|
    ensures Stable(FieldAt(f, b, c), FieldAt(f, b + t, c))
  {
    hide PrologAt, LocationAt, HashtableAt, Read, ByteAt;
    match f
    case Describes => PrologAtStable(b, t, c);
    case Place => LocationAtStable(b, t, c);
    case Context =>
      AtStable(b, t, c);
      HashtableAtStable(b, t, c + 1);
    case _ =>
      Drop(b, t, c);
      PlainStable(f, b[c..], t);
  }

  /** Whatever has been read, or found malformed, or goes on for ever, stays so when more bytes arrive. */
  lemma {:induction false} AllAtStable(fs: seq<Field>, b: Bytes, t: Bytes, c: nat)
    requires c <= |b|
    ensures Stable(AllAt(fs, b, c), AllAt(fs, b + t, c))
    decreases |fs|
  {
    hide FieldAt;
    if fs != [] {
      FieldAtStable(fs[0], b, t, c);
      if FieldAt(fs[0], b, c).Done? {
        AllAtStable(fs[1..], b, t, FieldAt(fs[0], b, c).value.n);
      }
    }
  }

  /** The tags that the pieces of an event can begin with. */
  function FirstTags(f: Field): set<byte> {
    match f
    case Opens => {TC_OBJECT, TC_RESET}
    case Describes => {TC_CLASSDESC, TC_REFERENCE}
    case String => {TC_STRING}
    case Place => {TC_NULL, TC_OBJECT}
    case Context => {TC_NULL, TC_OBJECT}
    case _ => {}
  }

  /** Any other tag is refused at once, and no tag is waited for. */
  lemma {:induction false} WrongTag(f: Field, b: Bytes, c: nat)
    requires FirstTags(f) != {} && c <= |b|
    ensures c < |b| && b[c] !in FirstTags(f) ==> FieldAt(f, b, c) == Invalid
    ensures c == |b| ==> FieldAt(f, b, c) == Small
  {
    hide ClassDescAt, PrologAt, HashtableAt;
    match f
    case Describes => PrologTag(b, c);
    case _ =>
  }

  lemma {:induction false} PrologTag(b: Bytes, c: nat)
    requires c <= |b|
    ensures c < |b| && b[c] !in {TC_CLASSDESC, TC_REFERENCE} ==> PrologAt(b, c) == Invalid
    ensures c == |b| ==> PrologAt(b, c) == Small
  {
    hide ClassDescAt;
  }

  /** The silence of `readNDC` about an unknown tag does no harm: the string after it does not have that tag, either. */
  lemma {:induction false} UnknownTagRejected(fs: seq<Field>, b: Bytes, c: nat)
    requires c < |b| && b[c] != TC_NULL && b[c] != TC_STRING
    ensures AllAt([Nested, String] + fs, b, c) == Invalid
  {
    var all := [Nested, String] + fs;
    assert all[1..] == [String] + fs;
    assert FieldAt(Nested, b, c) == Done(Got(Str([]), c));
    assert FieldAt(String, b, c) == Invalid;
  }

  // ---------- the grammar ----------

  /** The rest of a class descriptor while `k` fields are still to be counted. */
  function Counting(s: Bytes, k: int): (r: Parsed<Got<()>>)
    ensures r.Done? ==> r.value.n <= |s|
  {
    var fields :- Fields(s, k);
    var end :- Ending(s[fields.n..]);
    Done(Got((), fields.n + end.n))
  }

  /** Beyond the end of the buffer, every read finds it too small. */
  lemma {:induction false} CountingNothing(k: int)
    ensures Counting([], k) == Small
  {
    var s: Bytes := [];
    assert s[0..] == s;
  }

  /** One more field, read the way the code does it: nothing but the length is looked at. */
  lemma {:induction false} CountingStep(s: Bytes, k: int)
    requires k > 0
    ensures Counting(s, k) ==
            match Integer(From(s, 1), 2)
            case Done(x) => if x.v < 0 then Backwards else Shift(3 + x.v, Counting(From(s, 3 + x.v), k - 1))
            case _ => Small
  {
    hide Ending, Signed, BeValue;
    if s != [] {
      FromFrom(s, 1, 2);
      var x := Integer(From(s, 1), 2);
      if x.Done? && x.value.v >= 0 {
        var n := 3 + x.value.v;
        if n <= |s| {
          CountingAfter(s, n, k);
        } else {
          CountingNothing(k - 1);
        }
      }
    }
  }

  lemma {:induction false} CountingAfter(s: Bytes, n: nat, k: int)
    requires k > 0 && 3 <= n <= |s| && Skipped(s[1..]) == Done(Got((), n - 1))
    ensures Counting(s, k) == Shift(n, Counting(s[n..], k - 1))
  {
    hide Ending, Skipped;
    var rest := Fields(s[n..], k - 1);
    if rest.Done? {
      assert s[n..][rest.value.n..] == s[n + rest.value.n..];
    }
  }

  /** One more tag. */
  lemma {:induction false} EndingStep(s: Bytes)
    ensures Ending(s) ==
            match U8(s)
            case Done(tag) =>
              if tag.v == TC_ENDBLOCKDATA then Shift(1, Last(From(s, 1)))
              else if tag.v == TC_REFERENCE then
                (match Take(From(s, 1), 4) case Done(_) => Shift(5, Ending(From(s, 5))) case _ => Small)
              else if tag.v == FIELD_OBJECT || tag.v == TC_STRING then
                (match Integer(From(s, 1), 2)
                 case Done(x) => if x.v < 0 then Backwards else Shift(3 + x.v, Ending(From(s, 3 + x.v)))
                 case _ => Small)
              else Invalid
            case _ => Small
  {
    hide Ending, Last, Integer, Take;
    if s != [] {
      if s[0] == TC_REFERENCE {
        EndingReference(s);
      } else if s[0] == FIELD_OBJECT || s[0] == TC_STRING {
        EndingString(s);
      } else {
        EndingOther(s);
      }
    } else {
      EndingOther(s);
    }
  }

  lemma {:induction false} EndingReference(s: Bytes)
    requires s != [] && s[0] == TC_REFERENCE
    ensures Ending(s) == match Take(From(s, 1), 4) case Done(_) => Shift(5, Ending(From(s, 5))) case _ => Small
  {
    hide Exactly;
    if |s| >= 5 {
      EndingAfter(s, 5);
    }
  }

  lemma {:induction false} EndingString(s: Bytes)
    requires s != [] && (s[0] == FIELD_OBJECT || s[0] == TC_STRING)
    ensures Ending(s) == match Integer(From(s, 1), 2)
                         case Done(x) => if x.v < 0 then Backwards else Shift(3 + x.v, Ending(From(s, 3 + x.v)))
                         case _ => Small
  {
    hide Exactly, Integer, Tags;
    TagsString(s);
    var x := Integer(From(s, 1), 2);
    if x.Done? && x.value.v >= 0 && 3 + x.value.v <= |s| {
      EndingAfter(s, 3 + x.value.v);
    } else if x.Done? && x.value.v >= 0 {
      EndingOther([]);
    }
  }

  lemma {:induction false} TagsString(s: Bytes)
    requires s != [] && (s[0] == FIELD_OBJECT || s[0] == TC_STRING)
    ensures Tags(s) == match Integer(From(s, 1), 2)
                       case Done(x) => if x.v < 0 then Backwards else if 3 + x.v > |s| then Small
                         else Shift(3 + x.v, Tags(s[3 + x.v..]))
                       case _ => Small
  {
    hide Signed, BeValue;
  }

  lemma {:induction false} EndingOther(s: Bytes)
    requires s == [] || (s[0] != TC_REFERENCE && s[0] != FIELD_OBJECT && s[0] != TC_STRING)
    ensures Ending(s) == if s == [] then Small else if s[0] == TC_ENDBLOCKDATA then Shift(1, Last(From(s, 1)))
            else Invalid
  {
    hide Exactly;
  }

  function Last(s: Bytes): Parsed<Got<()>> {
    var end :- Exactly(s, [TC_NULL]);
    Done(Got((), 1))
  }

  lemma {:induction false} EndingAfter(s: Bytes, n: nat)
    requires 1 <= n <= |s|
    requires Tags(s) == Shift(n, Tags(s[n..]))
    ensures Ending(s) == Shift(n, Ending(s[n..]))
  {
    hide Tags, Exactly;
    var rest := Tags(s[n..]);
    if rest.Done? {
      assert s[n..][rest.value.n..] == s[n + rest.value.n..];
    }
  }

  lemma {:induction false} ClassDescSteps(s: Bytes)
    ensures ClassDesc(s) ==
            match Integer(s, 2)
            case Done(x) => if x.v < 0 then Backwards else Shift(11 + x.v, Members(From(s, 11 + x.v)))
            case _ => Small
    ensures Members(s) ==
            match Integer(s, 2)
            case Done(x) => Shift(2, Counting(From(s, 2), x.v))
            case _ => Small
  {
    hide Signed, BeValue, Fields, Ending;
    var x := Integer(s, 2);
    if x.Done? {
      var f := Fields(s[2..], x.value.v);
      if f.Done? {
        assert s[2..][f.value.n..] == s[2 + f.value.n..];
      }
      if x.value.v >= 0 && 2 + x.value.v <= |s| {
        FromFrom(s, 2 + x.value.v, 9);
      }
    }
  }

  lemma {:induction false} CountingDone(s: Bytes, k: int)
    requires k <= 0
    ensures Counting(s, k) == Ending(s)
  {
  }

  /** A result for a place further on, as a position. */
  function Place(c: nat, r: Parsed<Got<()>>): Parsed<int> {
    match r
    case Done(x) => Done(c + x.n)
    case f => f.PropagateFailure()
  }

  lemma {:induction false} ByteIs(b: Bytes, c: nat)
    ensures ByteAt(b, c) == match U8(From(b, c)) case Done(x) => Done(x.v) case _ => Small
    ensures ShortAt(b, c) == match Integer(From(b, c), 2) case Done(x) => Done(x.v) case _ => Small
    ensures ReadAt(b, c, 4) == match Take(From(b, c), 4) case Done(x) => Done(x.v) case _ => Small
  {
    assert c + 2 <= |b| ==> b[c..][..2] == b[c..c + 2];
    assert c + 4 <= |b| ==> b[c..][..4] == b[c..c + 4];
  }

  /** The tag after the loop, if the loop is given so many rounds. */
  function RunEnd(b: Bytes, c: int, more: nat): Parsed<int> {
    var d :- Run(b, c, more);
    var tag :- ByteAt(b, d);
    if tag == TC_NULL then Done(d + 1) else Invalid
  }

  /** Without negative lengths every round leads further on. */
  lemma {:induction false} RoundAgrees(b: Bytes, c: nat)
    requires Ending(From(b, c)) != Backwards
    ensures match Round(b, c)
            case Done(On(d)) => d > c && Ending(From(b, c)) == Shift(d - c, Ending(From(b, d)))
            case Done(Off(d)) => d == c + 1 && Ending(From(b, c)) == Shift(1, Last(From(b, d)))
            case Small => Ending(From(b, c)) == Small
            case Invalid => Ending(From(b, c)) == Invalid
            case _ => false
  {
    hide Ending, Integer, Take, From, Last, ByteAt, ShortAt, ReadAt;
    EndingStep(From(b, c));
    FromFrom(b, c, 1);
    ByteIs(b, c);
    ByteIs(b, c + 1);
    match Round(b, c)
    case Done(On(d)) => FromFrom(b, c, d - c);
    case _ =>
  }

  /** So the loop ends where the grammar says. */
  lemma {:induction false} RunAgrees(b: Bytes, c: nat, more: nat)
    requires more + c >= |b| && Ending(From(b, c)) != Backwards
    ensures RunEnd(b, c, more) == Place(c, Ending(From(b, c)))
    decreases more
  {
    hide Ending, From, Last, Round, ByteAt;
    RoundAgrees(b, c);
    match Round(b, c)
    case Done(On(d)) =>
      if more > 0 {
        RunAgrees(b, d, more - 1);
      }
    case Done(Off(d)) =>
      LastIs(b, d);
      ByteIs(b, d);
    case _ =>
  }

  lemma {:induction false} LastIs(b: Bytes, c: nat)
    ensures Last(From(b, c)) == match ByteAt(b, c)
            case Done(tag) => if tag == TC_NULL then Done(Got((), 1)) else Invalid case _ => Small
  {
    assert c < |b| ==> b[c..][..1] == [b[c]];
  }

  lemma {:induction false} FieldsAgree(b: Bytes, c: nat, k: int)
    requires Counting(From(b, c), k) != Backwards
    ensures (match FieldsAt(b, c, k) case Done(d) => EndingAt(b, d) case f => f) == Place(c, Counting(From(b, c), k))
    decreases if k > 0 then k else 0
  {
    hide Counting, Ending, Integer, From, ShortAt, EndingAt;
    if k <= 0 {
      CountingDone(From(b, c), k);
      EndingAgrees(b, c);
    } else {
      CountingStep(From(b, c), k);
      FromFrom(b, c, 1);
      ByteIs(b, c + 1);
      var x := Integer(From(b, c + 1), 2);
      if x.Done? {
        FromFrom(b, c, 3 + x.value.v);
        FieldsAgree(b, c + 3 + x.value.v, k - 1);
      }
    }
  }

  lemma {:induction false} EndingAgrees(b: Bytes, c: nat)
    requires Ending(From(b, c)) != Backwards
    ensures EndingAt(b, c) == Place(c, Ending(From(b, c)))
  {
    hide Ending, Run;
    RunAgrees(b, c, |b|);
  }

  lemma {:induction false} MembersAgree(b: Bytes, c: nat)
    requires Members(From(b, c)) != Backwards
    ensures MembersAt(b, c) == Place(c, Members(From(b, c)))
  {
    hide Members, ClassDesc, Counting, Integer, From, ShortAt, FieldsAt, EndingAt;
    ClassDescSteps(From(b, c));
    ByteIs(b, c);
    FromFrom(b, c, 2);
    if ShortAt(b, c).Done? {
      FieldsAgree(b, c + 2, ShortAt(b, c).value);
    }
  }

  lemma {:induction false} ClassDescAgrees(b: Bytes, c: nat)
    requires ClassDesc(From(b, c)) != Backwards
    ensures ClassDescAt(b, c) == Place(c, ClassDesc(From(b, c)))
  {
    hide Members, ClassDesc, Integer, From, ShortAt, MembersAt;
    ClassDescSteps(From(b, c));
    ByteIs(b, c);
    if ShortAt(b, c).Done? && ShortAt(b, c).value >= 0 {
      var d := 11 + ShortAt(b, c).value;
      FromFrom(b, c, d);
      MembersAgree(b, c + d);
    }
  }

  /** `readProlog` does what the grammar says, on every buffer, unless it meets a negative length. */
  lemma {:induction false} PrologAgrees(b: Bytes, c: nat)
    requires Prolog(From(b, c)) != Backwards
    ensures PrologAt(b, c) == Place(c, Prolog(From(b, c)))
  {
    hide ClassDesc, ClassDescAt, ByteAt, ReadAt;
    ByteIs(b, c);
    ByteIs(b, c + 1);
    FromIs(b, c);
    if From(b, c) != [] && From(b, c)[0] == TC_CLASSDESC {
      ClassDescAgrees(b, c + 1);
    }
  }

  lemma {:induction false} FromIs(b: Bytes, c: nat)
    ensures From(b, c) != [] ==> From(b, c)[1..] == From(b, c + 1)
  {
  }

  lemma {:induction false} LocationAgrees(b: Bytes, c: nat)
    requires Location(From(b, c)) != Backwards
    ensures LocationAt(b, c) == Shift(c, Location(From(b, c)))
  {
    hide Prolog, PrologAt, Text, CString, ByteAt, From;
    ByteIs(b, c);
    FromIs(b, c);
    if From(b, c) != [] && From(b, c)[0] == TC_OBJECT {
      PrologAgrees(b, c + 1);
      if Prolog(From(b, c + 1)).Done? {
        FromFrom(b, c, 1 + Prolog(From(b, c + 1)).value.n);
      }
    }
  }

  lemma {:induction false} HashtableAgrees(b: Bytes, c: nat)
    requires Hashtable(From(b, c)) != Backwards
    ensures HashtableAt(b, c) == Shift(c, Hashtable(From(b, c)))
  {
    hide Prolog, PrologAt, Exactly, Pairs;
    PrologAgrees(b, c);
    if Prolog(From(b, c)).Done? {
      var n := Prolog(From(b, c)).value.n;
      FromFrom(b, c, n);
      FromFrom(b, c, n + |HASH_DATA|);
    }
  }

  lemma {:induction false} FieldAgrees(f: Field, b: Bytes, c: nat)
    requires Read(f, From(b, c)) != Backwards
    ensures FieldAt(f, b, c) == Shift(c, Read(f, From(b, c)))
  {
    hide Prolog, PrologAt, Location, LocationAt, Hashtable, HashtableAt, ByteAt;
    match f
    case Describes => PrologAgrees(b, c);
    case Place => LocationAgrees(b, c);
    case Context =>
      ByteIs(b, c);
      FromIs(b, c);
      if From(b, c) != [] && From(b, c)[0] == TC_OBJECT {
        HashtableAgrees(b, c + 1);
      }
    case _ =>
  }

  lemma {:induction false} ReadAllStep(fs: seq<Field>, b: Bytes, c: nat)
    requires fs != []
    ensures var all, x := Shift(c, ReadAll(fs, From(b, c))), Read(fs[0], From(b, c));
            if x.Done? then
              var y := Shift(c + x.value.n, ReadAll(fs[1..], From(b, c + x.value.n)));
              all == if y.Done? then Done(Got([x.value.v] + y.value.v, y.value.n)) else y
            else all == x.PropagateFailure()
  {
    hide Read, From;
    if Read(fs[0], From(b, c)).Done? {
      FromFrom(b, c, Read(fs[0], From(b, c)).value.n);
    }
  }

  /** A whole event is what the grammar says, unless a negative length is met. */
  lemma {:induction false} AllAgree(fs: seq<Field>, b: Bytes, c: nat)
    requires ReadAll(fs, From(b, c)) != Backwards
    ensures AllAt(fs, b, c) == Shift(c, ReadAll(fs, From(b, c)))
    decreases |fs|
  {
    hide Read, FieldAt, From;
    if fs == [] {
    } else {
      ReadAllStep(fs, b, c);
      FieldAgrees(fs[0], b, c);
      if Read(fs[0], From(b, c)).Done? {
        hide ReadAll;
        AllAgree(fs[1..], b, c + Read(fs[0], From(b, c)).value.n);
      }
    }
  }

  lemma {:induction false} PlainForward(fs: seq<Field>, s: Bytes)
    requires forall f | f in fs :: Plain(f)
    ensures ReadAll(fs, s) != Backwards
    decreases |fs|
  {
    hide Read;
    if fs != [] {
      assert fs[0] in fs && forall f | f in fs[1..] :: f in fs;
      PlainStable(fs[0], s, []);
      if Read(fs[0], s).Done? {
        PlainForward(fs[1..], s[Read(fs[0], s).value.n..]);
      }
    }
  }
}
