/** What decoding promises about encoding: the Read functions of
    app/resp.go:72-185 undo the Marshal functions of app/resp.go:250-361,
    frame by frame, whatever bytes follow the frame. */
module RoundTrip {
  import opened Wire
  import opened Decimal
  import opened Values
  import opened Encoder
  import opened Grammar

  /** A line read where the text is followed by CR LF gives the text. */
  lemma LineRoundTrip(t: seq<bv8>, rest: seq<bv8>)
    requires NoLF(t)
    ensures Line(t + CRLF + rest) == Ok(Parsed(t, rest))
  {
    var s := t + CRLF + rest;
    assert s[|t| + 1] == LF;
    assert forall i :: 0 <= i < |t| ==> s[i] == t[i];
    assert s[|t|] == CR;
    var k := FirstLF(s).value;
    assert k == |t| + 1;
    assert s[..k + 1] == t + CRLF;
    assert s[k + 1..] == rest;
  }

  /** An LF with no CR before it stays in the line. */
  lemma LineKeepsBareLF(t: seq<bv8>, rest: seq<bv8>)
    requires NoLF(t)
    requires |t| == 0 || t[|t| - 1] != CR
    ensures Line(t + [LF] + rest) == Ok(Parsed(t + [LF], rest))
  {
    var s := t + [LF] + rest;
    assert s[|t|] == LF;
    assert forall i :: 0 <= i < |t| ==> s[i] == t[i];
    var k := FirstLF(s).value;
    assert k == |t|;
    assert s[..k + 1] == t + [LF];
    assert s[k + 1..] == rest;
  }

  /** A line read fails exactly when no LF is left in the input: reaching
      the end of input gives no partial line. */
  lemma LineFailsWithoutLF(s: seq<bv8>)
    ensures Line(s).Fail? <==> NoLF(s)
  {
    if !NoLF(s) {
      var i :| 0 <= i < |s| && s[i] == LF;
      assert FirstLF(s).Some?;
    }
  }

  /** ReadInteger reads back every 64-bit integer that Itoa writes. */
  lemma IntegerLineRoundTrip(n: int, rest: seq<bv8>)
    requires InInt64(n)
    ensures IntegerLine(FormatInt(n) + CRLF + rest) == Ok(Parsed(n, rest))
  {
    LineRoundTrip(FormatInt(n), rest);
    FormatThenParse(n);
  }

  /** The tag byte is consumed and the body is what follows it. */
  lemma AfterTag(tag: bv8, body: seq<bv8>)
    ensures Frame([tag] + body) ==
      if tag == SIMPLE_STRING then SimpleStringBody(body)
      else if tag == INTEGER then IntegerBody(body)
      else if tag == ERROR then ErrorBody(body)
      else if tag == BULK_STRING then BulkStringBody(body)
      else if tag == ARRAY then ArrayBody(body)
      else if tag == NULL then NullBody(body)
      else if tag == BOOLEAN then BooleanBody(body)
      else if tag == MAP then MapBody(body)
      else Fail
  {
    assert ([tag] + body)[1..] == body;
  }

  lemma SimpleStringRoundTrip(str: seq<bv8>, rest: seq<bv8>)
    requires NoLineBreak(str)
    ensures Frame(MarshalSimpleString(str) + rest) == Ok(Parsed(SimpleString(str), rest))
  {
    assert MarshalSimpleString(str) + rest == [SIMPLE_STRING] + (str + CRLF + rest);
    AfterTag(SIMPLE_STRING, str + CRLF + rest);
    LineRoundTrip(str, rest);
  }

  lemma ErrorRoundTrip(str: seq<bv8>, rest: seq<bv8>)
    requires NoLineBreak(str)
    ensures Frame(MarshalError(str) + rest) == Ok(Parsed(Error(str), rest))
  {
    assert MarshalError(str) + rest == [ERROR] + (str + CRLF + rest);
    AfterTag(ERROR, str + CRLF + rest);
    LineRoundTrip(str, rest);
  }

  lemma IntegerRoundTrip(num: int, rest: seq<bv8>)
    requires InInt64(num)
    ensures Frame(MarshalInteger(num) + rest) == Ok(Parsed(Integer(num), rest))
  {
    assert MarshalInteger(num) + rest == [INTEGER] + (FormatInt(num) + CRLF + rest);
    AfterTag(INTEGER, FormatInt(num) + CRLF + rest);
    IntegerLineRoundTrip(num, rest);
  }

  /** Binary safety: any payload, CR and LF included, comes back whole. */
  lemma BulkStringRoundTrip(bulk: seq<bv8>, rest: seq<bv8>)
    requires |bulk| <= MAX_INT64
    ensures Frame(MarshalBulkString(bulk) + rest) == Ok(Parsed(BulkString(bulk), rest))
  {
    var body := FormatInt(|bulk|) + CRLF + (bulk + CRLF + rest);
    BulkBytes(bulk, rest);
    AfterTag(BULK_STRING, body);
    BulkPayload(bulk, rest);
  }

  /** A bulk frame followed by more bytes, regrouped as tag then body. */
  lemma BulkBytes(bulk: seq<bv8>, rest: seq<bv8>)
    ensures MarshalBulkString(bulk) + rest == [BULK_STRING] + (FormatInt(|bulk|) + CRLF + (bulk + CRLF + rest))
  {
  }

  lemma BulkPayload(bulk: seq<bv8>, rest: seq<bv8>)
    requires |bulk| <= MAX_INT64
    ensures BulkStringBody(FormatInt(|bulk|) + CRLF + (bulk + CRLF + rest)) == Ok(Parsed(BulkString(bulk), rest))
  {
    IntegerLineRoundTrip(|bulk|, bulk + CRLF + rest);
    PayloadRoundTrip(bulk, rest);
  }

  /** The payload reader takes back exactly the bytes written before CR LF. */
  lemma PayloadRoundTrip(bulk: seq<bv8>, rest: seq<bv8>)
    ensures Payload(bulk + CRLF + rest, |bulk|) == Ok(Parsed(bulk, rest))
  {
    var t := bulk + CRLF + rest;
    assert t[|bulk|] == CR && t[|bulk| + 1] == LF;
    assert t[..|bulk|] == bulk && t[|bulk| + 2..] == rest;
  }

  /** `$-1` CR LF is the null bulk string, not the empty one. */
  lemma NullBulkRoundTrip(rest: seq<bv8>)
    ensures Frame(MarshalNullBulk() + rest) == Ok(Parsed(NullBulk, rest))
  {
    assert MarshalNullBulk() + rest == [BULK_STRING] + (FormatInt(-1) + CRLF + rest);
    AfterTag(BULK_STRING, FormatInt(-1) + CRLF + rest);
    IntegerLineRoundTrip(-1, rest);
  }

  lemma NullRoundTrip(rest: seq<bv8>)
    ensures Frame(MarshalNull() + rest) == Ok(Parsed(Null, rest))
  {
    assert MarshalNull() + rest == [NULL] + ([] + CRLF + rest);
    AfterTag(NULL, [] + CRLF + rest);
    LineRoundTrip([], rest);
  }

  /** A null is the tag and CR LF and nothing else: any text between them
      makes the frame fail. */
  lemma NullLine(t: seq<bv8>, rest: seq<bv8>)
    requires NoLF(t)
    ensures Frame([NULL] + (t + CRLF + rest)) == (if t == [] then Ok(Parsed(Null, rest)) else Fail)
  {
    AfterTag(NULL, t + CRLF + rest);
    LineRoundTrip(t, rest);
  }

  lemma BooleanRoundTrip(truth: bool, rest: seq<bv8>)
    ensures Frame(MarshalBoolean(truth) + rest) == Ok(Parsed(Boolean(truth), rest))
  {
    var letter := [if truth then TRUE_LETTER else FALSE_LETTER];
    assert MarshalBoolean(truth) + rest == [BOOLEAN] + (letter + CRLF + rest);
    BooleanLine(letter, rest);
  }

  /** `#` followed by the line "t" is true; any other line is false. */
  lemma BooleanLine(line: seq<bv8>, rest: seq<bv8>)
    requires NoLF(line)
    ensures Frame([BOOLEAN] + (line + CRLF + rest)) == Ok(Parsed(Boolean(line == [TRUE_LETTER]), rest))
  {
    AfterTag(BOOLEAN, line + CRLF + rest);
    LineRoundTrip(line, rest);
  }

  /** An array header announcing `n` children decodes as exactly the next
      `n` frames, in order; if any of them fails, the array fails. */
  lemma ArrayChildren(n: nat, s: seq<bv8>)
    requires n <= MAX_INT64
    ensures Frame([ARRAY] + FormatInt(n) + CRLF + s) ==
      match FrameSeq(s, n)
      case Fail => Fail
      case Ok(children) => Ok(Parsed(Array(children.value), children.rest))
  {
    assert [ARRAY] + FormatInt(n) + CRLF + s == [ARRAY] + (FormatInt(n) + CRLF + s);
    AfterTag(ARRAY, FormatInt(n) + CRLF + s);
    IntegerLineRoundTrip(n, s);
  }

  /** A map header announcing `n` pairs decodes as exactly the next 2 * n
      frames, in order and with repeated keys kept. */
  lemma MapChildren(n: nat, s: seq<bv8>)
    requires n <= MAX_INT64
    ensures Frame([MAP] + FormatInt(n) + CRLF + s) ==
      match FrameSeq(s, 2 * n)
      case Fail => Fail
      case Ok(children) => Ok(Parsed(Map(children.value), children.rest))
  {
    assert [MAP] + FormatInt(n) + CRLF + s == [MAP] + (FormatInt(n) + CRLF + s);
    AfterTag(MAP, FormatInt(n) + CRLF + s);
    IntegerLineRoundTrip(n, s);
  }

  /** Decoding what Marshal wrote gives back the value and stops exactly at
      the end of its frame. */
  lemma {:induction false} RoundTrip(v: Value, rest: seq<bv8>)
    requires Encodable(v)
    ensures Frame(Marshal(v) + rest) == Ok(Parsed(v, rest))
    decreases v, 1
  {
    match v
    case SimpleString(str) => SimpleStringRoundTrip(str, rest);
    case Error(str) => ErrorRoundTrip(str, rest);
    case Integer(num) => IntegerRoundTrip(num, rest);
    case BulkString(bulk) => BulkStringRoundTrip(bulk, rest);
    case NullBulk => NullBulkRoundTrip(rest);
    case Null => NullRoundTrip(rest);
    case Boolean(truth) => BooleanRoundTrip(truth, rest);
    case Array(elems) => ArrayRoundTrip(elems, rest);
    case Map(elems) => MapRoundTrip(elems, rest);
  }

  lemma {:induction false} ArrayRoundTrip(elems: seq<Value>, rest: seq<bv8>)
    requires Encodable(Array(elems))
    ensures Frame(MarshalArray(elems) + rest) == Ok(Parsed(Array(elems), rest))
    decreases Array(elems), 0
  {
    var header := [ARRAY] + FormatInt(|elems|) + CRLF;
    var body := MarshalAll(elems) + rest;
    ArrayLayout(elems);
    assert MarshalArray(elems) + rest == header + body;
    RoundTripAll(elems, rest);
    ArrayChildren(|elems|, body);
  }

  lemma {:induction false} MapRoundTrip(elems: seq<Value>, rest: seq<bv8>)
    requires Encodable(Map(elems))
    ensures Frame(MarshalMap(elems) + rest) == Ok(Parsed(Map(elems), rest))
    decreases Map(elems), 0
  {
    var body := MarshalAll(elems) + rest;
    assert |elems| % 2 == 0 && |elems| / 2 <= MAX_INT64;
    assert forall i :: 0 <= i < |elems| ==> Encodable(elems[i]);
    MapLayout(elems);
    RoundTripAll(elems, rest);
    assert 2 * (|elems| / 2) == |elems|;
    MapHeader(|elems| / 2, MarshalAll(elems), rest);
    MapChildren(|elems| / 2, body);
  }

  /** The map frame followed by more bytes, regrouped as header then body. */
  lemma MapHeader(n: nat, frames: seq<bv8>, rest: seq<bv8>)
    ensures [MAP] + FormatInt(n) + CRLF + frames + rest == [MAP] + FormatInt(n) + CRLF + (frames + rest)
  {
  }

  lemma {:induction false} RoundTripAll(vs: seq<Value>, rest: seq<bv8>)
    requires forall i :: 0 <= i < |vs| ==> Encodable(vs[i])
    ensures FrameSeq(MarshalAll(vs) + rest, |vs|) == Ok(Parsed(vs, rest))
    decreases vs
  {
    if |vs| > 0 {
      var tail := MarshalAll(vs[1..]) + rest;
      RoundTrip(vs[0], tail);
      RoundTripAll(vs[1..], rest);
      FrameSeqCons(Marshal(vs[0]) + tail, vs[0], tail, vs[1..], rest);
      ReframeAll(vs[0], vs[1..], rest, FrameSeq(Marshal(vs[0]) + tail, |vs|));
      assert [vs[0]] + vs[1..] == vs;
    }
  }

  /** Reading the encoding of `[v] + vs` is reading `v`'s encoding
      followed by that of `vs`. */
  lemma ReframeAll(v: Value, vs: seq<Value>, rest: seq<bv8>, r: Result<Parsed<seq<Value>>>)
    requires FrameSeq(Marshal(v) + (MarshalAll(vs) + rest), |vs| + 1) == r
    ensures FrameSeq(MarshalAll([v] + vs) + rest, |vs| + 1) == r
  {
    MarshalAllFront(v, vs, rest);
  }

  lemma MarshalAllFront(v: Value, vs: seq<Value>, rest: seq<bv8>)
    ensures MarshalAll([v] + vs) + rest == Marshal(v) + (MarshalAll(vs) + rest)
  {
    MarshalAllCons(v, vs);
  }

  /** A frame followed by frames read as a sequence is read as one more. */
  lemma FrameSeqCons(s: seq<bv8>, v: Value, tail: seq<bv8>, vs: seq<Value>, rest: seq<bv8>)
    requires Frame(s) == Ok(Parsed(v, tail))
    requires FrameSeq(tail, |vs|) == Ok(Parsed(vs, rest))
    ensures FrameSeq(s, |vs| + 1) == Ok(Parsed([v] + vs, rest))
  {
    FrameSeqStep(s, |vs| + 1);
  }

  /** The variant is chosen by the first byte alone: a decoded frame
      starts with its value's tag byte. */
  lemma FrameTag(s: seq<bv8>)
    ensures Frame(s).Ok? ==> 0 < |s| && s[0] == Tag(Frame(s).value.value)
  {
    if 0 < |s| {
      assert s == [s[0]] + s[1..];
      AfterTag(s[0], s[1..]);
    }
  }

  /** A first byte that is none of the eight tags fails the read. */
  lemma UnknownTagFails(s: seq<bv8>)
    requires 0 < |s| && !IsTag(s[0])
    ensures Frame(s) == Fail
  {
  }

  /** The null bulk string and the empty bulk string are different frames
      that decode to different values. */
  lemma NullBulkIsNotEmpty(rest: seq<bv8>)
    ensures MarshalNullBulk() != MarshalBulkString([])
    ensures Frame(MarshalNullBulk() + rest) == Ok(Parsed(NullBulk, rest))
    ensures Frame(MarshalBulkString([]) + rest) == Ok(Parsed(BulkString([]), rest))
  {
    assert MarshalNullBulk()[1] == MINUS;
    assert MarshalBulkString([])[1] == '0' as bv8;
    NullBulkRoundTrip(rest);
    BulkStringRoundTrip([], rest);
  }

  /** The frames of `r`, followed by `n` more frames read where `r` stopped. */
  function Append(r: Result<Parsed<seq<Value>>>, n: nat): Result<Parsed<seq<Value>>> {
    match r
    case Fail => Fail
    case Ok(front) =>
      match FrameSeq(front.rest, n)
      case Fail => Fail
      case Ok(back) => Ok(Parsed(front.value + back.value, back.rest))
  }

  /** Reading one child is reading one frame. */
  lemma FrameSeqOne(s: seq<bv8>, v: Value, rest: seq<bv8>)
    requires Frame(s) == Ok(Parsed(v, rest))
    ensures FrameSeq(s, 1) == Ok(Parsed([v], rest))
  {
    FrameSeqStep(s, 1);
    assert FrameSeq(rest, 0) == Ok(Parsed([], rest));
    assert [v] + [] == [v];
  }

  /** A sequence of frames is its first frame in front of the rest. */
  lemma FrameSeqStep(s: seq<bv8>, n: nat)
    requires 0 < n
    ensures Frame(s).Fail? ==> FrameSeq(s, n) == Fail
    ensures Frame(s).Ok? ==> FrameSeq(s, n) == Then([Frame(s).value.value], FrameSeq(Frame(s).value.rest, n - 1))
  {
  }

  /** Reading m + n frames is reading m frames, then n more from where
      they stopped: children come back in wire order. */
  lemma {:induction false} FrameSeqSplit(s: seq<bv8>, m: nat, n: nat)
    ensures FrameSeq(s, m + n) == Append(FrameSeq(s, m), n)
  {
    SplitAt(s, m, n, m + n);
  }

  /** FrameSeqSplit with the total number of frames named `total`. */
  lemma {:induction false} SplitAt(s: seq<bv8>, m: nat, n: nat, total: nat)
    requires total == m + n
    ensures FrameSeq(s, total) == Append(FrameSeq(s, m), n)
    decreases m
  {
    if m == 0 {
      SplitNone(s, m, n, total);
    } else {
      var first, k, j := FrameSeq(s, 1), m - 1, total - 1;
      if first.Ok? {
        SplitAt(first.value.rest, k, n, j);
      }
      SplitStep(s, m, n, total, k, j);
    }
  }

  /** The base case of SplitAt: no frame read first. */
  lemma {:induction false} SplitNone(s: seq<bv8>, m: nat, n: nat, total: nat)
    requires m == 0 && total == m + n
    ensures FrameSeq(s, total) == Append(FrameSeq(s, m), n)
  {
    var r := FrameSeq(s, n);
    assert FrameSeq(s, 0) == Ok(Parsed([], s));
    if r.Ok? {
      assert [] + r.value.value == r.value.value;
    }
  }

  /** The step of SplitAt: if the j = k + n frames after the first one
      split at k, then the total = j + 1 frames from the start split at
      m = k + 1. */
  lemma {:induction false} SplitStep(s: seq<bv8>, m: nat, n: nat, total: nat, k: nat, j: nat)
    requires total == m + n && 0 < m && k == m - 1 && j == total - 1
    requires FrameSeq(s, 1).Ok? ==>
      FrameSeq(FrameSeq(s, 1).value.rest, j) == Append(FrameSeq(FrameSeq(s, 1).value.rest, k), n)
    ensures FrameSeq(s, total) == Append(FrameSeq(s, m), n)
  {
    SplitFirst(s, total, j);
    SplitFirst(s, m, k);
    AppendAppend(FrameSeq(s, 1), k, n, j);
  }

  /** Reading `total` frames is reading the first, then `others` more. */
  lemma {:induction false} SplitFirst(s: seq<bv8>, total: nat, others: nat)
    requires others + 1 == total
    ensures FrameSeq(s, total) == Append(FrameSeq(s, 1), others)
  {
    FrameSeqStep(s, total);
    if Frame(s).Ok? {
      var head := Frame(s).value;
      FrameSeqOne(s, head.value, head.rest);
    } else {
      FrameSeqStep(s, 1);
    }
  }

  /** Reading k frames and then n more is reading j = k + n frames, once
      that holds from where `r` stopped. */
  lemma {:induction false} AppendAppend(r: Result<Parsed<seq<Value>>>, k: nat, n: nat, j: nat)
    requires j == k + n
    requires r.Ok? ==> FrameSeq(r.value.rest, j) == Append(FrameSeq(r.value.rest, k), n)
    ensures Append(r, j) == Append(Append(r, k), n)
  {
    if r.Ok? && FrameSeq(r.value.rest, k).Ok? {
      var mid := FrameSeq(r.value.rest, k).value;
      if FrameSeq(mid.rest, n).Ok? {
        var back := FrameSeq(mid.rest, n).value;
        assert r.value.value + (mid.value + back.value) == (r.value.value + mid.value) + back.value;
      }
    }
  }

  /** If any child fails to decode, so does the whole sequence. */
  lemma FrameSeqFailsOnChild(s: seq<bv8>, i: nat, n: nat)
    requires i < n
    requires FrameSeq(s, i).Ok? && Frame(FrameSeq(s, i).value.rest).Fail?
    ensures FrameSeq(s, n).Fail?
  {
    FrameSeqSplit(s, i, n - i);
    FrameSeqStep(FrameSeq(s, i).value.rest, n - i);
  }

  /** A client command as it arrives from redis-cli: ECHO hey, an array of
      two bulk strings, "*2\r\n$4\r\nECHO\r\n$3\r\nhey\r\n", followed
      by whatever the client sends next. */
  lemma EchoCommand(rest: seq<bv8>)
    ensures Frame(EchoBytes() + rest) == Ok(Parsed(EchoValue(), rest))
  {
    EchoLayout();
    ArrayRoundTrip(EchoValue().elems, rest);
  }

  function EchoBytes(): seq<bv8> {
    [0x2A, 0x32, 0x0D, 0x0A,
     0x24, 0x34, 0x0D, 0x0A, 0x45, 0x43, 0x48, 0x4F, 0x0D, 0x0A,
     0x24, 0x33, 0x0D, 0x0A, 0x68, 0x65, 0x79, 0x0D, 0x0A]
  }

  function EchoValue(): Value {
    Array([BulkString([0x45, 0x43, 0x48, 0x4F]), BulkString([0x68, 0x65, 0x79])])
  }

  /** The ECHO hey command is encodable, and these are its bytes. */
  lemma EchoLayout()
    ensures Encodable(EchoValue())
    ensures MarshalArray(EchoValue().elems) == EchoBytes()
  {
    EchoEncodable();
    EchoArguments();
    ArrayLayout(EchoValue().elems);
    assert FormatInt(2) == [0x32];
  }

  lemma EchoEncodable()
    ensures Encodable(EchoValue())
  {
    var elems := EchoValue().elems;
    assert Encodable(elems[0]) && Encodable(elems[1]);
  }

  /** The frames of the two bulk strings ECHO and hey. */
  lemma EchoArguments()
    ensures MarshalAll(EchoValue().elems) ==
      [0x24, 0x34, 0x0D, 0x0A, 0x45, 0x43, 0x48, 0x4F, 0x0D, 0x0A] +
      [0x24, 0x33, 0x0D, 0x0A, 0x68, 0x65, 0x79, 0x0D, 0x0A]
  {
    var echo := BulkString([0x45, 0x43, 0x48, 0x4F]);
    var hey := BulkString([0x68, 0x65, 0x79]);
    MarshalAllCons(echo, [hey]);
    MarshalAllCons(hey, []);
    assert [echo] + [hey] == EchoValue().elems;
    assert [hey] + [] == [hey];
    assert FormatInt(4) == [0x34];
    assert FormatInt(3) == [0x33];
  }
}
