/** The code of app/resp.go as written, where it departs from the framing
    its own encoder and the RESP protocol call for. Each definition here
    models one spot literally, next to a lemma that exhibits an input on
    which it goes wrong; the rest of the model uses the corrected
    definitions of `Grammar` and `Encoder`. */
module AsWritten {
  import opened Wire
  import opened Decimal
  import opened Values
  import opened Encoder
  import opened Grammar
  import opened RoundTrip

  /** marshalMap as written (app/resp.go:338-352), with line 347 read
      literally: the loop body declares a new `bytes`, so no child reaches
      the result, and a second CR LF is appended (app/resp.go:350). Only
      the header and that CR LF remain, whatever the children are. Go
      refuses line 347 as it stands (a variable declared and not used); read
      with `=` in place of `:=`, the children are written and the stray
      CR LF of line 350 is the only defect left. */
  function MarshalMapAsWritten(elems: seq<Value>): (r: seq<bv8>)
    ensures |r| == |FormatInt(|elems| / 2)| + 5 && EndsWithCRLF(r)
  {
    [MAP] + FormatInt(|elems| / 2) + CRLF + CRLF
  }

  /** No map with a pair in it survives the as-written encoder: the header
      promises children and a bare CR LF follows, which is no frame. */
  lemma {:induction false} MapAsWrittenDoesNotDecode(elems: seq<Value>, rest: seq<bv8>)
    requires 2 <= |elems| && |elems| / 2 <= MAX_INT64
    ensures Frame(MarshalMapAsWritten(elems) + rest).Fail?
  {
    var k := |elems| / 2;
    assert MarshalMapAsWritten(elems) + rest == [MAP] + FormatInt(k) + CRLF + (CRLF + rest);
    MapChildren(k, CRLF + rest);
    UnknownTagFails(CRLF + rest);
    FrameSeqStep(CRLF + rest, 2 * k);
  }

  /** marshalBulkString as written (app/resp.go:292-303): the declared
      length is len(v.str) (app/resp.go:293), while the payload written is
      v.bulk. The header announces |str| whatever the payload is. */
  function MarshalBulkStringAsWritten(str: seq<bv8>, bulk: seq<bv8>): (r: seq<bv8>)
    ensures 0 < |r|
    ensures |str| <= MAX_INT64 ==> IntegerLine(r[1..]) == Ok(Parsed(|str|, bulk + CRLF))
  {
    var r := [BULK_STRING] + FormatInt(|str|) + CRLF + bulk + CRLF;
    assert r[1..] == FormatInt(|str|) + CRLF + (bulk + CRLF);
    if |str| <= MAX_INT64 then IntegerLineRoundTrip(|str|, bulk + CRLF); r else r
  }

  /** A bulk string built by the decoder has an empty `str`
      (app/resp.go:125), so the as-written encoder announces length 0, and
      a reader that honours the declared length, such as `Frame` or any
      RESP client, cannot return the payload. */
  lemma {:induction false} BulkAsWrittenLosesPayload(bulk: seq<bv8>, rest: seq<bv8>)
    requires 0 < |bulk|
    ensures Frame(MarshalBulkStringAsWritten([], bulk) + rest) != Ok(Parsed(BulkString(bulk), rest))
  {
    var t := bulk + CRLF + rest;
    assert MarshalBulkStringAsWritten([], bulk) + rest == [BULK_STRING] + (FormatInt(0) + CRLF + t);
    AfterTag(BULK_STRING, FormatInt(0) + CRLF + t);
    IntegerLineRoundTrip(0, t);
  }

  /** ReadBulkString as written (app/resp.go:114-126): after the size line
      the payload is read with ReadLine (app/resp.go:121), so it ends at the
      first LF and the declared size is not used. */
  function BulkStringBodyAsWritten(s: seq<bv8>): (r: Result<Parsed<Value>>)
    ensures r.Ok? ==> IsProperSuffix(r.value.rest, s)
  {
    match IntegerLine(s)
    case Fail => Fail
    case Ok(size) =>
      if size.value == -1 then Ok(Parsed(NullBulk, size.rest))
      else match Line(size.rest)
        case Fail => Fail
        case Ok(data) =>
          SuffixTransitive(data.rest, size.rest, s);
          Ok(Parsed(BulkString(data.value), data.rest))
  }

  /** The as-written reader ignores the declared length (app/resp.go:121),
      so it reads the as-written encoding of a payload without LF back
      whole: the two defects of lines 121 and 293 cancel on such payloads. */
  lemma {:induction false} BulkAsWrittenReadsBack(bulk: seq<bv8>, rest: seq<bv8>)
    requires NoLF(bulk)
    ensures MarshalBulkStringAsWritten([], bulk)[1..] + rest == FormatInt(0) + CRLF + (bulk + CRLF + rest)
    ensures BulkStringBodyAsWritten(FormatInt(0) + CRLF + (bulk + CRLF + rest)) == Ok(Parsed(BulkString(bulk), rest))
  {
    var header := [BULK_STRING] + FormatInt(0) + CRLF;
    assert MarshalBulkStringAsWritten([], bulk) == header + (bulk + CRLF);
    AfterTag4(BULK_STRING, FormatInt(0), CRLF, bulk + CRLF, rest);
    IntegerLineRoundTrip(0, bulk + CRLF + rest);
    LineRoundTrip(bulk, rest);
  }

  /** A payload holding CR LF is cut there by the as-written reader, and
      the remainder is left to be misread as the next frame; the corrected
      reader returns the whole payload. */
  lemma {:induction false} BulkAsWrittenStopsAtLF(a: seq<bv8>, b: seq<bv8>, rest: seq<bv8>)
    requires NoLF(a) && |a| + 2 + |b| <= MAX_INT64
    ensures var payload := a + CRLF + b;
            var body := FormatInt(|payload|) + CRLF + (payload + CRLF + rest);
            BulkStringBodyAsWritten(body) == Ok(Parsed(BulkString(a), b + CRLF + rest)) &&
            BulkStringBody(body) == Ok(Parsed(BulkString(payload), rest))
  {
    var payload := a + CRLF + b;
    CutAtLF(a, b, rest);
    BulkPayload(payload, rest);
  }

  lemma CutAtLF(a: seq<bv8>, b: seq<bv8>, rest: seq<bv8>)
    requires NoLF(a) && |a| + 2 + |b| <= MAX_INT64
    ensures var payload := a + CRLF + b;
            BulkStringBodyAsWritten(FormatInt(|payload|) + CRLF + (payload + CRLF + rest)) ==
            Ok(Parsed(BulkString(a), b + CRLF + rest))
  {
    var payload := a + CRLF + b;
    var t := payload + CRLF + rest;
    IntegerLineRoundTrip(|payload|, t);
    PayloadRegroup(a, b, rest);
    LineRoundTrip(a, b + CRLF + rest);
  }

  lemma PayloadRegroup(a: seq<bv8>, b: seq<bv8>, rest: seq<bv8>)
    ensures a + CRLF + b + CRLF + rest == a + CRLF + (b + CRLF + rest)
  {
  }

  /** The CR LF stripping of ReadLine as written (app/resp.go:49-53).
      `None` stands for the run-time panic of reading line[len(line)-2]
      when the line is the single byte LF. */
  function StripTerminatorAsWritten(line: seq<bv8>): (r: Option<seq<bv8>>)
    requires 0 < |line| && line[|line| - 1] == LF
    ensures r.None? <==> line == [LF]
    ensures r.Some? ==> r.value == StripTerminator(line)
  {
    if |line| < 2 then None
    else if line[|line| - 2] == CR then Some(line[..|line| - 2])
    else Some(line)
  }

  /** The NULL case of Read as written (app/resp.go:93-94): nothing after
      the tag byte is consumed, so the read stops right before the CR LF
      that the corrected reader takes. */
  function NullBodyAsWritten(s: seq<bv8>): (r: Result<Parsed<Value>>)
    ensures r.Ok? && r.value.value == Null
    ensures NullBody(s).Ok? ==> r.value.rest == CRLF + NullBody(s).value.rest
  {
    NullBodyTakesCRLF(s);
    Ok(Parsed(Null, s))
  }

  /** What the corrected null reader accepts after the tag is a bare
      CR LF and nothing else. */
  lemma {:induction false} NullBodyTakesCRLF(s: seq<bv8>)
    ensures NullBody(s).Ok? ==> s == CRLF + NullBody(s).value.rest
  {
    match FirstLF(s)
    case None =>
    case Some(k) =>
      var line := s[..k + 1];
      if StripTerminator(line) == [] {
        StripsExactlyCRLF(line);
        assert line == CRLF;
        assert s == line + s[k + 1..];
      }
  }

  /** After the as-written read of what marshalNull writes, the CR LF it
      leaves behind is where the next frame would start, and it begins no
      frame (in Go the default branch of Read, app/resp.go:100-102, turns
      the CR and then the LF into empty values); the corrected reader goes
      on to decode the next value. */
  lemma {:induction false} NullAsWrittenStrandsTerminator(v: Value, rest: seq<bv8>)
    requires Encodable(v)
    ensures var s := MarshalNull() + Marshal(v) + rest;
            Frame(NullBodyAsWritten(s[1..]).value.rest).Fail? &&
            Frame(s) == Ok(Parsed(Null, Marshal(v) + rest)) &&
            Frame(Marshal(v) + rest) == Ok(Parsed(v, rest))
  {
    var s := MarshalNull() + Marshal(v) + rest;
    assert s[1..] == CRLF + (Marshal(v) + rest);
    UnknownTagFails(s[1..]);
    assert s == MarshalNull() + (Marshal(v) + rest);
    NullRoundTrip(Marshal(v) + rest);
    RoundTrip.RoundTrip(v, rest);
  }

  /** The children of ReadArray and ReadMap as written
      (app/resp.go:134-142, 174-182): make([]Value, length) already holds
      `length` empty values, and append puts the children after them.
      `None` stands for the empty Value{}. */
  function ChildrenAsWritten(length: nat, children: seq<Value>): (arr: seq<Option<Value>>)
    ensures |arr| == length + |children|
    ensures forall i :: 0 <= i < length ==> arr[i].None?
    ensures forall i :: 0 <= i < |children| ==> arr[length + i] == Some(children[i])
  {
    seq(length, _ => None) + seq(|children|, i requires 0 <= i < |children| => Some(children[i]))
  }

  /** ReadArray as written, with the empty values in front. */
  function ArrayBodyAsWritten(s: seq<bv8>): (r: Result<Parsed<seq<Option<Value>>>>)
    ensures r.Ok? ==> IsProperSuffix(r.value.rest, s)
  {
    match IntegerLine(s)
    case Fail => Fail
    case Ok(length) =>
      if length.value < 0 then Fail
      else match FrameSeq(length.rest, length.value)
        case Fail => Fail
        case Ok(children) =>
          SuffixTransitive(children.rest, length.rest, s);
          Ok(Parsed(ChildrenAsWritten(length.value, children.value), children.rest))
  }

  /** An array of n encodable values comes back from the as-written reader
      with 2 * n entries, the first n of them empty. */
  lemma {:induction false} ArrayAsWrittenDoublesLength(elems: seq<Value>, rest: seq<bv8>)
    requires Encodable(Array(elems))
    ensures var r := ArrayBodyAsWritten(MarshalArray(elems)[1..] + rest);
            r.Ok? && |r.value.value| == 2 * |elems| && r.value.rest == rest &&
            (0 < |elems| ==> r.value.value[0].None?)
  {
    var body := MarshalAll(elems) + rest;
    ArrayLayout(elems);
    AfterTag4(ARRAY, FormatInt(|elems|), CRLF, MarshalAll(elems), rest);
    RoundTripAll(elems, rest);
    CountedChildren(body, |elems|, elems, rest);
  }

  /** The as-written array reader puts the children it reads after as many
      empty values. */
  lemma {:induction false} CountedChildren(t: seq<bv8>, n: nat, children: seq<Value>, after: seq<bv8>)
    requires n <= MAX_INT64 && FrameSeq(t, n) == Ok(Parsed(children, after))
    ensures ArrayBodyAsWritten(FormatInt(n) + CRLF + t) == Ok(Parsed(ChildrenAsWritten(n, children), after))
  {
    IntegerLineRoundTrip(n, t);
  }

  /** ReadMap as written, its empty values aside: it reads `length`
      children (app/resp.go:175), while `length` counts pairs, which is how
      marshalMap writes it (app/resp.go:339). */
  function MapBodyAsWritten(s: seq<bv8>): (r: Result<Parsed<Value>>)
    ensures r.Ok? ==> IsProperSuffix(r.value.rest, s)
  {
    match IntegerLine(s)
    case Fail => Fail
    case Ok(length) =>
      if length.value < 0 then Fail
      else match FrameSeq(length.rest, length.value)
        case Fail => Fail
        case Ok(children) =>
          SuffixTransitive(children.rest, length.rest, s);
          Ok(Parsed(Map(children.value), children.rest))
  }

  /** A one-pair map read as written yields, its empty values aside, only
      its key and leaves the value's frame unread; the corrected reader
      yields the pair. */
  lemma {:induction false} MapAsWrittenReadsHalf(key: Value, val: Value, rest: seq<bv8>)
    requires Encodable(key) && Encodable(val)
    ensures var body := MarshalMap([key, val])[1..] + rest;
            MapBodyAsWritten(body) == Ok(Parsed(Map([key]), Marshal(val) + rest)) &&
            MapBody(body) == Ok(Parsed(Map([key, val]), rest))
  {
    var all := MarshalAll([key, val]);
    var body := MarshalMap([key, val])[1..] + rest;
    PairFrames(key, val);
    PairLayout(key, val);
    assert body == FormatInt(1) + CRLF + (all + rest);
    assert all + rest == Marshal(key) + (Marshal(val) + rest);
    KeyOnly(key, Marshal(val) + rest);
    BothChildren(key, val, rest);
  }

  /** The frames of a pair are the key's frame, then the value's. */
  lemma {:induction false} PairFrames(key: Value, val: Value)
    ensures MarshalAll([key, val]) == Marshal(key) + Marshal(val)
  {
    MarshalAllCons(key, [val]);
    MarshalAllCons(val, []);
    assert [key] + [val] == [key, val];
    assert [val] + [] == [val];
  }

  /** The bytes after the tag of a one-pair map. */
  lemma {:induction false} PairLayout(key: Value, val: Value)
    ensures MarshalMap([key, val])[1..] == FormatInt(1) + CRLF + MarshalAll([key, val])
  {
    var pair := [key, val];
    AfterMapTag(pair);
    assert |pair| / 2 == 1;
  }

  /** The bytes after the tag of a map with whole pairs. */
  lemma {:induction false} AfterMapTag(elems: seq<Value>)
    requires |elems| % 2 == 0
    ensures MarshalMap(elems)[1..] == FormatInt(|elems| / 2) + CRLF + MarshalAll(elems)
  {
    var header, body := FormatInt(|elems| / 2), MarshalAll(elems);
    MapLayout(elems);
    AfterTag4(MAP, header, CRLF, body, []);
    assert body + [] == body;
    assert MarshalMap(elems)[1..] + [] == MarshalMap(elems)[1..];
  }

  /** The as-written map reader on a count of one reads the key only. */
  lemma {:induction false} KeyOnly(key: Value, after: seq<bv8>)
    requires Encodable(key)
    ensures MapBodyAsWritten(FormatInt(1) + CRLF + (Marshal(key) + after)) == Ok(Parsed(Map([key]), after))
  {
    RoundTrip.RoundTrip(key, after);
    FrameSeqOne(Marshal(key) + after, key, after);
    OneChild(Marshal(key) + after, [key], after);
  }

  /** A count of one, as written, reads one frame. */
  lemma {:induction false} OneChild(t: seq<bv8>, children: seq<Value>, after: seq<bv8>)
    requires FrameSeq(t, 1) == Ok(Parsed(children, after))
    ensures MapBodyAsWritten(FormatInt(1) + CRLF + t) == Ok(Parsed(Map(children), after))
  {
    IntegerLineRoundTrip(1, t);
  }

  /** The corrected map reader on a count of one reads key and value. */
  lemma {:induction false} BothChildren(key: Value, val: Value, rest: seq<bv8>)
    requires Encodable(key) && Encodable(val)
    ensures MapBody(FormatInt(1) + CRLF + (MarshalAll([key, val]) + rest)) == Ok(Parsed(Map([key, val]), rest))
  {
    IntegerLineRoundTrip(1, MarshalAll([key, val]) + rest);
    RoundTripAll([key, val], rest);
  }
}
