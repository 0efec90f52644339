/** `Value.Marshal` and its helpers (app/resp.go:250-361): a pure walk of
    the value tree that returns fresh wire bytes.

    Where the Go code does not compile or evidently misbehaves, this module
    writes what the RESP framing calls for; each spot says how it departs. */
module Encoder {
  import opened Wire
  import opened Decimal
  import opened Values

  /** Marshal (app/resp.go:250-271). Every frame starts with its tag byte
      and ends with CR LF. */
  function Marshal(v: Value): (r: seq<bv8>)
    ensures 3 <= |r| && r[0] == Tag(v) && EndsWithCRLF(r)
    decreases v, 1
  {
    match v
    case SimpleString(str) => MarshalSimpleString(str)
    case Error(str) =>
      // The Go "error" case has no return statement (app/resp.go:256-257);
      // the helper that exists for it, marshallError, is used here.
      MarshalError(str)
    case Integer(num) => MarshalInteger(num)
    case BulkString(bulk) => MarshalBulkString(bulk)
    case NullBulk =>
      // The Go decoder returns an untyped Value{} for a null bulk string
      // and Marshal has no case for it (app/resp.go:268-269 does not
      // compile); it is written back as the RESP2 null bulk string.
      MarshalNullBulk()
    case Array(elems) => MarshalArray(elems)
    case Null => MarshalNull()
    case Boolean(truth) => MarshalBoolean(truth)
    case Map(elems) => MarshalMap(elems)
  }

  /** The children's frames, concatenated in order (the loops at
      app/resp.go:313-315 and 346-348). */
  function MarshalAll(vs: seq<Value>): (r: seq<bv8>)
    ensures 0 < |vs| ==> 3 <= |r| && EndsWithCRLF(r)
    decreases vs, 0
  {
    if |vs| == 0 then []
    else
      var tail := MarshalAll(vs[1..]);
      var head := Marshal(vs[0]);
      if |tail| > 0 then CRLFLast(head, tail); head + tail else head + tail
  }

  /** marshalSimpleString (app/resp.go:274-281); the undefined STRING of
      app/resp.go:276 is the SIMPLE_STRING tag. */
  function MarshalSimpleString(str: seq<bv8>): (r: seq<bv8>)
    ensures 3 <= |r| && r[0] == SIMPLE_STRING && EndsWithCRLF(r)
  {
    [SIMPLE_STRING] + str + CRLF
  }

  /** marshallError (app/resp.go:354-361). */
  function MarshalError(str: seq<bv8>): (r: seq<bv8>)
    ensures 3 <= |r| && r[0] == ERROR && EndsWithCRLF(r)
  {
    [ERROR] + str + CRLF
  }

  /** marshalInteger (app/resp.go:283-290). The Go code appends the int
      itself to the byte slice (app/resp.go:286), which does not compile;
      the number is written in decimal, as strconv.Itoa does. */
  function MarshalInteger(num: int): (r: seq<bv8>)
    ensures 3 <= |r| && r[0] == INTEGER && EndsWithCRLF(r)
  {
    [INTEGER] + FormatInt(num) + CRLF
  }

  /** marshalBulkString (app/resp.go:292-303). The declared length is that
      of the payload written; the Go code measures v.str instead of v.bulk
      (app/resp.go:293). */
  function MarshalBulkString(bulk: seq<bv8>): (r: seq<bv8>)
    ensures 3 <= |r| && r[0] == BULK_STRING && EndsWithCRLF(r)
  {
    [BULK_STRING] + FormatInt(|bulk|) + CRLF + bulk + CRLF
  }

  /** The null bulk string, `$-1` CR LF. */
  function MarshalNullBulk(): (r: seq<bv8>)
    ensures 3 <= |r| && r[0] == BULK_STRING && EndsWithCRLF(r)
  {
    [BULK_STRING] + FormatInt(-1) + CRLF
  }

  /** marshalArray (app/resp.go:305-318). */
  function MarshalArray(elems: seq<Value>): (r: seq<bv8>)
    ensures 3 <= |r| && r[0] == ARRAY && EndsWithCRLF(r)
    decreases elems, 2
  {
    var header := [ARRAY] + FormatInt(|elems|) + CRLF;
    var body := MarshalAll(elems);
    if |body| > 0 then CRLFLast(header, body); header + body else header + body
  }

  /** marshalBoolean (app/resp.go:320-331); the nonexistent field
      v.boolean of app/resp.go:323 is the struct's `truth`. */
  function MarshalBoolean(truth: bool): (r: seq<bv8>)
    ensures 3 <= |r| && r[0] == BOOLEAN && EndsWithCRLF(r)
  {
    [BOOLEAN] + [if truth then TRUE_LETTER else FALSE_LETTER] + CRLF
  }

  /** marshalNull (app/resp.go:333-336). */
  function MarshalNull(): (r: seq<bv8>)
    ensures 3 <= |r| && r[0] == NULL && EndsWithCRLF(r)
  {
    [NULL] + CRLF
  }

  /** marshalMap (app/resp.go:338-352): the pair count, then the first
      2 * (len / 2) children. In the Go code the loop body declares a new
      `bytes` (app/resp.go:347), so the children never reach the result,
      and a stray CR LF follows (app/resp.go:350); here the children are
      appended and nothing follows them. */
  function MarshalMap(elems: seq<Value>): (r: seq<bv8>)
    ensures 3 <= |r| && r[0] == MAP && EndsWithCRLF(r)
    decreases elems, 2
  {
    var children := if |elems| % 2 == 0 then elems else elems[..|elems| - 1];
    var header := [MAP] + FormatInt(|elems| / 2) + CRLF;
    var body := MarshalAll(children);
    if |body| > 0 then CRLFLast(header, body); header + body else header + body
  }

  /** Appending a frame keeps "ends with CR LF". */
  lemma CRLFLast(front: seq<bv8>, back: seq<bv8>)
    requires EndsWithCRLF(back)
    ensures EndsWithCRLF(front + back)
  {
    var all := front + back;
    assert all[|all| - 1] == back[|back| - 1] && all[|all| - 2] == back[|back| - 2];
  }

  /** The frames of a sequence are the first frame, then the others. */
  lemma MarshalAllCons(v: Value, vs: seq<Value>)
    ensures MarshalAll([v] + vs) == Marshal(v) + MarshalAll(vs)
  {
    assert ([v] + vs)[0] == v;
    assert ([v] + vs)[1..] == vs;
  }

  /** An array's frame: the count line, then the children's frames. */
  lemma ArrayLayout(elems: seq<Value>)
    ensures MarshalArray(elems) == [ARRAY] + FormatInt(|elems|) + CRLF + MarshalAll(elems)
  {
  }

  /** A map's frame, for an even number of children: the pair-count line,
      then the children's frames. */
  lemma MapLayout(elems: seq<Value>)
    requires |elems| % 2 == 0
    ensures MarshalMap(elems) == [MAP] + FormatInt(|elems| / 2) + CRLF + MarshalAll(elems)
  {
  }
}

