/** What the decoder reads, as pure functions of the bytes still unread.
    Each function returns the decoded item and the input left after it,
    or `Fail` where the Go code returns an error. The methods of
    `Reader.Response` are proved to do exactly this. */
module Grammar {
  import opened Wire
  import opened Decimal
  import opened Values

  /** `t` holds no LF: ReadBytes('\n') would not stop inside it. */
  predicate NoLF(t: seq<bv8>) {
    forall i :: 0 <= i < |t| ==> t[i] != LF
  }

  /** `front` followed by the items `r` decodes, or the failure of `r`. */
  function Then(front: seq<Value>, r: Result<Parsed<seq<Value>>>): Result<Parsed<seq<Value>>> {
    match r
    case Fail => Fail
    case Ok(p) => Ok(Parsed(front + p.value, p.rest))
  }

  /** The index of the first LF, if there is one. */
  function FirstLF(s: seq<bv8>): (r: Option<nat>)
    ensures r.Some? ==> r.value < |s| && s[r.value] == LF
    ensures r.Some? ==> forall k :: 0 <= k < r.value ==> s[k] != LF
    ensures r.None? ==> NoLF(s)
  {
    if |s| == 0 then None
    else if s[0] == LF then Some(0)
    else match FirstLF(s[1..])
      case None => None
      case Some(k) => Some(k + 1)
  }

  /** The line handed back by ReadLine (app/resp.go:49-53): a final CR LF
      is removed, while an LF with no CR before it stays. The Go code reads
      line[len(line)-2] even when the line is the single byte LF, which
      panics; here such a line is kept as it is. */
  function StripTerminator(line: seq<bv8>): (r: seq<bv8>)
    requires 0 < |line| && line[|line| - 1] == LF
    ensures r <= line && (|r| == |line| || |r| + 2 == |line|)
  {
    if 2 <= |line| && line[|line| - 2] == CR then line[..|line| - 2] else line
  }

  /** The terminator is dropped exactly when the line ends in CR LF; a line
      ending in a lone LF keeps it. */
  lemma StripsExactlyCRLF(line: seq<bv8>)
    requires 0 < |line| && line[|line| - 1] == LF
    ensures StripTerminator(line) + CRLF == line <==> 2 <= |line| && line[|line| - 2] == CR
    ensures StripTerminator(line) == line <==> |line| < 2 || line[|line| - 2] != CR
  {
    if 2 <= |line| && line[|line| - 2] == CR {
      assert line == line[..|line| - 2] + CRLF;
    }
  }

  /** ReadLine (app/resp.go:44-54): everything up to and including the
      first LF is consumed; with no LF in the input the read fails. */
  function Line(s: seq<bv8>): (r: Result<Parsed<seq<bv8>>>)
    ensures r.Ok? ==> IsProperSuffix(r.value.rest, s)
  {
    match FirstLF(s)
    case None => Fail
    case Some(k) => Ok(Parsed(StripTerminator(s[..k + 1]), s[k + 1..]))
  }

  /** ReadInteger (app/resp.go:60-70): a line parsed by strconv.ParseInt. */
  function IntegerLine(s: seq<bv8>): (r: Result<Parsed<int>>)
    ensures r.Ok? ==> IsProperSuffix(r.value.rest, s) && InInt64(r.value.value)
  {
    match Line(s)
    case Fail => Fail
    case Ok(line) =>
      match ParseInt(line.value)
      case None => Fail
      case Some(n) => Ok(Parsed(n, line.rest))
  }

  /** Read (app/resp.go:72-104): the first byte is the tag, and the
      rest is read as the variant it names. */
  function Frame(s: seq<bv8>): (r: Result<Parsed<Value>>)
    ensures r.Ok? ==> IsProperSuffix(r.value.rest, s)
    decreases |s|, 0
  {
    if |s| == 0 then Fail
    else
      var r := Variant(s[0], s[1..]);
      if r.Ok? then SuffixTransitive(r.value.rest, s[1..], s); r else r
  }

  /** The switch of Read (app/resp.go:78-103): the tag selects the
      variant read from `body`. An unknown tag is a failure here; the Go
      code prints it and returns an empty Value{} with no error
      (app/resp.go:100-102). */
  function Variant(tag: bv8, body: seq<bv8>): (r: Result<Parsed<Value>>)
    ensures r.Ok? ==> IsProperSuffix(r.value.rest, body)
    decreases |body|, 3
  {
    if tag == SIMPLE_STRING then SimpleStringBody(body)
    else if tag == INTEGER then IntegerBody(body)
    else if tag == ERROR then ErrorBody(body)
    else if tag == BULK_STRING then BulkStringBody(body)
    else if tag == ARRAY then ArrayBody(body)
    else if tag == NULL then NullBody(body)
    else if tag == BOOLEAN then BooleanBody(body)
    else if tag == MAP then MapBody(body)
    else Fail
  }

  /** ReadSimpleString (app/resp.go:106-112). */
  function SimpleStringBody(s: seq<bv8>): (r: Result<Parsed<Value>>)
    ensures r.Ok? ==> IsProperSuffix(r.value.rest, s)
  {
    match Line(s)
    case Fail => Fail
    case Ok(line) => Ok(Parsed(SimpleString(line.value), line.rest))
  }

  /** The INTEGER case of Read (app/resp.go:81-86). */
  function IntegerBody(s: seq<bv8>): (r: Result<Parsed<Value>>)
    ensures r.Ok? ==> IsProperSuffix(r.value.rest, s)
  {
    match IntegerLine(s)
    case Fail => Fail
    case Ok(n) => Ok(Parsed(Integer(n.value), n.rest))
  }

  /** ReadError (app/resp.go:148-154): the text is data, not a failure. */
  function ErrorBody(s: seq<bv8>): (r: Result<Parsed<Value>>)
    ensures r.Ok? ==> IsProperSuffix(r.value.rest, s)
  {
    match Line(s)
    case Fail => Fail
    case Ok(line) => Ok(Parsed(Error(line.value), line.rest))
  }

  /** ReadBulkString (app/resp.go:114-126). Length -1 is the null bulk
      string. Otherwise exactly `length` payload bytes are taken, CR and LF
      included, and a CR LF must follow them; the Go code reads the payload
      with ReadLine (app/resp.go:121), which stops at the first LF inside
      it. A length below -1 fails. */
  function BulkStringBody(s: seq<bv8>): (r: Result<Parsed<Value>>)
    ensures r.Ok? ==> IsProperSuffix(r.value.rest, s)
  {
    match IntegerLine(s)
    case Fail => Fail
    case Ok(size) =>
      if size.value == -1 then Ok(Parsed(NullBulk, size.rest))
      else if size.value < 0 then Fail
      else match Payload(size.rest, size.value)
        case Fail => Fail
        case Ok(data) =>
          SuffixTransitive(data.rest, size.rest, s);
          Ok(Parsed(BulkString(data.value), data.rest))
  }

  /** Exactly `n` bytes, whatever they are, then CR LF. */
  function Payload(t: seq<bv8>, n: nat): (r: Result<Parsed<seq<bv8>>>)
    ensures r.Ok? ==> |r.value.value| == n && IsProperSuffix(r.value.rest, t)
    ensures r.Ok? ==> t == r.value.value + CRLF + r.value.rest
    ensures r.Fail? <==> |t| < n + 2 || t[n] != CR || t[n + 1] != LF
  {
    if |t| < n + 2 || t[n] != CR || t[n + 1] != LF then Fail
    else
      assert t == t[..n] + CRLF + t[n + 2..];
      Ok(Parsed(t[..n], t[n + 2..]))
  }

  /** ReadArray (app/resp.go:128-146): exactly `length` children, in wire
      order. The Go code starts from make([]Value, length) and appends, so
      `length` empty values would precede the children (app/resp.go:134,
      142); and a negative length panics in make, which is a failure here. */
  function ArrayBody(s: seq<bv8>): (r: Result<Parsed<Value>>)
    ensures r.Ok? ==> IsProperSuffix(r.value.rest, s)
    decreases |s|, 2
  {
    match IntegerLine(s)
    case Fail => Fail
    case Ok(length) =>
      if length.value < 0 then Fail
      else match FrameSeq(length.rest, length.value)
        case Fail => Fail
        case Ok(children) =>
          SuffixTransitive(children.rest, length.rest, s);
          Ok(Parsed(Array(children.value), children.rest))
  }

  /** The NULL case of Read (app/resp.go:93-94). The CR LF that
      marshalNull writes after the tag (app/resp.go:334) is consumed, and
      anything else on that line fails; the Go code consumes only the tag
      byte. */
  function NullBody(s: seq<bv8>): (r: Result<Parsed<Value>>)
    ensures r.Ok? ==> IsProperSuffix(r.value.rest, s)
  {
    match Line(s)
    case Fail => Fail
    case Ok(line) => if line.value == [] then Ok(Parsed(Null, line.rest)) else Fail
  }

  /** ReadBoolean (app/resp.go:156-166): the line "t" is true and every
      other line is false. */
  function BooleanBody(s: seq<bv8>): (r: Result<Parsed<Value>>)
    ensures r.Ok? ==> IsProperSuffix(r.value.rest, s)
  {
    match Line(s)
    case Fail => Fail
    case Ok(line) => Ok(Parsed(Boolean(line.value == [TRUE_LETTER]), line.rest))
  }

  /** ReadMap (app/resp.go:168-185): `length` counts key/value pairs, so
      2 * length children follow, in wire order and with repeated keys
      kept. The Go code reads only `length` children, after `length` empty
      values (app/resp.go:174-182). */
  function MapBody(s: seq<bv8>): (r: Result<Parsed<Value>>)
    ensures r.Ok? ==> IsProperSuffix(r.value.rest, s)
    decreases |s|, 2
  {
    match IntegerLine(s)
    case Fail => Fail
    case Ok(length) =>
      if length.value < 0 then Fail
      else match FrameSeq(length.rest, 2 * length.value)
        case Fail => Fail
        case Ok(children) =>
          SuffixTransitive(children.rest, length.rest, s);
          Ok(Parsed(Map(children.value), children.rest))
  }

  /** `n` frames one after another (the loops of app/resp.go:135-143 and
      175-183); the first failing child fails the whole sequence. */
  function FrameSeq(s: seq<bv8>, n: nat): (r: Result<Parsed<seq<Value>>>)
    ensures r.Ok? ==> |r.value.value| == n && IsSuffix(r.value.rest, s)
    decreases |s|, 1, n
  {
    if n == 0 then Ok(Parsed([], s))
    else match Frame(s)
      case Fail => Fail
      case Ok(head) =>
        match FrameSeq(head.rest, n - 1)
        case Fail => Fail
        case Ok(tail) =>
          SuffixTransitive(tail.rest, head.rest, s);
          Ok(Parsed([head.value] + tail.value, tail.rest))
  }
}
