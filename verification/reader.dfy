/** The decoder as the Go code runs it: a Response whose reader advances
    through the input with every ReadByte and ReadLine (app/resp.go:35-185).
    The bufio.Reader over an io.Reader becomes the whole input as a byte
    sequence plus a cursor `pos`; each method is proved to return what the
    matching function of `Grammar` decodes from the unread bytes, and to
    leave the cursor just after what that function consumed. */
module Reader {
  import opened Wire
  import opened Decimal
  import opened Values
  import opened Grammar

  /** Without an LF from `from` on, no line can be read there. */
  lemma LineNeedsLF(input: seq<bv8>, from: nat)
    requires from <= |input|
    requires forall k :: from <= k < |input| ==> input[k] != LF
    ensures Line(input[from..]) == Fail
  {
    var s := input[from..];
    assert forall k :: 0 <= k < |s| ==> s[k] == input[from + k];
  }

  /** A line read from `from` ends at the first LF after it. */
  lemma LineEndsAt(input: seq<bv8>, from: nat, lf: nat)
    requires from <= lf < |input| && input[lf] == LF
    requires forall k :: from <= k < lf ==> input[k] != LF
    ensures Line(input[from..]) == Ok(Parsed(StripTerminator(input[from..lf + 1]), input[lf + 1..]))
  {
    var s := input[from..];
    assert s[lf - from] == LF;
    assert forall k :: 0 <= k < lf - from ==> s[k] == input[from + k];
    assert FirstLF(s) == Some(lf - from);
    assert s[..lf - from + 1] == input[from..lf + 1];
    assert s[lf - from + 1..] == input[lf + 1..];
  }

  lemma ThenThen(front: seq<Value>, x: Value, r: Result<Parsed<seq<Value>>>)
    ensures Then(front, Then([x], r)) == Then(front + [x], r)
  {
    if r.Ok? {
      assert front + ([x] + r.value.value) == front + [x] + r.value.value;
    }
  }

  lemma ThenEmpty(r: Result<Parsed<seq<Value>>>)
    ensures Then([], r) == r
  {
    if r.Ok? {
      assert [] + r.value.value == r.value.value;
    }
  }

  class Response {
    /** Every byte the underlying io.Reader will deliver, in order. */
    const input: seq<bv8>
    /** How many of those bytes have been consumed. */
    var pos: nat

    ghost predicate Valid()
      reads this
    {
      pos <= |input|
    }

    /** The bytes not consumed yet. */
    ghost function Unread(): seq<bv8>
      reads this
      requires Valid()
    {
      input[pos..]
    }

    /** A call returned what `spec` decodes and stopped where `spec` stops.
        After a failure the cursor is not pinned down: the caller must give
        up on the connection. */
    ghost predicate Delivered<T>(r: Result<T>, spec: Result<Parsed<T>>)
      reads this
      requires Valid()
    {
      match spec
      case Fail => r.Fail?
      case Ok(p) => r == Ok(p.value) && Unread() == p.rest
    }

    /** NewResponse (app/resp.go:39-42). */
    constructor (stream: seq<bv8>)
      ensures Valid() && input == stream && pos == 0
    {
      input := stream;
      pos := 0;
    }

    /** ReadByte (app/resp.go:56-58): one byte, or io.EOF at the end. */
    method ReadByte() returns (r: Result<bv8>)
      requires Valid()
      modifies this
      ensures Valid()
      ensures old(pos) < |input| ==> r == Ok(input[old(pos)]) && pos == old(pos) + 1
      ensures old(pos) == |input| ==> r == Fail && pos == old(pos)
    {
      if pos == |input| {
        return Fail;
      }
      r := Ok(input[pos]);
      pos := pos + 1;
    }

    /** ReadLine (app/resp.go:44-54). bufio's ReadBytes('\n') scans up to
        the first LF; without one it consumes everything and fails. */
    method ReadLine() returns (r: Result<seq<bv8>>)
      requires Valid()
      modifies this
      ensures Valid() && old(pos) <= pos
      ensures Delivered(r, Line(old(Unread())))
      ensures r.Fail? ==> pos == |input|
    {
      var i := pos;
      while i < |input| && input[i] != LF
        invariant pos <= i <= |input|
        invariant forall k :: pos <= k < i ==> input[k] != LF
        decreases |input| - i
      {
        i := i + 1;
      }
      if i == |input| {
        LineNeedsLF(input, pos);
        pos := |input|;
        return Fail;
      }
      var line := input[pos..i + 1];
      LineEndsAt(input, pos, i);
      pos := i + 1;
      // The Go code reads line[len(line)-2] without checking that the line
      // has two bytes (app/resp.go:49); a lone LF is returned as it is.
      if 2 <= |line| && line[|line| - 2] == CR {
        r := Ok(line[..|line| - 2]);
      } else {
        r := Ok(line);
      }
      assert r == Ok(StripTerminator(line));
    }

    /** ReadInteger (app/resp.go:60-70). */
    method ReadInteger() returns (r: Result<int>)
      requires Valid()
      modifies this
      ensures Valid() && old(pos) <= pos
      ensures Delivered(r, IntegerLine(old(Unread())))
    {
      var line := ReadLine();
      if line.Fail? {
        return Fail;
      }
      var parsed := ParseInt(line.value);
      if parsed.None? {
        return Fail;
      }
      r := Ok(parsed.value);
    }

    /** Read (app/resp.go:72-104): one tag byte, then the frame it selects.
        An unknown tag fails; the Go code returns an empty Value{} and no
        error (app/resp.go:100-102). */
    method Read() returns (r: Result<Value>)
      requires Valid()
      modifies this
      ensures Valid() && old(pos) <= pos
      ensures Delivered(r, Frame(old(Unread())))
      decreases |input| - pos, 0
    {
      ghost var s := Unread();
      var tag := ReadByte();
      if tag.Fail? {
        return Fail;
      }
      assert Unread() == s[1..];
      var t := tag.value;
      if t == SIMPLE_STRING {
        r := ReadSimpleString();
      } else if t == INTEGER {
        var x := ReadInteger();
        r := if x.Ok? then Ok(Integer(x.value)) else Fail;
      } else if t == ERROR {
        r := ReadError();
      } else if t == BULK_STRING {
        r := ReadBulkString();
      } else if t == ARRAY {
        r := ReadArray();
      } else if t == NULL {
        // The Go code consumes the tag byte only (app/resp.go:93-94),
        // leaving the CR LF that marshalNull writes; that empty line is
        // read here, and any other line fails.
        var line := ReadLine();
        r := if line.Ok? && line.value == [] then Ok(Null) else Fail;
      } else if t == BOOLEAN {
        r := ReadBoolean();
      } else if t == MAP {
        r := ReadMap();
      } else {
        r := Fail;
      }
    }

    /** ReadSimpleString (app/resp.go:106-112). */
    method ReadSimpleString() returns (r: Result<Value>)
      requires Valid()
      modifies this
      ensures Valid() && old(pos) <= pos
      ensures Delivered(r, SimpleStringBody(old(Unread())))
    {
      var line := ReadLine();
      r := if line.Ok? then Ok(SimpleString(line.value)) else Fail;
    }

    /** ReadBulkString (app/resp.go:114-126). Exactly `size` payload bytes
        are taken and must be followed by CR LF; the Go code reads the
        payload with ReadLine (app/resp.go:121). A size below -1 fails. */
    method ReadBulkString() returns (r: Result<Value>)
      requires Valid()
      modifies this
      ensures Valid() && old(pos) <= pos
      ensures Delivered(r, BulkStringBody(old(Unread())))
    {
      var size := ReadInteger();
      if size.Fail? {
        return Fail;
      }
      if size.value == -1 {
        return Ok(NullBulk);
      }
      if size.value < 0 {
        return Fail;
      }
      var data := ReadPayload(size.value);
      r := if data.Ok? then Ok(BulkString(data.value)) else Fail;
    }

    /** The `n` payload bytes of a bulk string and the CR LF after them. */
    method ReadPayload(n: nat) returns (r: Result<seq<bv8>>)
      requires Valid()
      modifies this
      ensures Valid() && old(pos) <= pos
      ensures Delivered(r, Payload(old(Unread()), n))
    {
      if |input| - pos < n + 2 || input[pos + n] != CR || input[pos + n + 1] != LF {
        return Fail;
      }
      ghost var t := Unread();
      assert input[pos..pos + n] == t[..n];
      r := Ok(input[pos..pos + n]);
      pos := pos + n + 2;
      assert Unread() == t[n + 2..];
    }

    /** ReadArray (app/resp.go:128-146): `length` children read in order
        by Read; the first failing child fails the array. The Go code
        appends to make([]Value, length), which would put `length` empty
        values before the children (app/resp.go:134, 142); the children
        alone are kept here. A negative length, on which make panics, fails. */
    method ReadArray() returns (r: Result<Value>)
      requires Valid()
      modifies this
      ensures Valid() && old(pos) <= pos
      ensures Delivered(r, ArrayBody(old(Unread())))
      decreases |input| - pos, 2
    {
      var length := ReadInteger();
      if length.Fail? || length.value < 0 {
        return Fail;
      }
      var children := ReadChildren(length.value);
      r := if children.Ok? then Ok(Array(children.value)) else Fail;
    }

    /** ReadError (app/resp.go:148-154): the text is data, not a failure. */
    method ReadError() returns (r: Result<Value>)
      requires Valid()
      modifies this
      ensures Valid() && old(pos) <= pos
      ensures Delivered(r, ErrorBody(old(Unread())))
    {
      var line := ReadLine();
      r := if line.Ok? then Ok(Error(line.value)) else Fail;
    }

    /** ReadBoolean (app/resp.go:156-166): "t" is true, any other line false. */
    method ReadBoolean() returns (r: Result<Value>)
      requires Valid()
      modifies this
      ensures Valid() && old(pos) <= pos
      ensures Delivered(r, BooleanBody(old(Unread())))
    {
      var line := ReadLine();
      if line.Fail? {
        return Fail;
      }
      if line.value == [TRUE_LETTER] {
        r := Ok(Boolean(true));
      } else {
        r := Ok(Boolean(false));
      }
    }

    /** ReadMap (app/resp.go:168-185): `length` is the number of key/value
        pairs, so 2 * length children are read, in order, repeated keys
        kept. The Go code reads `length` children after `length` empty
        values (app/resp.go:174-182). */
    method ReadMap() returns (r: Result<Value>)
      requires Valid()
      modifies this
      ensures Valid() && old(pos) <= pos
      ensures Delivered(r, MapBody(old(Unread())))
      decreases |input| - pos, 2
    {
      var length := ReadInteger();
      if length.Fail? || length.value < 0 {
        return Fail;
      }
      var children := ReadChildren(2 * length.value);
      r := if children.Ok? then Ok(Map(children.value)) else Fail;
    }

    /** The loop shared by ReadArray and ReadMap (app/resp.go:135-143,
        175-183): `n` calls of Read, results appended in order. */
    method ReadChildren(n: nat) returns (r: Result<seq<Value>>)
      requires Valid()
      modifies this
      ensures Valid() && old(pos) <= pos
      ensures Delivered(r, FrameSeq(old(Unread()), n))
      decreases |input| - pos, 1, n
    {
      ghost var start := Unread();
      var arr: seq<Value> := [];
      ThenEmpty(FrameSeq(start, n));
      for i := 0 to n
        invariant Valid() && old(pos) <= pos
        invariant FrameSeq(start, n) == Then(arr, FrameSeq(Unread(), n - i))
      {
        var val := Read();
        if val.Fail? {
          return Fail;
        }
        ThenThen(arr, val.value, FrameSeq(Unread(), n - i - 1));
        arr := arr + [val.value];
      }
      assert arr + [] == arr;
      r := Ok(arr);
    }
  }

  /** A reader over `stream` (NewResponse, app/resp.go:39-42) asked for one
      frame (Read, app/resp.go:72-104): the value the grammar decodes from
      the front of the stream, and how many bytes it took. */
  method ReadFirst(stream: seq<bv8>) returns (r: Result<Value>, used: nat)
    ensures Frame(stream).Fail? ==> r.Fail?
    ensures Frame(stream).Ok? ==>
      r == Ok(Frame(stream).value.value) && used <= |stream| &&
      stream[used..] == Frame(stream).value.rest
  {
    var reader := new Response(stream);
    assert reader.Unread() == stream;
    r := reader.Read();
    used := reader.pos;
  }
}
