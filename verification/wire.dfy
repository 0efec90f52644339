/** Bytes of the RESP wire format: the tag bytes of app/resp.go, the line
    terminator, and the result types the decoder and encoder share. */
module Wire {

  /** The eight tag bytes the codec understands (app/resp.go:14-23). */
  const SIMPLE_STRING: bv8 := 0x2B  // '+'
  const ERROR: bv8 := 0x2D  // '-'
  const INTEGER: bv8 := 0x3A  // ':'
  const NULL: bv8 := 0x5F  // '_'
  const BULK_STRING: bv8 := 0x24  // '$'
  const ARRAY: bv8 := 0x2A  // '*'
  const BOOLEAN: bv8 := 0x23  // '#'
  const MAP: bv8 := 0x25  // '%'

  const CR: bv8 := 0x0D
  const LF: bv8 := 0x0A
  const CRLF: seq<bv8> := [CR, LF]

  /** The sign and the two boolean letters used in line contents. */
  const PLUS: bv8 := 0x2B  // '+'
  const MINUS: bv8 := 0x2D  // '-'
  const TRUE_LETTER: bv8 := 0x74  // 't'
  const FALSE_LETTER: bv8 := 0x66  // 'f'

  predicate IsTag(b: bv8) {
    b == SIMPLE_STRING || b == ERROR || b == INTEGER || b == NULL ||
    b == BULK_STRING || b == ARRAY || b == BOOLEAN || b == MAP
  }

  /** True when `text` holds neither CR nor LF, so it can sit on one line. */
  predicate NoLineBreak(text: seq<bv8>) {
    forall i :: 0 <= i < |text| ==> text[i] != CR && text[i] != LF
  }

  /** The last two bytes of `s` are CR LF. */
  predicate EndsWithCRLF(s: seq<bv8>) {
    2 <= |s| && s[|s| - 2] == CR && s[|s| - 1] == LF
  }

  /** Every Go `error` return of the decoder is one generic failure. */
  datatype Result<+T> = Ok(value: T) | Fail

  /** A decoded item together with the input that is left after it. */
  datatype Parsed<+T> = Parsed(value: T, rest: seq<bv8>)

  datatype Option<+T> = None | Some(value: T)

  /** `t` is what remains of `s` after some prefix of `s` was consumed. */
  predicate IsSuffix(t: seq<bv8>, s: seq<bv8>) {
    |t| <= |s| && t == s[|s| - |t|..]
  }

  predicate IsProperSuffix(t: seq<bv8>, s: seq<bv8>) {
    IsSuffix(t, s) && |t| < |s|
  }

  lemma SuffixTransitive(t: seq<bv8>, u: seq<bv8>, s: seq<bv8>)
    requires IsSuffix(t, u) && IsSuffix(u, s)
    ensures IsSuffix(t, s)
  {
    assert u[|u| - |t|..] == s[|s| - |t|..];
  }

  /** The bytes after the tag of a frame laid out as tag, two header
      parts and a body, with whatever follows it. */
  lemma AfterTag4(tag: bv8, a: seq<bv8>, b: seq<bv8>, c: seq<bv8>, rest: seq<bv8>)
    ensures ([tag] + a + b + c)[1..] + rest == a + b + (c + rest)
  {
    assert ([tag] + a + b + c)[1..] == a + b + c;
  }
}

