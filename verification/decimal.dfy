/** The two decimal conversions the codec borrows from Go's strconv:
    `strconv.ParseInt(s, 10, 64)` (app/resp.go:65) and `strconv.Itoa`
    (app/resp.go:297, 310, 343). */
module Decimal {
  import opened Wire

  const MAX_INT64: int := 0x7FFF_FFFF_FFFF_FFFF
  const MIN_INT64: int := -0x8000_0000_0000_0000

  predicate InInt64(n: int) {
    MIN_INT64 <= n <= MAX_INT64
  }

  predicate IsDigit(b: bv8) {
    48 <= b as int <= 57
  }

  predicate AllDigits(ds: seq<bv8>) {
    forall i :: 0 <= i < |ds| ==> IsDigit(ds[i])
  }

  function DigitValue(b: bv8): nat
    requires IsDigit(b)
  {
    b as int - 48
  }

  function DigitByte(d: nat): (b: bv8)
    requires d < 10
    ensures IsDigit(b) && DigitValue(b) == d
  {
    (48 + d) as bv8
  }

  /** The number a string of decimal digits denotes, most significant first. */
  function DigitsValue(ds: seq<bv8>): nat
    requires AllDigits(ds)
    decreases |ds|
  {
    if |ds| == 0 then 0
    else DigitsValue(ds[..|ds| - 1]) * 10 + DigitValue(ds[|ds| - 1])
  }

  /** The canonical digits of `n`: no leading zero, "0" for zero. */
  function NatDigits(n: nat): (ds: seq<bv8>)
    ensures 0 < |ds| && AllDigits(ds) && DigitsValue(ds) == n
    ensures |ds| > 1 ==> ds[0] != 48
    decreases n
  {
    if n < 10 then [DigitByte(n)]
    else
      var ds := NatDigits(n / 10) + [DigitByte(n % 10)];
      assert ds[..|ds| - 1] == NatDigits(n / 10);
      ds
  }

  /** strconv.Itoa: an optional minus sign, then the canonical digits. */
  function FormatInt(n: int): (text: seq<bv8>)
    ensures 0 < |text| && NoLineBreak(text)
  {
    if n < 0 then [MINUS] + NatDigits(-n) else NatDigits(n)
  }

  /** The digits of a line once an optional leading sign is removed. */
  function Unsigned(line: seq<bv8>): seq<bv8> {
    if 0 < |line| && (line[0] == PLUS || line[0] == MINUS) then line[1..] else line
  }

  /** strconv.ParseInt(line, 10, 64): an optional `+` or `-`, at least one
      decimal digit and nothing else; the value must fit in 64 bits.
      Syntax errors and range errors are both `None`. */
  function ParseInt(line: seq<bv8>): (r: Option<int>)
    ensures r.Some? ==> InInt64(r.value)
  {
    var ds := Unsigned(line);
    if |ds| == 0 || !AllDigits(ds) then None
    else
      var magnitude: int := DigitsValue(ds);
      var n := if line[0] == MINUS then -magnitude else magnitude;
      if InInt64(n) then Some(n) else None
  }

  /** Parsing the text Itoa writes gives the number back, for every
      64-bit integer. */
  lemma FormatThenParse(n: int)
    requires InInt64(n)
    ensures ParseInt(FormatInt(n)) == Some(n)
  {
    if n < 0 {
      ParseNegative(NatDigits(-n));
    } else {
      ParseNonNegative(NatDigits(n));
    }
  }

  /** Digits with no sign parse to their own value. */
  lemma ParseNonNegative(ds: seq<bv8>)
    requires 0 < |ds| && AllDigits(ds) && DigitsValue(ds) <= MAX_INT64
    ensures ParseInt(ds) == Some(DigitsValue(ds))
  {
    assert IsDigit(ds[0]);
    assert Unsigned(ds) == ds;
  }

  /** A minus sign before digits negates their value. */
  lemma ParseNegative(ds: seq<bv8>)
    requires 0 < |ds| && AllDigits(ds) && DigitsValue(ds) <= -MIN_INT64
    ensures ParseInt([MINUS] + ds) == Some(-(DigitsValue(ds) as int))
  {
    var line := [MINUS] + ds;
    assert line[0] == MINUS;
    assert Unsigned(line) == ds;
  }

  /** Digits whose value is out of range are refused, whatever the sign
      in front of them and however many zeros pad them. */
  lemma ParseRejectsOutOfRange(ds: seq<bv8>)
    requires 0 < |ds| && AllDigits(ds)
    ensures DigitsValue(ds) > MAX_INT64 ==> ParseInt(ds) == None && ParseInt([PLUS] + ds) == None
    ensures DigitsValue(ds) > -MIN_INT64 ==> ParseInt([MINUS] + ds) == None
  {
    assert IsDigit(ds[0]);
    assert Unsigned(ds) == ds;
    assert Unsigned([PLUS] + ds) == ds;
    assert Unsigned([MINUS] + ds) == ds;
  }

  /** Non-numeric text is refused: an empty line, a bare sign, or any byte
      after the optional sign that is not a decimal digit. */
  lemma ParseRejectsNonNumeric(line: seq<bv8>, i: nat)
    requires i < |line|
    requires !IsDigit(line[i])
    requires i > 0 || (line[0] != PLUS && line[0] != MINUS)
    ensures ParseInt(line) == None
  {
    var ds := Unsigned(line);
    if ds == line[1..] {
      assert ds[i - 1] == line[i];
    } else {
      assert ds[i] == line[i];
    }
  }

  lemma ParseRejectsEmpty(line: seq<bv8>)
    requires line == [] || line == [PLUS] || line == [MINUS]
    ensures ParseInt(line) == None
  {
  }

  /** Leading zeros and an explicit `+` are accepted, as strconv does. */
  lemma ParseAcceptsPlusAndZeros(zeros: nat, n: nat)
    requires n <= MAX_INT64
    ensures ParseInt([PLUS] + Zeros(zeros) + NatDigits(n)) == Some(n)
  {
    var ds := Zeros(zeros) + NatDigits(n);
    ZerosDoNotCount(zeros, NatDigits(n));
    ParsePlus(ds);
    assert [PLUS] + Zeros(zeros) + NatDigits(n) == [PLUS] + ds;
  }

  /** A plus sign before digits leaves their value as it is. */
  lemma ParsePlus(ds: seq<bv8>)
    requires 0 < |ds| && AllDigits(ds) && DigitsValue(ds) <= MAX_INT64
    ensures ParseInt([PLUS] + ds) == Some(DigitsValue(ds))
  {
    assert Unsigned([PLUS] + ds) == ds;
  }

  function Zeros(k: nat): (z: seq<bv8>)
    ensures |z| == k && AllDigits(z)
  {
    seq(k, _ => 48)
  }

  lemma {:induction false} ZerosDoNotCount(k: nat, ds: seq<bv8>)
    requires AllDigits(ds)
    ensures AllDigits(Zeros(k) + ds) && DigitsValue(Zeros(k) + ds) == DigitsValue(ds)
    decreases |ds|
  {
    var all := Zeros(k) + ds;
    if |ds| == 0 {
      assert all == Zeros(k);
      ZerosAreZero(k);
    } else {
      ZerosDoNotCount(k, ds[..|ds| - 1]);
      assert all[..|all| - 1] == Zeros(k) + ds[..|ds| - 1];
    }
  }

  lemma {:induction false} ZerosAreZero(k: nat)
    ensures DigitsValue(Zeros(k)) == 0
  {
    if k > 0 {
      assert Zeros(k)[..k - 1] == Zeros(k - 1);
      ZerosAreZero(k - 1);
    }
  }
}
