/** Byte-level building blocks of the bytecode format: big-endian unsigned
    integers (what `byteorder::BigEndian` reads and writes), two's-complement
    i64, UTF-8 well-formedness (what `String::from_utf8` accepts) and the
    decimal text of an integer (what `i64::to_string` produces). */
module Primitives {
  import opened Types

  function Pow256(n: nat): (p: nat)
    ensures p >= 1
  {
    if n == 0 then 1 else 256 * Pow256(n - 1)
  }

  lemma Pow256Values()
    ensures Pow256(1) == U8_LIMIT && Pow256(2) == U16_LIMIT
    ensures Pow256(4) == U32_LIMIT && Pow256(8) == U64_LIMIT
  {
  }

  /** The unsigned value of a big-endian byte string. */
  function FromBE(s: Bytes): nat
  {
    if s == [] then 0 else FromBE(s[..|s| - 1]) * 256 + s[|s| - 1]
  }

  /** The n-byte big-endian encoding of v. */
  function ToBE(v: nat, n: nat): (s: Bytes)
    requires v < Pow256(n)
    ensures |s| == n
  {
    if n == 0 then [] else ToBE(v / 256, n - 1) + [v % 256]
  }

  lemma {:induction false} FromBEBound(s: Bytes)
    ensures FromBE(s) < Pow256(|s|)
  {
    if s != [] {
      var init := s[..|s| - 1];
      FromBEBound(init);
      assert FromBE(init) <= Pow256(|init|) - 1;
      assert FromBE(s) <= (Pow256(|init|) - 1) * 256 + 255;
    }
  }

  /** Decoding an encoding gives back the number. */
  lemma {:induction false} FromToBE(v: nat, n: nat)
    requires v < Pow256(n)
    ensures FromBE(ToBE(v, n)) == v
  {
    if n > 0 {
      var s := ToBE(v, n);
      assert s[..|s| - 1] == ToBE(v / 256, n - 1);
      FromToBE(v / 256, n - 1);
    }
  }

  /** Encoding a decoded byte string gives back the bytes. */
  lemma {:induction false} ToFromBE(s: Bytes)
    ensures FromBE(s) < Pow256(|s|) && ToBE(FromBE(s), |s|) == s
  {
    FromBEBound(s);
    if s != [] {
      var init := s[..|s| - 1];
      ToFromBE(init);
      FromBEBound(init);
      assert (FromBE(init) * 256 + s[|s| - 1]) / 256 == FromBE(init);
      assert (FromBE(init) * 256 + s[|s| - 1]) % 256 == s[|s| - 1];
      assert s == init + [s[|s| - 1]];
    }
  }

  /** The bit pattern of an i64 (what `as u64` gives). */
  function I64Bits(v: i64): (u: u64)
    ensures u < 0x8000_0000_0000_0000 <==> v >= 0
  {
    if v < 0 then v + U64_LIMIT else v
  }

  /** The i64 a bit pattern stands for (what `as i64` gives). */
  function BitsI64(u: u64): (v: i64)
    ensures I64Bits(v) == u
  {
    if u <= I64_MAX then u else u - U64_LIMIT
  }

  lemma I64BitsInverse(v: i64)
    ensures BitsI64(I64Bits(v)) == v
  {
  }

  // ---------------------------------------------------------------------------
  // UTF-8 well-formedness, following the table of well-formed byte sequences of
  // the Unicode Standard (section 3.9, table 3-7), which `String::from_utf8` applies.

  predicate IsCont(b: u8) { 0x80 <= b <= 0xBF }

  /** The length of the well-formed sequence that starts s, or 0 when none does. */
  function LeadWidth(s: Bytes): (n: nat)
    requires s != []
    ensures n <= 4 && n <= |s|
  {
    var b := s[0];
    if b <= 0x7F then 1
    else if 0xC2 <= b <= 0xDF then
      (if |s| >= 2 && IsCont(s[1]) then 2 else 0)
    else if b == 0xE0 then
      (if |s| >= 3 && 0xA0 <= s[1] <= 0xBF && IsCont(s[2]) then 3 else 0)
    else if (0xE1 <= b <= 0xEC) || (0xEE <= b <= 0xEF) then
      (if |s| >= 3 && IsCont(s[1]) && IsCont(s[2]) then 3 else 0)
    else if b == 0xED then
      (if |s| >= 3 && 0x80 <= s[1] <= 0x9F && IsCont(s[2]) then 3 else 0)
    else if b == 0xF0 then
      (if |s| >= 4 && 0x90 <= s[1] <= 0xBF && IsCont(s[2]) && IsCont(s[3]) then 4 else 0)
    else if 0xF1 <= b <= 0xF3 then
      (if |s| >= 4 && IsCont(s[1]) && IsCont(s[2]) && IsCont(s[3]) then 4 else 0)
    else if b == 0xF4 then
      (if |s| >= 4 && 0x80 <= s[1] <= 0x8F && IsCont(s[2]) && IsCont(s[3]) then 4 else 0)
    else 0
  }

  predicate ValidUtf8(s: Bytes)
    decreases |s|
  {
    s == [] || (LeadWidth(s) > 0 && ValidUtf8(s[LeadWidth(s)..]))
  }

  predicate IsAscii(s: Bytes) {
    forall i :: 0 <= i < |s| ==> s[i] <= 0x7F
  }

  /** Pure ASCII text is well-formed UTF-8. */
  lemma {:induction false} AsciiIsUtf8(s: Bytes)
    requires IsAscii(s)
    ensures ValidUtf8(s)
  {
    if s != [] {
      assert LeadWidth(s) == 1;
      assert IsAscii(s[1..]);
      AsciiIsUtf8(s[1..]);
    }
  }

  /** A lone continuation byte is not UTF-8, so the check is not vacuous. */
  lemma StrayContinuationIsNotUtf8()
    ensures !ValidUtf8([0x80])
  {
  }

  /** A string the reader accepts: well-formed UTF-8 whose length fits the u64 length prefix. */
  predicate ValidStr(s: Str) {
    |s| < U64_LIMIT && ValidUtf8(s)
  }

  // ---------------------------------------------------------------------------
  // Decimal text.

  const ZERO_CHAR: u8 := 0x30
  const MINUS_CHAR: u8 := 0x2D

  /** The decimal digits of n, most significant first, without leading zeros. */
  function Digits(n: nat): (s: Str)
    ensures |s| >= 1
  {
    if n < 10 then [ZERO_CHAR + n] else Digits(n / 10) + [ZERO_CHAR + n % 10]
  }

  predicate AllDigits(s: Str) {
    forall i :: 0 <= i < |s| ==> ZERO_CHAR <= s[i] <= ZERO_CHAR + 9
  }

  /** The number a string of decimal digits denotes. */
  function DigitsValue(s: Str): nat
    requires AllDigits(s)
  {
    if s == [] then 0 else DigitsValue(s[..|s| - 1]) * 10 + (s[|s| - 1] - ZERO_CHAR)
  }

  lemma {:induction false} DigitsRoundTrip(n: nat)
    ensures AllDigits(Digits(n)) && DigitsValue(Digits(n)) == n
    ensures Digits(n)[0] != ZERO_CHAR || n == 0
  {
    if n >= 10 {
      DigitsRoundTrip(n / 10);
      var s := Digits(n);
      assert s[..|s| - 1] == Digits(n / 10);
    }
  }

  /** `i64::to_string`: an optional minus sign and the digits of the magnitude. */
  function DecimalText(v: int): Str
  {
    if v < 0 then [MINUS_CHAR] + Digits(-v) else Digits(v)
  }

  /** The inverse of DecimalText. */
  function DecimalValue(s: Str): int
    requires |s| >= 1
    requires AllDigits(s[1..])
    requires s[0] == MINUS_CHAR || AllDigits(s)
  {
    if s[0] == MINUS_CHAR then 0 - (DigitsValue(s[1..]) as int) else DigitsValue(s)
  }

  lemma DecimalRoundTrip(v: int)
    ensures |DecimalText(v)| >= 1 && AllDigits(DecimalText(v)[1..])
    ensures DecimalText(v)[0] == MINUS_CHAR || AllDigits(DecimalText(v))
    ensures DecimalValue(DecimalText(v)) == v
    ensures IsAscii(DecimalText(v))
  {
    var n := if v < 0 then -v else v;
    DigitsRoundTrip(n);
    var t := DecimalText(v);
    if v < 0 {
      assert t[1..] == Digits(n);
    } else {
      assert AllDigits(t[1..]);
    }
  }
}
