/** Byte strings, and the decimal conversions of Go's `strconv` that the wire format and the commands use. */
module Strconv {

  type Byte = c: char | c as int < 256 witness 'a'

  type Bytes = seq<Byte>

  datatype Option<+T> = None | Some(value: T)

  const MAX_INT64: int := 0x7FFF_FFFF_FFFF_FFFF
  const MIN_INT64: int := -0x8000_0000_0000_0000
  const MAX_UINT32: int := 0xFFFF_FFFF

  lemma Regroup<T>(a: seq<T>, b: seq<T>, c: seq<T>)
    ensures (a + b) + c == a + (b + c)
  {
  }

  lemma NothingMore<T>(a: seq<T>)
    ensures a + [] == a && [] + a == a
  {
  }

  predicate IsDigit(c: Byte) {
    '0' <= c <= '9'
  }

  predicate AllDigits(s: Bytes) {
    forall i :: 0 <= i < |s| ==> IsDigit(s[i])
  }

  function Digit(n: nat): (c: Byte)
    requires n < 10
    ensures IsDigit(c) && c as int - '0' as int == n
  {
    (n + '0' as int) as char
  }

  function FormatNat(n: nat): (s: Bytes)
    ensures |s| > 0 && AllDigits(s)
  {
    if n < 10 then [Digit(n)] else FormatNat(n / 10) + [Digit(n % 10)]
  }

  function FormatInt(n: int): Bytes {
    if n < 0 then ['-'] + FormatNat(-n) else FormatNat(n)
  }

  /** The value of a string of digits. */
  function DigitsValue(s: Bytes): nat
    requires AllDigits(s)
  {
    if |s| == 0 then 0 else 10 * DigitsValue(s[..|s| - 1]) + (s[|s| - 1] as int - '0' as int)
  }

  /** `strconv.ParseUint(s, 10, 32)`. */
  function ParseUint32(s: Bytes): Option<nat> {
    if |s| > 0 && AllDigits(s) && DigitsValue(s) <= MAX_UINT32 then Some(DigitsValue(s)) else None
  }

  /** `strconv.ParseInt(s, 10, 64)`: an optional sign, then digits, within the range of int64. */
  function ParseInt64(s: Bytes): Option<int> {
    var negative := |s| > 0 && s[0] == '-';
    var digits := if |s| > 0 && (s[0] == '-' || s[0] == '+') then s[1..] else s;
    if |digits| == 0 || !AllDigits(digits) then None
    else
      var value: int := if negative then 0 - DigitsValue(digits) else DigitsValue(digits);
      if MIN_INT64 <= value <= MAX_INT64 then Some(value) else None
  }

  /** int64 arithmetic wraps around. */
  function Wrap64(n: int): (r: int)
    ensures MIN_INT64 <= r <= MAX_INT64
    ensures MIN_INT64 <= n <= MAX_INT64 ==> r == n
  {
    (n - MIN_INT64) % 0x1_0000_0000_0000_0000 + MIN_INT64
  }

  const TWO64: int := 0x1_0000_0000_0000_0000

  /** v is the int64 that n, which is a sum of two of them, overflows to: it goes round once at most. */
  predicate WrapsTo(n: int, v: int) {
    MIN_INT64 <= v <= MAX_INT64 && (v == n || v == n - TWO64 || v == n + TWO64)
  }

  lemma WrapLaw(n: int)
    requires -TWO64 <= n <= TWO64
    ensures WrapsTo(n, Wrap64(n))
  {
  }

  /** A number and its opposite, added one after the other, lead back, overflow or not. */
  lemma AddedAndTaken(start: int, n: int, m: int, up: int, down: int)
    requires MIN_INT64 <= start <= MAX_INT64 && WrapsTo(start + n, up) && WrapsTo(up + m, down) && n + m == 0
    ensures down == start
  {
  }

  lemma {:induction false} FormatNatValue(n: nat)
    ensures DigitsValue(FormatNat(n)) == n
  {
    if n >= 10 {
      FormatNatValue(n / 10);
      var s := FormatNat(n);
      assert s[..|s| - 1] == FormatNat(n / 10);
    }
  }

  function Power10(n: nat): nat {
    if n == 0 then 1 else 10 * Power10(n - 1)
  }

  /** The place of a digit gives its weight. */
  lemma {:induction false} DecimalPlaces(a: Bytes, b: Bytes)
    requires AllDigits(a) && AllDigits(b)
    ensures DigitsValue(a + b) == DigitsValue(a) * Power10(|b|) + DigitsValue(b)
    decreases |b|
  {
    if |b| == 0 {
      assert a + b == a;
    } else {
      var front := b[..|b| - 1];
      DecimalPlaces(a, front);
      assert (a + b)[..|a + b| - 1] == a + front;
      assert DigitsValue(a) * Power10(|b|) == 10 * (DigitsValue(a) * Power10(|front|));
    }
  }

  /** Digits alone are a number, and so they are after a sign: a plus changes nothing, a minus turns it round. */
  lemma UnsignedNumber(digits: Bytes)
    requires |digits| > 0 && AllDigits(digits) && DigitsValue(digits) <= MAX_INT64
    ensures ParseInt64(digits) == Some(DigitsValue(digits))
  {
    assert IsDigit(digits[0]);
  }

  lemma SignedNumber(sign: Byte, digits: Bytes)
    requires sign in ['+', '-'] && |digits| > 0 && AllDigits(digits) && DigitsValue(digits) <= MAX_INT64
    ensures ParseInt64([sign] + digits) == Some(if sign == '-' then 0 - DigitsValue(digits) else DigitsValue(digits))
  {
    AfterSign([sign] + digits, sign, digits);
  }

  lemma AfterSign(s: Bytes, sign: Byte, digits: Bytes)
    requires s == [sign] + digits && (sign == '+' || sign == '-')
    requires |digits| > 0 && AllDigits(digits) && DigitsValue(digits) <= MAX_INT64
    ensures ParseInt64(s) == Some(if sign == '-' then 0 - DigitsValue(digits) else DigitsValue(digits))
  {
    var rest := s[1..];
    assert s[0] == sign && rest == digits;
  }

  lemma ParseFormatUint(n: nat)
    ensures ParseUint32(FormatNat(n)) == if n <= MAX_UINT32 then Some(n) else None
  {
    FormatNatValue(n);
  }

  /** Formatting then parsing an integer gives it back exactly when it fits in int64. */
  lemma ParseFormatInt(n: int)
    ensures ParseInt64(FormatInt(n)) == if MIN_INT64 <= n <= MAX_INT64 then Some(n) else None
  {
    var magnitude := if n < 0 then -n else n;
    FormatNatValue(magnitude);
    if n < 0 {
      assert FormatInt(n)[1..] == FormatNat(magnitude);
    } else {
      assert IsDigit(FormatInt(n)[0]);
    }
  }
}
