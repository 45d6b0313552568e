/**
 * Decimal text of unsigned integers: `format!("{}", n)` (Digits) and
 * `str::parse::<u8>()` / `str::parse::<u16>()` (ParseUnsigned), the two
 * number conversions the encoder and the decoder rely on.
 */
module Decimal {

  import opened Wrappers
  import opened Bytes

  const U8_MAX: nat := 0xFF
  const U16_MAX: nat := 0xFFFF

  /** The shortest decimal text of `n`: no sign, no leading zero. */
  function Digits(n: nat): (r: seq<byte>)
    ensures |r| >= 1 && AllDigits(r)
    ensures r[0] == DIGIT_ZERO ==> n == 0
    decreases n
  {
    if n < 10 then [DIGIT_ZERO + n] else Digits(n / 10) + [DIGIT_ZERO + n % 10]
  }

  /** The number a string of digits denotes, most significant digit first. */
  function Value(s: seq<byte>): nat
    requires AllDigits(s)
    decreases |s|
  {
    if s == [] then 0 else 10 * Value(s[..|s| - 1]) + (s[|s| - 1] - DIGIT_ZERO)
  }

  /** Printing then reading a number gives it back. */
  lemma {:induction false} ValueOfDigits(n: nat)
    ensures Value(Digits(n)) == n
    decreases n
  {
    if n >= 10 {
      var d := Digits(n);
      assert d[..|d| - 1] == Digits(n / 10);
      ValueOfDigits(n / 10);
    }
  }

  /** Distinct numbers print differently. */
  lemma DigitsInjective(m: nat, n: nat)
    requires Digits(m) == Digits(n)
    ensures m == n
  {
    ValueOfDigits(m);
    ValueOfDigits(n);
  }

  /**
   * `str::parse` for an unsigned integer type whose largest value is `max`:
   * one optional leading `+`, then at least one ASCII digit and nothing else;
   * leading zeros are accepted; a value above `max` is an overflow error.
   */
  function ParseUnsigned(s: seq<byte>, max: nat): (r: Option<nat>)
    ensures r.Some? ==> r.value <= max
    ensures r.Some? ==> SEMICOLON !in s && |s| >= 1
    ensures r.Some? ==>
      var d := if s[0] == PLUS then s[1..] else s;
      |d| >= 1 && AllDigits(d) && r.value == Value(d)
  {
    if s == [] then None
    else
      var digits := if s[0] == PLUS then s[1..] else s;
      if digits == [] || !AllDigits(digits) then None
      else if Value(digits) <= max then Some(Value(digits))
      else None
  }

  /** `str::parse::<u8>()`. */
  function ParseU8(s: seq<byte>): (r: Option<nat>)
    ensures r.Some? ==> r.value <= U8_MAX
    ensures |s| >= 1 && AllDigits(s) ==> (r.Some? <==> Value(s) <= U8_MAX) && (r.Some? ==> r.value == Value(s))
  {
    ParseUnsigned(s, U8_MAX)
  }

  /** `str::parse::<u16>()`. */
  function ParseU16(s: seq<byte>): (r: Option<nat>)
    ensures r.Some? ==> r.value <= U16_MAX
    ensures |s| >= 1 && AllDigits(s) ==> (r.Some? <==> Value(s) <= U16_MAX) && (r.Some? ==> r.value == Value(s))
  {
    ParseUnsigned(s, U16_MAX)
  }

  /**
   * Any non-empty run of digits, leading zeros included, reads as the number
   * it spells when that fits, and as an overflow error otherwise; a leading
   * `+` changes nothing.
   */
  lemma ParseDigitText(d: seq<byte>, max: nat)
    requires |d| >= 1 && AllDigits(d)
    ensures ParseUnsigned(d, max) == (if Value(d) <= max then Some(Value(d)) else None)
    ensures ParseUnsigned([PLUS] + d, max) == ParseUnsigned(d, max)
  {
    assert d[0] != PLUS;
    assert ([PLUS] + d)[1..] == d;
  }

  /** Reading the printed form of any number in range gives it back. */
  lemma ParseDigits(n: nat, max: nat)
    requires n <= max
    ensures ParseUnsigned(Digits(n), max) == Some(n)
  {
    ValueOfDigits(n);
  }

  /** Reading rejects a number one past the largest value. */
  lemma ParseOverflow(max: nat)
    ensures ParseUnsigned(Digits(max + 1), max).None?
  {
    ValueOfDigits(max + 1);
  }

  /**
   * The number `s` spells when `s` is exactly its shortest decimal text; the
   * decoder matches parameter strings such as "31" or "38" this way.
   */
  function LiteralValue(s: seq<byte>): (r: Option<nat>)
    ensures forall n: nat {:trigger Digits(n)} :: r == Some(n) <==> s == Digits(n)
  {
    assert forall n: nat {:trigger Digits(n)} :: s == Digits(n) ==> Value(s) == n by {
      forall n: nat | s == Digits(n) ensures Value(s) == n {
        ValueOfDigits(n);
      }
    }
    if |s| >= 1 && AllDigits(s) && Digits(Value(s)) == s then Some(Value(s)) else None
  }
}
