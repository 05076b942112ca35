/** The parts of Java's 64-bit `long` that the billing cache depends on:
    its range, wrap-around subtraction, truncating division, and the decimal
    text produced by `Long.toString` and read back by `Long.parseLong`. */
module JavaLong {
  import opened Wrappers

  const MIN_LONG: int := -0x8000_0000_0000_0000
  const MAX_LONG: int := 0x7FFF_FFFF_FFFF_FFFF
  const TWO_TO_64: int := 0x1_0000_0000_0000_0000

  type Long = x: int | MIN_LONG <= x <= MAX_LONG

  /** Largest magnitude of `System.currentTimeMillis() / 1000L`. */
  const MAX_EPOCH_SEC: int := MAX_LONG / 1000

  /** A clock reading in seconds, as the SDK takes it: a `long` of
      milliseconds divided by 1000 (so it is a `long` with room to spare). */
  type EpochSec = s: int | -MAX_EPOCH_SEC <= s <= MAX_EPOCH_SEC

  /** Java's `a / 1000L`, which truncates toward zero (Dafny's `/` is Euclidean). */
  function MillisToSec(millis: int): (s: int)
    ensures millis >= 0 ==> 0 <= 1000 * s <= millis < 1000 * s + 1000
    ensures millis < 0 ==> 1000 * s - 1000 < millis <= 1000 * s <= 0
  {
    if millis >= 0 then millis / 1000 else -((-millis) / 1000)
  }

  /** Two's-complement reduction of an exact integer into the `long` range. */
  function Wrap(x: int): (r: Long)
    ensures (r - x) % TWO_TO_64 == 0
    ensures MIN_LONG <= x <= MAX_LONG ==> r == x
  {
    (x - MIN_LONG) % TWO_TO_64 + MIN_LONG
  }

  /** Java's `a - b` on two `long` values, wrapping on overflow. */
  function LongSub(a: Long, b: Long): (r: Long)
    ensures (r - (a - b)) % TWO_TO_64 == 0
    ensures MIN_LONG <= a - b <= MAX_LONG ==> r == a - b
  {
    Wrap(a - b)
  }

  /** Two clock readings are close enough that their `long` difference is exact. */
  lemma EpochDifferenceExact(a: EpochSec, b: EpochSec)
    ensures LongSub(a, b) == a - b
  {
  }

  // ---------------------------------------------------------------------
  // Decimal text

  predicate IsDigit(c: char) {
    '0' <= c <= '9'
  }

  predicate AllDigits(s: string) {
    forall i :: 0 <= i < |s| ==> IsDigit(s[i])
  }

  function DigitChar(d: int): (c: char)
    requires 0 <= d < 10
    ensures IsDigit(c) && c as int - '0' as int == d
  {
    ('0' as int + d) as char
  }

  /** The value of a string of ASCII digits, most significant first. */
  function DigitsValue(s: string): nat
    requires AllDigits(s)
  {
    if |s| == 0 then 0
    else DigitsValue(s[..|s| - 1]) * 10 + (s[|s| - 1] as int - '0' as int)
  }

  /** Decimal digits of `n` without leading zeros ("0" for zero). */
  function NatToDigits(n: nat): (s: string)
    ensures |s| > 0 && AllDigits(s)
    ensures |s| > 1 ==> s[0] != '0'
  {
    if n < 10 then [DigitChar(n)]
    else NatToDigits(n / 10) + [DigitChar(n % 10)]
  }

  /** `Long.toString(n)`: an optional minus sign followed by the digits of |n|. */
  function LongToString(n: Long): (s: string)
    ensures |s| > 0
    ensures forall i :: 0 <= i < |s| ==> s[i] == '-' || IsDigit(s[i])
    ensures s[0] == '-' <==> n < 0
    ensures n < 0 ==> |s| > 1
    ensures AllDigits(s[1..])
  {
    if n < 0 then "-" + NatToDigits(0 - n as int) else NatToDigits(n)
  }

  /** `Long.parseLong(s)` for ASCII input: an optional sign and at least one
      digit, in range; `None` where Java throws `NumberFormatException`. */
  function ParseLong(s: string): (r: Option<Long>)
    ensures r.Some? ==> |s| > 0
    ensures r.Some? ==> var start := if s[0] == '-' || s[0] == '+' then 1 else 0;
      start < |s| && AllDigits(s[start..])
    ensures r.Some? ==> (r.value < 0 ==> s[0] == '-') && (s[0] == '-' ==> r.value <= 0)
  {
    if |s| == 0 then None
    else if s[0] == '-' || s[0] == '+' then
      var body := s[1..];
      if |body| == 0 || !AllDigits(body) then None
      else
        var v: int := if s[0] == '-' then 0 - DigitsValue(body) as int else DigitsValue(body);
        if MIN_LONG <= v <= MAX_LONG then Some(v) else None
    else if !AllDigits(s) then None
    else if DigitsValue(s) <= MAX_LONG then Some(DigitsValue(s)) else None
  }

  lemma {:induction false} DigitsRoundTrip(n: nat)
    ensures DigitsValue(NatToDigits(n)) == n
    decreases n
  {
    if n >= 10 {
      DigitsRoundTrip(n / 10);
      var s := NatToDigits(n);
      assert s[..|s| - 1] == NatToDigits(n / 10);
    }
  }

  /** `Long.parseLong(Long.toString(n)) == n` for every `long`. */
  lemma LongTextRoundTrip(n: Long)
    ensures ParseLong(LongToString(n)) == Some(n)
  {
    if n < 0 {
      DigitsRoundTrip(0 - n as int);
      assert LongToString(n)[1..] == NatToDigits(0 - n as int);
    } else {
      DigitsRoundTrip(n);
    }
  }
}
