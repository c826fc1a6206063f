/** Decimal text of 64-bit integers, as written by the storage engine and read by the parser. */
module Decimal {
  import opened SqlTypes

  function DigitChar(d: nat): char
    requires d < 10
  {
    ('0' as int + d) as char
  }

  predicate AllDigits(s: string) {
    forall i :: 0 <= i < |s| ==> IsDigit(s[i])
  }

  function Digits(n: nat): (s: string)
    ensures |s| > 0 && AllDigits(s)
  {
    if n < 10 then [DigitChar(n)] else Digits(n / 10) + [DigitChar(n % 10)]
  }

  function IntText(n: int): string {
    if n < 0 then "-" + Digits(-n) else Digits(n)
  }

  function DecimalValue(s: string): nat
    requires AllDigits(s)
  {
    if s == [] then 0
    else 10 * DecimalValue(s[..|s| - 1]) + (s[|s| - 1] as int - '0' as int)
  }

  predicate IsSign(c: char) {
    c == '+' || c == '-'
  }

  /** An optional sign and at least one digit: the only text the parser hands to strtoll. */
  predicate IsIntegerText(s: string) {
    var digits := if s != [] && IsSign(s[0]) then s[1..] else s;
    digits != [] && AllDigits(digits)
  }

  function SignedValue(s: string): int
    requires IsIntegerText(s)
  {
    if s[0] == '-' then 0 - DecimalValue(s[1..])
    else if s[0] == '+' then DecimalValue(s[1..])
    else DecimalValue(s)
  }

  /** strtoll in base 10: None stands for errno == ERANGE (section 7.22.1.4 of C11). */
  function Strtoll(s: string): Option<Int64>
    requires IsIntegerText(s)
  {
    var v := SignedValue(s);
    if INT64_MIN <= v <= INT64_MAX then Some(v) else None
  }

  lemma {:induction false} DigitsValue(n: nat)
    ensures DecimalValue(Digits(n)) == n
  {
    if n >= 10 {
      DigitsValue(n / 10);
      assert Digits(n)[..|Digits(n)| - 1] == Digits(n / 10);
    }
  }

  lemma DigitsInjective(m: nat, n: nat)
    requires Digits(m) == Digits(n)
    ensures m == n
  {
    DigitsValue(m);
    DigitsValue(n);
  }

  lemma IntTextValue(n: int)
    ensures IsIntegerText(IntText(n)) && SignedValue(IntText(n)) == n
  {
    if n < 0 {
      DigitsValue(-n);
      assert IntText(n)[1..] == Digits(-n);
    } else {
      DigitsValue(n);
    }
  }

  /** Every 64-bit value, the minimum included, is read back from the text written for it. */
  lemma IntRoundTrip(n: Int64)
    ensures IsIntegerText(IntText(n)) && Strtoll(IntText(n)) == Some(n)
  {
    IntTextValue(n);
  }

  function Pow10(k: nat): nat {
    if k == 0 then 1 else 10 * Pow10(k - 1)
  }

  lemma {:induction false} DigitsLength(n: nat, k: nat)
    requires k > 0 && n < Pow10(k)
    ensures |Digits(n)| <= k
  {
    if n >= 10 {
      assert k > 1;
      DigitsLength(n / 10, k - 1);
    }
  }

  lemma MagnitudeDigits(n: nat)
    requires n <= 0x8000_0000_0000_0000
    ensures |Digits(n)| <= 19
  {
    assert Pow10(4) == 10_000;
    assert Pow10(8) == 100_000_000;
    assert Pow10(12) == 1_000_000_000_000;
    assert Pow10(16) == 10_000_000_000_000_000;
    assert Pow10(19) == 10_000_000_000_000_000_000;
    DigitsLength(n, 19);
  }

  // ---------- numbers as they are written ----------

  const DIGITS := "0123456789"

  predicate OnlyDigits(d: string) {
    forall i :: 0 <= i < |d| ==> d[i] in DIGITS
  }

  /** The place of a digit in the row of digits. */
  ghost function PlaceOf(c: char): (k: nat)
    requires c in DIGITS
    ensures k < 10 && DIGITS[k] == c
  {
    var k :| 0 <= k < 10 && DIGITS[k] == c;
    k
  }

  /** The number that a row of digits stands for: each digit counts by its distance from the right end. */
  ghost function Number(d: string): nat
    requires OnlyDigits(d)
  {
    if d == "" then 0 else PlaceOf(d[0]) * Pow10(|d| - 1) + Number(d[1..])
  }

  lemma DigitPlace(c: char)
    ensures IsDigit(c) <==> c in DIGITS
    ensures IsDigit(c) ==> PlaceOf(c) == c as int - '0' as int
  {
    assert forall k :: 0 <= k < 10 ==> DIGITS[k] as int == '0' as int + k;
    if IsDigit(c) { assert DIGITS[c as int - '0' as int] == c; }
  }

  lemma OnlyDigitsAre(d: string)
    ensures OnlyDigits(d) <==> AllDigits(d)
  {
    forall i | 0 <= i < |d|
      ensures d[i] in DIGITS <==> IsDigit(d[i])
    {
      DigitPlace(d[i]);
    }
  }

  lemma Shift(c: nat, p: nat, rest: nat, last: nat)
    ensures 10 * (c * p + rest) + last == c * (10 * p) + (10 * rest + last)
  {
  }

  lemma {:induction false} DecimalFromTheLeft(c: char, t: string)
    requires IsDigit(c) && AllDigits(t)
    ensures AllDigits([c] + t) && DecimalValue([c] + t) == (c as int - '0' as int) * Pow10(|t|) + DecimalValue(t)
  {
    if t == "" {
      assert [c] + t == [c] && [c][..0] == "";
    } else {
      var init, last := t[..|t| - 1], t[|t| - 1];
      DecimalFromTheLeft(c, init);
      assert ([c] + t)[..|t|] == [c] + init && ([c] + t)[|t|] == last;
      Shift(c as int - '0' as int, Pow10(|init|), DecimalValue(init), last as int - '0' as int);
    }
  }

  lemma NoDigits()
    ensures DecimalValue("") == 0
  {
  }

  lemma {:induction false} NumberIsDecimal(d: string)
    requires OnlyDigits(d)
    ensures AllDigits(d) && DecimalValue(d) == Number(d)
  {
    hide DecimalValue, Pow10;
    OnlyDigitsAre(d);
    if d == "" {
      NoDigits();
    } else {
      NumberIsDecimal(d[1..]);
      DigitPlace(d[0]);
      DecimalFromTheLeft(d[0], d[1..]);
      assert d == [d[0]] + d[1..];
    }
  }

  /** Zeros in front change nothing. */
  lemma LeadingZero(d: string)
    requires OnlyDigits(d)
    ensures OnlyDigits("0" + d) && Number("0" + d) == Number(d)
  {
    assert ("0" + d)[1..] == d;
    assert DIGITS[0] == '0';
    DigitPlace('0');
  }

  predicate IsSignText(sign: string) {
    sign == "" || sign == "+" || sign == "-"
  }

  ghost function SignedNumber(sign: string, d: string): int
    requires OnlyDigits(d)
  {
    if sign == "-" then 0 - Number(d) else Number(d)
  }

  /** strtoll gives the number that is written, and an error exactly when it is no 64-bit integer. */
  lemma StrtollIsExact(sign: string, d: string)
    requires IsSignText(sign) && d != "" && OnlyDigits(d)
    ensures IsIntegerText(sign + d)
    ensures Strtoll(sign + d) ==
            if INT64_MIN <= SignedNumber(sign, d) <= INT64_MAX then Some(SignedNumber(sign, d)) else None
  {
    NumberIsDecimal(d);
    DigitPlace(d[0]);
    if sign == "" { assert sign + d == d; } else { assert (sign + d)[1..] == d; }
  }

  lemma {:induction false} DigitsAreCanonical(n: nat)
    ensures Digits(n)[0] == '0' <==> n == 0
    ensures n == 0 ==> Digits(n) == "0"
    ensures OnlyDigits(Digits(n)) && Number(Digits(n)) == n
  {
    OnlyDigitsAre(Digits(n));
    DigitsValue(n);
    NumberIsDecimal(Digits(n));
    if n >= 10 { DigitsAreCanonical(n / 10); }
  }

  /** A number is printed without a sign, but for a minus, and without a zero in front. */
  lemma IntTextIsCanonical(n: int)
    ensures IntText(n) != "" && IntText(n)[0] != '+'
    ensures IntText(n)[0] == '0' <==> n == 0
    ensures n < 0 ==> |IntText(n)| > 1 && IntText(n)[1] != '0'
  {
    DigitsAreCanonical(if n < 0 then -n else n);
  }
}
