/**
 * Decimal notation of integers: the text `"" + id` produces in State.toString
 * and the text Integer.parseInt reads in PatternProcessor.replaceRepetitions.
 */
module Decimal {
  import opened Wrappers

  predicate IsDigit(c: char) { '0' <= c <= '9' }

  predicate AllDigits(s: string) { forall k :: 0 <= k < |s| ==> IsDigit(s[k]) }

  /** The range of a Java `int`. */
  predicate IsJavaInt(n: int) { -0x8000_0000 <= n < 0x8000_0000 }

  /** The value of a string of decimal digits, most significant digit first. */
  function DigitsValue(s: string): nat
    requires AllDigits(s)
  {
    if s == [] then 0
    else DigitsValue(s[..|s| - 1]) * 10 + (s[|s| - 1] as int - '0' as int)
  }

  /** The shortest decimal digits of `n` (a lone `0` for zero). */
  function NatDigits(n: nat): (r: string)
    ensures |r| > 0 && AllDigits(r)
    ensures n > 0 ==> r[0] != '0'
    decreases n
  {
    if n < 10 then [('0' as int + n) as char]
    else NatDigits(n / 10) + [('0' as int + n % 10) as char]
  }

  /** The text Java writes for an int: a minus sign before the digits of a negative value. */
  function IntToString(n: int): (r: string)
    ensures |r| > 0
  {
    if n < 0 then "-" + NatDigits(-n) else NatDigits(n)
  }

  /**
   * Integer.parseInt: an optional `+` or `-`, then at least one digit, and a
   * value inside the int range; anything else is a NumberFormatException.
   */
  function ParseInt(s: string): (r: Result<int>)
    ensures r.Ok? ==> IsJavaInt(r.value)
    ensures s == [] ==> r == Err(NumberFormat)
  {
    var negative := |s| > 0 && s[0] == '-';
    var digits := if |s| > 0 && (s[0] == '-' || s[0] == '+') then s[1..] else s;
    if digits == [] || !AllDigits(digits) then Err(NumberFormat)
    else
      var n := if negative then -(DigitsValue(digits) as int) else DigitsValue(digits);
      if IsJavaInt(n) then Ok(n) else Err(NumberFormat)
  }

  lemma {:induction false} DigitsRoundTrip(n: nat)
    ensures DigitsValue(NatDigits(n)) == n
    decreases n
  {
    if n >= 10 {
      var r := NatDigits(n);
      DigitsRoundTrip(n / 10);
      assert r[..|r| - 1] == NatDigits(n / 10);
    }
  }

  /** Integer.parseInt reads back the text of every int. */
  lemma IntToStringRoundTrip(n: int)
    requires IsJavaInt(n)
    ensures ParseInt(IntToString(n)) == Ok(n)
  {
    var s := IntToString(n);
    if n < 0 {
      DigitsRoundTrip(-n);
      assert s[0] == '-' && s[1..] == NatDigits(-n);
    } else {
      DigitsRoundTrip(n);
      assert IsDigit(s[0]);
    }
  }

  /** Different integers are written differently. */
  lemma IntToStringInjective(m: int, n: int)
    ensures IntToString(m) == IntToString(n) ==> m == n
  {
    if IntToString(m) == IntToString(n) {
      DigitsRoundTrip(if m < 0 then -m else m);
      DigitsRoundTrip(if n < 0 then -n else n);
      if m < 0 {
        assert IntToString(m)[1..] == NatDigits(-m);
      }
      if n < 0 {
        assert IntToString(n)[1..] == NatDigits(-n);
      }
    }
  }

  /** Text of a value outside the int range is refused. */
  lemma IntToStringOutOfRange(n: int)
    requires !IsJavaInt(n)
    ensures ParseInt(IntToString(n)) == Err(NumberFormat)
  {
    if n < 0 {
      DigitsRoundTrip(-n);
      assert IntToString(n)[1..] == NatDigits(-n);
    } else {
      DigitsRoundTrip(n);
    }
  }

  /** A single digit reads as its value. */
  lemma ParseDigit(c: char)
    requires IsDigit(c)
    ensures ParseInt([c]) == Ok(c as int - '0' as int)
  {
    assert [c][..0] == [] && [c][0] == c;
    assert AllDigits([c]);
    assert DigitsValue([c]) == DigitsValue([]) * 10 + (c as int - '0' as int);
  }

  /** A few of the values the Java method reads, and some it refuses. */
  lemma ParseIntExamples()
    ensures ParseInt("12") == Ok(12) && ParseInt("+3") == Ok(3) && ParseInt("-1") == Ok(-1)
    ensures ParseInt("-") == Err(NumberFormat) && ParseInt("1a") == Err(NumberFormat)
  {
    assert "12"[..1] == "1" && "12"[1] == '2';
    assert DigitsValue("12") == 12;
    assert "+3"[1..] == "3";
    assert "-1"[1..] == "1";
    assert !IsDigit("1a"[1]);
  }
}
