/**
 * 32-bit integers as the services see them: `int.Parse`/`int.TryParse` of a
 * claim or a route value, `int.ToString()`, and the wrap-around of unchecked
 * 32-bit arithmetic.
 */
module Numbers {
  import opened Common

  const MinInt32: int := -0x8000_0000
  const MaxInt32: int := 0x7FFF_FFFF

  predicate IsInt32(x: int) { MinInt32 <= x <= MaxInt32 }

  /** Unchecked 32-bit two's-complement arithmetic: the value congruent to `x` in range. */
  function Wrap32(x: int): (r: int)
    ensures IsInt32(r)
    ensures (x - r) % 0x1_0000_0000 == 0
    ensures IsInt32(x) ==> r == x
  {
    (x - MinInt32) % 0x1_0000_0000 + MinInt32
  }

  predicate IsDigit(c: char) { '0' <= c <= '9' }

  predicate AllDigits(s: string) { forall i :: 0 <= i < |s| ==> IsDigit(s[i]) }

  /** The value of a string of decimal digits, most significant first. */
  function DigitsValue(s: string): (n: nat)
    requires AllDigits(s)
  {
    if |s| == 0 then 0 else DigitsValue(s[..|s| - 1]) * 10 + (s[|s| - 1] as int - '0' as int)
  }

  /** The shortest decimal spelling of `n` (no leading zeros). */
  function NatToDigits(n: nat): (s: string)
  {
    if n < 10 then [('0' as int + n) as char]
    else NatToDigits(n / 10) + [('0' as int + n % 10) as char]
  }

  /** `int.ToString()` with the invariant culture: a minus sign, then the digits. */
  function Int32ToString(n: int): string
  {
    if n < 0 then "-" + NatToDigits(-n) else NatToDigits(n)
  }

  /**
   * `int.TryParse` / `int.Parse` on an optional leading sign followed by
   * decimal digits; anything else, and any value outside 32 bits, fails.
   */
  function ParseInt32(s: string): (r: Option<int>)
    ensures r.Some? ==> IsInt32(r.value)
    ensures r.Some? ==> |s| > 0
  {
    if |s| == 0 then None
    else if s[0] == '-' || s[0] == '+' then
      var digits := s[1..];
      if |digits| > 0 && AllDigits(digits) then
        var v: int := if s[0] == '-' then -(DigitsValue(digits) as int) else DigitsValue(digits);
        if IsInt32(v) then Some(v) else None
      else None
    else if AllDigits(s) && DigitsValue(s) <= MaxInt32 then Some(DigitsValue(s))
    else None
  }

  lemma {:induction false} NatToDigitsCorrect(n: nat)
    ensures |NatToDigits(n)| > 0
    ensures AllDigits(NatToDigits(n))
    ensures DigitsValue(NatToDigits(n)) == n
  {
    var s := NatToDigits(n);
    if n >= 10 {
      NatToDigitsCorrect(n / 10);
      assert s[..|s| - 1] == NatToDigits(n / 10);
    }
  }

  /** Printing a 32-bit value and parsing it back gives the value again. */
  lemma ParseInt32ToString(n: int)
    requires IsInt32(n)
    ensures ParseInt32(Int32ToString(n)) == Some(n)
  {
    var m := if n < 0 then -n else n;
    NatToDigitsCorrect(m);
    var s := Int32ToString(n);
    if n < 0 {
      assert s[1..] == NatToDigits(m);
    } else {
      assert IsDigit(s[0]);
    }
  }

  /** Text that starts with neither a sign nor a digit is rejected (a missing claim reads as 0). */
  lemma ParseRejectsNonDigits(s: string)
    requires |s| > 0 && !IsDigit(s[0]) && s[0] != '-' && s[0] != '+'
    ensures ParseInt32(s) == None
  {
    assert !AllDigits(s);
  }
}
