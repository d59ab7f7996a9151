/**
  Java's decimal rendering of a `Long` (as used by string concatenation) and
  its inverse. The registry's delete message embeds the id this way, and the
  parser shows that the id can be read back from the message.
 */
module Decimal {

  import opened Web

  predicate IsDigit(c: char) {
    '0' <= c <= '9'
  }

  predicate AllDigits(s: string) {
    forall i :: 0 <= i < |s| ==> IsDigit(s[i])
  }

  function DigitChar(d: nat): char
    requires d < 10
  {
    ['0', '1', '2', '3', '4', '5', '6', '7', '8', '9'][d]
  }

  function DigitValue(c: char): nat
    requires IsDigit(c)
  {
    (c as int - '0' as int) as nat
  }

  /** The digits of `n`, most significant first, without leading zeros. */
  function NatToDigits(n: nat): (s: string)
    ensures 1 <= |s|
    ensures AllDigits(s)
    ensures |s| > 1 ==> s[0] != '0'
    decreases n
  {
    if n < 10 then [DigitChar(n)] else NatToDigits(n / 10) + [DigitChar(n % 10)]
  }

  /** The value of a string of decimal digits, most significant first. */
  function DigitsToNat(s: string): nat
    requires AllDigits(s)
    decreases |s|
  {
    if |s| == 0 then 0 else DigitsToNat(s[..|s| - 1]) * 10 + DigitValue(s[|s| - 1])
  }

  /** `Long.toString`: a minus sign for negatives, then the digits. */
  function LongToString(n: int): (s: string)
    ensures 1 <= |s|
    ensures n >= 0 <==> s[0] != '-'
  {
    if n < 0 then "-" + NatToDigits(-n) else NatToDigits(n)
  }

  /** Reads back what `LongToString` writes; `None` for anything else. */
  function ParseLong(s: string): Option<int>
  {
    if 2 <= |s| && s[0] == '-' && AllDigits(s[1..]) then Some(-(DigitsToNat(s[1..]) as int))
    else if 1 <= |s| && AllDigits(s) then Some(DigitsToNat(s))
    else None
  }

  lemma {:induction false} DigitsRoundTrip(n: nat)
    ensures DigitsToNat(NatToDigits(n)) == n
    decreases n
  {
    if n < 10 {
      assert NatToDigits(n) == [DigitChar(n)];
      assert NatToDigits(n)[..0] == [];
    } else {
      var s := NatToDigits(n);
      assert s == NatToDigits(n / 10) + [DigitChar(n % 10)];
      assert s[..|s| - 1] == NatToDigits(n / 10);
      DigitsRoundTrip(n / 10);
    }
  }

  /** Rendering an id and parsing it back yields the same id, so distinct ids
      render distinctly. */
  lemma LongRoundTrip(n: int)
    ensures ParseLong(LongToString(n)) == Some(n)
  {
    if n < 0 {
      var d := NatToDigits(-n);
      var s := "-" + d;
      assert s == LongToString(n);
      assert s[1..] == d;
      DigitsRoundTrip(-n);
      assert ParseLong(s) == Some(-(DigitsToNat(d) as int));
    } else {
      var d := NatToDigits(n);
      assert d == LongToString(n);
      assert IsDigit(d[0]);
      DigitsRoundTrip(n);
      assert ParseLong(d) == Some(DigitsToNat(d) as int);
    }
  }

  lemma LongToStringInjective(a: int, b: int)
    ensures LongToString(a) == LongToString(b) ==> a == b
  {
    LongRoundTrip(a);
    LongRoundTrip(b);
  }
}
