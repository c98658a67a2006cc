/** Base-10 numerals: rendering naturals and integers the way Arduino's
    `String(unsigned long)` and a JSON number do, and reading them back. */
module Decimal {
  import opened Wrappers

  predicate IsDigit(c: char) {
    '0' <= c <= '9'
  }

  function DigitValue(c: char): nat
    requires IsDigit(c)
  {
    (c as int) - ('0' as int)
  }

  function DigitChar(d: nat): (c: char)
    requires d < 10
    ensures IsDigit(c) && DigitValue(c) == d
  {
    (('0' as int) + d) as char
  }

  predicate AllDigits(s: string) {
    forall i :: 0 <= i < |s| ==> IsDigit(s[i])
  }

  /** A canonical numeral: at least one digit, and no leading zero unless it is "0". */
  predicate IsNumeral(s: string) {
    |s| > 0 && AllDigits(s) && (s[0] == '0' ==> |s| == 1)
  }

  /** Decimal rendering of a natural number, most significant digit first. */
  function FromNat(n: nat): (s: string)
    ensures IsNumeral(s)
    ensures s[0] == '0' <==> n == 0
    decreases n
  {
    if n < 10 then [DigitChar(n)] else FromNat(n / 10) + [DigitChar(n % 10)]
  }

  /** The value of a string of digits (0 for the empty string). */
  function ToNat(s: string): nat
    requires AllDigits(s)
    decreases |s|
  {
    if |s| == 0 then 0 else ToNat(s[..|s| - 1]) * 10 + DigitValue(s[|s| - 1])
  }

  lemma {:induction false} ToNatFromNat(n: nat)
    ensures ToNat(FromNat(n)) == n
    decreases n
  {
    if n >= 10 {
      var s := FromNat(n);
      assert s[..|s| - 1] == FromNat(n / 10);
      ToNatFromNat(n / 10);
    }
  }

  /** A digit string that does not start with '0' has a value of at least 1,
      and of at least 10 once it has two digits. */
  lemma {:induction false} LeadingDigitBound(s: string)
    requires |s| > 0 && AllDigits(s) && s[0] != '0'
    ensures ToNat(s) >= 1
    ensures |s| >= 2 ==> ToNat(s) >= 10
    decreases |s|
  {
    if |s| >= 2 {
      LeadingDigitBound(s[..|s| - 1]);
    }
  }

  lemma {:induction false} FromNatToNat(s: string)
    requires IsNumeral(s)
    ensures FromNat(ToNat(s)) == s
    decreases |s|
  {
    if |s| >= 2 {
      var prefix := s[..|s| - 1];
      LeadingDigitBound(s);
      LeadingDigitBound(prefix);
      FromNatToNat(prefix);
      var n := ToNat(s);
      assert n / 10 == ToNat(prefix);
      assert n % 10 == DigitValue(s[|s| - 1]);
      assert s == prefix + [s[|s| - 1]];
    }
  }

  /** Decimal rendering of an integer: a '-' sign before the magnitude when negative. */
  function FromInt(i: int): string {
    if i < 0 then "-" + FromNat(-i) else FromNat(i)
  }

  /** A rendered integer holds digits and possibly a sign, nothing else. */
  lemma FromIntChars(i: int)
    ensures forall k :: 0 <= k < |FromInt(i)| ==> IsDigit(FromInt(i)[k]) || FromInt(i)[k] == '-'
  {
  }

  /** A canonical signed numeral: a numeral, or '-' before a non-zero numeral. */
  predicate IsSignedNumeral(s: string) {
    IsNumeral(s) || (|s| >= 2 && s[0] == '-' && IsNumeral(s[1..]) && s[1] != '0')
  }

  /** Reads a canonical signed numeral; anything else is rejected. */
  function ToInt(s: string): (r: Option<int>)
    ensures r.Some? <==> IsSignedNumeral(s)
    ensures r.Some? && |s| > 0 && s[0] == '-' ==> r.value < 0
    ensures r.Some? && |s| > 0 && s[0] != '-' ==> r.value >= 0
  {
    if IsNumeral(s) then Some(ToNat(s))
    else if |s| >= 2 && s[0] == '-' && IsNumeral(s[1..]) && s[1] != '0' then
      LeadingDigitBound(s[1..]);
      var v := -(ToNat(s[1..]) as int);
      Some(v)
    else None
  }

  lemma ToIntFromInt(i: int)
    ensures ToInt(FromInt(i)) == Some(i)
  {
    var s := FromInt(i);
    if i < 0 {
      assert s[1..] == FromNat(-i);
      ToNatFromNat(-i);
    } else {
      ToNatFromNat(i);
    }
  }

  lemma FromIntToInt(s: string)
    requires ToInt(s).Some?
    ensures FromInt(ToInt(s).value) == s
  {
    if IsNumeral(s) {
      FromNatToNat(s);
    } else {
      LeadingDigitBound(s[1..]);
      FromNatToNat(s[1..]);
      assert s == "-" + s[1..];
    }
  }
}
