/**
 Decimal text and integers: Python's `str()` of an int, and Python's `int()`
 restricted to what a whitespace-free command argument can hold (an optional
 sign followed by ASCII digits).
 */
module Decimal {
  import opened Wrappers

  predicate IsDigit(c: char)
  {
    '0' <= c <= '9'
  }

  predicate AllDigits(s: string)
  {
    forall i :: 0 <= i < |s| ==> IsDigit(s[i])
  }

  function DigitValue(c: char): (d: nat)
    requires IsDigit(c)
    ensures d < 10
  {
    c as int - '0' as int
  }

  function DigitChar(d: nat): (c: char)
    requires d < 10
    ensures IsDigit(c) && DigitValue(c) == d
  {
    ('0' as int + d) as char
  }

  /** The value of a string of ASCII digits, most significant digit first. */
  function DigitsValue(s: string): nat
    requires AllDigits(s)
  {
    if |s| == 0 then 0 else DigitsValue(s[..|s| - 1]) * 10 + DigitValue(s[|s| - 1])
  }

  predicate IsSign(c: char)
  {
    c == '+' || c == '-'
  }

  /** The texts `int()` accepts here: an optional sign, then one or more ASCII digits. */
  predicate IsIntLiteral(s: string)
  {
    if |s| > 0 && IsSign(s[0]) then |s| > 1 && AllDigits(s[1..])
    else |s| > 0 && AllDigits(s)
  }

  /** `int(s)`; `None` stands for the ValueError Python raises. */
  function ParseInt(s: string): (r: Option<int>)
    ensures r.Some? <==> IsIntLiteral(s)
    ensures r.Some? && s[0] == '-' ==> r.value <= 0
    ensures r.Some? && s[0] != '-' ==> r.value >= 0
    ensures r.Some? ==>
              r.value == if s[0] == '-' then -(DigitsValue(s[1..]) as int)
                         else if s[0] == '+' then DigitsValue(s[1..]) as int
                         else DigitsValue(s) as int
  {
    if |s| == 0 then None
    else if IsSign(s[0]) then
      var digits := s[1..];
      if |digits| > 0 && AllDigits(digits) then
        var magnitude: int := DigitsValue(digits);
        Some(if s[0] == '-' then -magnitude else magnitude)
      else None
    else if AllDigits(s) then Some(DigitsValue(s))
    else None
  }

  /** `str(n)` for a non-negative `n`: digits only, no leading zero. */
  function NatToString(n: nat): (s: string)
    ensures |s| > 0 && AllDigits(s)
    ensures DigitsValue(s) == n
    ensures s[0] == '0' ==> n == 0
    ensures |s| > 1 ==> s[0] != '0'
  {
    if n < 10 then [DigitChar(n)]
    else
      var s := NatToString(n / 10) + [DigitChar(n % 10)];
      assert s[..|s| - 1] == NatToString(n / 10);
      s
  }

  /**
   `str(n)`: the canonical decimal text of `n`, a minus sign for negatives and
   no leading zeros. `int()` reads it back as `n`, and it holds no underscore.
   */
  function IntToString(n: int): (s: string)
    ensures ParseInt(s) == Some(n)
    ensures '_' !in s
    ensures n >= 0 <==> AllDigits(s)
    ensures n >= 0 ==> |s| > 1 ==> s[0] != '0'
    ensures n < 0 ==> |s| > 1 && s[0] == '-' && s[1] != '0'
  {
    if n < 0 then
      var s := "-" + NatToString(-n);
      assert s[1..] == NatToString(-n);
      s
    else NatToString(n)
  }

  /** Distinct integers have distinct texts, so `str()` keys identify users. */
  lemma IntToStringInjective(a: int, b: int)
    requires IntToString(a) == IntToString(b)
    ensures a == b
  {
    assert Some(a) == ParseInt(IntToString(a)) == ParseInt(IntToString(b)) == Some(b);
  }

  /** A leading zero does not change the value of a digit string. */
  lemma {:induction false} LeadingZeroIgnored(s: string)
    requires AllDigits(s)
    ensures AllDigits("0" + s) && DigitsValue("0" + s) == DigitsValue(s)
    decreases |s|
  {
    var t := "0" + s;
    assert AllDigits(t) by {
      forall i | 0 <= i < |t| ensures IsDigit(t[i]) {
        if i > 0 { assert t[i] == s[i - 1]; }
      }
    }
    if |s| > 0 {
      assert t[..|t| - 1] == "0" + s[..|s| - 1];
      LeadingZeroIgnored(s[..|s| - 1]);
    }
  }

  /** `int()` ignores leading zeros: "007" reads as 7, whose text is "7". */
  lemma ZeroPaddedLiteral(s: string)
    requires |s| > 0 && AllDigits(s)
    ensures ParseInt("0" + s) == ParseInt(s)
  {
    LeadingZeroIgnored(s);
  }

  /** A non-empty digit string is canonical when it has no leading zero (except "0" itself). */
  predicate IsCanonicalDigits(d: string)
  {
    |d| > 0 && AllDigits(d) && (|d| > 1 ==> d[0] != '0')
  }

  /** The digit string with its leading zeros removed, keeping at least one digit. */
  function StripZeros(d: string): (r: string)
    requires |d| > 0 && AllDigits(d)
    ensures IsCanonicalDigits(r)
    ensures DigitsValue(r) == DigitsValue(d)
  {
    if |d| > 1 && d[0] == '0' then
      assert d == "0" + d[1..];
      LeadingZeroIgnored(d[1..]);
      StripZeros(d[1..])
    else d
  }

  /**
   The canonical text of an integer literal: the sign `+` dropped, leading
   zeros dropped, and `-` kept only in front of a non-zero magnitude.
   */
  function CanonicalLiteral(s: string): string
    requires IsIntLiteral(s)
  {
    if IsSign(s[0]) then
      var z := StripZeros(s[1..]);
      if s[0] == '-' && z != "0" then "-" + z else z
    else StripZeros(s)
  }

  lemma {:induction false} CanonicalDigitsPositive(d: string)
    requires IsCanonicalDigits(d) && d != "0"
    ensures DigitsValue(d) > 0
    decreases |d|
  {
    if |d| > 1 {
      var p := d[..|d| - 1];
      assert p[0] == d[0];
      CanonicalDigitsPositive(p);
    }
  }

  /** `str()` gives back every canonical digit string from its value. */
  lemma {:induction false} NatToStringOfCanonical(d: string)
    requires IsCanonicalDigits(d)
    ensures NatToString(DigitsValue(d)) == d
    decreases |d|
  {
    if |d| > 1 {
      var p := d[..|d| - 1];
      var c := d[|d| - 1];
      assert p[0] == d[0];
      CanonicalDigitsPositive(p);
      NatToStringOfCanonical(p);
      var n := DigitsValue(d);
      assert n == DigitsValue(p) * 10 + DigitValue(c);
      assert n / 10 == DigitsValue(p) && n % 10 == DigitValue(c);
      assert DigitChar(DigitValue(c)) == c;
      assert d == p + [c];
    } else {
      assert DigitChar(DigitValue(d[0])) == d[0];
    }
  }

  /**
   Parsing a literal and printing the value gives the literal's canonical
   text: `int("+007")` prints as "7", `int("-0")` as "0", `int("-012")` as "-12".
   */
  lemma ParseThenPrintIsCanonical(s: string)
    requires IsIntLiteral(s)
    ensures ParseInt(s).Some?
    ensures IntToString(ParseInt(s).value) == CanonicalLiteral(s)
  {
    var d := if IsSign(s[0]) then s[1..] else s;
    var z := StripZeros(d);
    NatToStringOfCanonical(z);
    if s[0] == '-' && z != "0" {
      CanonicalDigitsPositive(z);
    }
  }

}
