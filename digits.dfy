/** Decimal digit strings and the naturals they denote: the conversions PHP
    performs implicitly when it increments a numeric string and prints the
    resulting integer. */
module Digits {

  predicate IsDigit(c: char) { '0' <= c <= '9' }

  predicate IsDigits(s: string) { forall i :: 0 <= i < |s| ==> IsDigit(s[i]) }

  /** A non-empty digit string without a leading zero ("0" itself allowed):
      the form PHP prints an integer in. */
  predicate IsCanonical(s: string)
  {
    |s| > 0 && IsDigits(s) && (|s| == 1 || s[0] != '0')
  }

  function DigitValue(c: char): (d: nat)
    requires IsDigit(c)
    ensures d < 10
  {
    c as int - '0' as int
  }

  function DigitChar(d: nat): (c: char)
    requires d < 10
    ensures IsDigit(c) && DigitValue(c) == d
  {
    ('0' as int + d) as char
  }

  /** The value of a digit string, most significant digit first. */
  function StringToNat(s: string): nat
    requires IsDigits(s)
    decreases |s|
  {
    if s == [] then 0 else 10 * StringToNat(s[..|s| - 1]) + DigitValue(s[|s| - 1])
  }

  /** The decimal text of n, as PHP prints an integer. */
  function NatToString(n: nat): (r: string)
    ensures IsCanonical(r)
  {
    if n < 10 then [DigitChar(n)]
    else
      var prefix := NatToString(n / 10);
      assert prefix[0] != '0' by {
        if |prefix| == 1 { SingleDigitValue(prefix); }
      }
      prefix + [DigitChar(n % 10)]
  }

  /** The decimal text of a signed integer, with a leading '-' when negative. */
  function IntToString(i: int): (r: string)
    ensures i >= 0 ==> r == NatToString(i)
    ensures i < 0 ==> r == "-" + NatToString(-i)
  {
    if i < 0 then "-" + NatToString(-i) else NatToString(i)
  }

  lemma SingleDigitValue(s: string)
    requires |s| == 1 && IsDigit(s[0])
    ensures StringToNat(s) == DigitValue(s[0])
  {
    assert s[..0] == [];
  }

  /** Printing and reading back a natural gives that natural. */
  lemma {:induction false} StringToNatOfNatToString(n: nat)
    ensures StringToNat(NatToString(n)) == n
  {
    var r := NatToString(n);
    if n < 10 {
      SingleDigitValue(r);
    } else {
      var prefix := NatToString(n / 10);
      assert r == prefix + [DigitChar(n % 10)];
      assert r[..|r| - 1] == prefix;
      StringToNatOfNatToString(n / 10);
    }
  }

  /** A digit string that does not start with '0' denotes a positive number. */
  lemma {:induction false} LeadingNonZeroIsPositive(s: string)
    requires |s| > 0 && IsDigits(s) && s[0] != '0'
    ensures StringToNat(s) >= 1
  {
    if |s| == 1 {
      SingleDigitValue(s);
    } else {
      var p := s[..|s| - 1];
      assert p[0] == s[0];
      LeadingNonZeroIsPositive(p);
    }
  }

  /** Reading and printing back a canonical digit string gives that string. */
  lemma {:induction false} NatToStringOfStringToNat(s: string)
    requires IsCanonical(s)
    ensures NatToString(StringToNat(s)) == s
  {
    if |s| == 1 {
      SingleDigitValue(s);
      assert NatToString(StringToNat(s)) == [s[0]];
    } else {
      var p := s[..|s| - 1];
      assert p[0] == s[0];
      assert IsCanonical(p);
      LeadingNonZeroIsPositive(p);
      NatToStringOfStringToNat(p);
      var n := StringToNat(s);
      assert n / 10 == StringToNat(p) && n % 10 == DigitValue(s[|s| - 1]);
      assert s == p + [s[|s| - 1]];
    }
  }
}
