/** Versions and series made of single digits: how they parse, print and
    increase, and a few inputs that are refused. */
module Scenarios {
  import opened Base
  import opened Digits
  import opened SemVer
  import Php
  import V = Versions
  import RS = ReleaseSeries

  /* ---------------- versions ---------------- */

  lemma OneDigit(d: nat)
    requires d < 10
    ensures IsCanonical([DigitChar(d)]) && StringToNat([DigitChar(d)]) == d
    ensures NatToString(d) == [DigitChar(d)]
  {
    SingleDigitValue([DigitChar(d)]);
  }

  /** "a.b.c" for single digits a, b, c parses to the version "a.b.c". */
  lemma ParseDigits(a: nat, b: nat, c: nat)
    requires a < 10 && b < 10 && c < 10
    ensures var n := Dotted([DigitChar(a)], [DigitChar(b)], [DigitChar(c)]);
      && V.Parse(n) == Success(V.Version(n))
      && V.Major(V.Version(n)) == [DigitChar(a)]
      && V.Minor(V.Version(n)) == [DigitChar(b)]
      && V.Patch(V.Version(n)) == [DigitChar(c)]
  {
    OneDigit(a);
    OneDigit(b);
    OneDigit(c);
    V.ParsePlain([DigitChar(a)], [DigitChar(b)], [DigitChar(c)]);
  }

  /** Incrementing a single digit gives the next digit. */
  lemma PlusPlusDigit(d: nat)
    requires d < 9
    ensures Php.PlusPlus([DigitChar(d)]) == Some([DigitChar(d + 1)])
  {
    OneDigit(d);
    OneDigit(d + 1);
  }

  function D(d: nat): string
    requires d < 10
  {
    [DigitChar(d)]
  }

  /** a.b.c -> a.(b+1).0 for single digits. */
  lemma IncreaseMinorDigits(a: nat, b: nat, c: nat)
    requires a < 10 && b < 9 && c < 10
    ensures V.Valid(V.Version(Dotted(D(a), D(b), D(c))))
    ensures V.IncreaseMinor(V.Version(Dotted(D(a), D(b), D(c)))) == Success(V.Version(Dotted(D(a), D(b + 1), "0")))
  {
    ParseDigits(a, b, c);
    ParseDigits(a, b + 1, 0);
    PlusPlusDigit(b);
    assert D(0) == "0";
  }

  /** a.b.c -> a.b.(c+1) for single digits. */
  lemma IncreasePatchDigits(a: nat, b: nat, c: nat)
    requires a < 10 && b < 10 && c < 9
    ensures V.Valid(V.Version(Dotted(D(a), D(b), D(c))))
    ensures V.IncreasePatchLevel(V.Version(Dotted(D(a), D(b), D(c)))) == Success(V.Version(Dotted(D(a), D(b), D(c + 1))))
  {
    ParseDigits(a, b, c);
    var v := V.Version(Dotted(D(a), D(b), D(c)));
    var p := V.Pieces(v);
    assert p[0] == D(a) && p[1] == D(b) && p[2] == D(c);
    OneDigit(c);
    assert IsDigits(p[2]);
    PlusPlusDigit(c);
    assert Php.PlusPlus(p[2]) == Some(D(c + 1));
    ParseDigits(a, b, c + 1);
    assert V.IncreasePatchLevel(v) == V.Parse(Dotted(p[0], p[1], D(c + 1)));
  }

  /* ---------------- series ---------------- */

  /** Every single digit is a major series, whose first version is a.0.0. */
  lemma MajorSeriesDigit(a: nat)
    requires a < 10
    ensures RS.Parse(D(a)) == Success(RS.Series(D(a), RS.Major))
    ensures RS.Valid(RS.Series(D(a), RS.Major))
    ensures RS.FirstVersion(RS.Series(D(a), RS.Major)) == V.Version(Dotted(D(a), D(0), D(0)))
  {
    RS.ParseShape(D(a));
    assert V.StripLeadingV(D(a)) == D(a);
    FirstVersionOfDigits(RS.Series(D(a), RS.Major), a, 0);
  }

  /** The first version of a valid series whose padded number is "a.b.0". */
  lemma FirstVersionOfDigits(s: RS.Series, a: nat, b: nat)
    requires RS.Valid(s) && a < 10 && b < 10
    requires RS.AppendedNumber(s.number, s.kind) == Dotted(D(a), D(b), D(0))
    ensures RS.FirstVersion(s) == V.Version(Dotted(D(a), D(b), D(0)))
  {
    ParseDigits(a, b, 0);
  }

  /** Every "va.b" of single digits is the minor series a.b, whose first
      version is a.b.0. */
  lemma MinorSeriesDigits(a: nat, b: nat)
    requires a < 10 && b < 10
    ensures RS.Parse("v" + D(a) + "." + D(b)) == Success(RS.Series(D(a) + "." + D(b), RS.Minor))
    ensures RS.Valid(RS.Series(D(a) + "." + D(b), RS.Minor))
    ensures RS.FirstVersion(RS.Series(D(a) + "." + D(b), RS.Minor)) == V.Version(Dotted(D(a), D(b), D(0)))
  {
    var n := D(a) + "." + D(b);
    assert n[0] == DigitChar(a);
    RS.ParseShape(n);
    RS.ParseLeadingV(n);
    assert "v" + D(a) + "." + D(b) == "v" + n;
    var s := RS.Series(n, RS.Minor);
    assert RS.AppendedNumber(s.number, s.kind) == Dotted(D(a), D(b), D(0));
    FirstVersionOfDigits(s, a, b);
  }

  /** In a major series the next version after a.b.c of single digits is
      a.(b+1).0, as series 1 takes v1.1.0 to v1.2.0. */
  lemma MajorSeriesNext(s: RS.Series, a: nat, b: nat, c: nat)
    requires RS.Valid(s) && s.kind == RS.Major && a < 10 && b < 9 && c < 10
    ensures V.Valid(V.Version(Dotted(D(a), D(b), D(c))))
    ensures RS.NextVersion(s, V.Version(Dotted(D(a), D(b), D(c)))) == Success(V.Version(Dotted(D(a), D(b + 1), "0")))
  {
    IncreaseMinorDigits(a, b, c);
  }

  /** In a minor series the next version after a.b.c of single digits is
      a.b.(c+1), as series 1.1 takes v1.1.2 to v1.1.3. */
  lemma MinorSeriesNext(s: RS.Series, a: nat, b: nat, c: nat)
    requires RS.Valid(s) && s.kind == RS.Minor && a < 10 && b < 10 && c < 9
    ensures V.Valid(V.Version(Dotted(D(a), D(b), D(c))))
    ensures RS.NextVersion(s, V.Version(Dotted(D(a), D(b), D(c)))) == Success(V.Version(Dotted(D(a), D(b), D(c + 1))))
  {
    IncreasePatchDigits(a, b, c);
  }

  /** "foo", "1.0.x-dev", "1.0.1" and "v1.0.1" are no series. */
  lemma SeriesRejections()
    ensures RS.Parse("foo").Failure?
    ensures RS.Parse("1.0.x-dev").Failure?
    ensures RS.Parse("1.0.1").Failure?
    ensures RS.Parse("v1.0.1").Failure?
  {
    RS.ParseShape("foo");
    RS.ParseShape("1.0.x-dev");
    RS.ParseShape("1.0.1");
    RS.ParseShape("v1.0.1");
    assert V.StripLeadingV("v1.0.1") == "1.0.1";
  }
}
