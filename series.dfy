/** A release series: a major line "N" or a minor line "N.M". The kind is
    decided by the length of the number alone (1: major, 3: minor), and the
    number is validated by padding it to a full version. */
module ReleaseSeries {
  import opened Base
  import opened Digits
  import opened Text
  import opened SemVer
  import V = Versions

  datatype Kind = Major | Minor

  /** `number` is stored without its leading 'v'. */
  datatype Series = Series(number: string, kind: Kind)

  /** `calculateSeriesType`: the kind by string length, None for unknown. */
  function KindOfLength(length: nat): (k: Option<Kind>)
    ensures k == Some(Major) <==> length == 1
    ensures k == Some(Minor) <==> length == 3
  {
    if length == 1 then Some(Major) else if length == 3 then Some(Minor) else None
  }

  /** `getAppendedNumber`: the number padded to a full version. */
  function AppendedNumber(number: string, kind: Kind): (r: string)
    ensures number <= r
    ensures forall i :: |number| <= i < |r| ==> r[i] == '.' || r[i] == '0'
    ensures KindOfLength(|number|) == Some(kind) ==> |r| == 5
  {
    match kind
    case Major => number + ".0.0"
    case Minor => number + ".0"
  }

  predicate Valid(s: Series)
  {
    KindOfLength(|s.number|) == Some(s.kind) && IsVersion(AppendedNumber(s.number, s.kind))
  }

  function InvalidSeriesMessage(input: string): string
  {
    "Given value " + input + " is not a valid series number"
  }

  /** The constructor. */
  function Parse(input: string): (r: Result<Series>)
    ensures r.Success? <==>
      var n := V.StripLeadingV(input);
      KindOfLength(|n|).Some? && IsVersion(AppendedNumber(n, KindOfLength(|n|).value))
    ensures r.Success? ==> Valid(r.value) && r.value.number == V.StripLeadingV(input)
    ensures r.Failure? ==> r.error == InvalidSeries(InvalidSeriesMessage(input))
  {
    var number := V.StripLeadingV(input);
    match KindOfLength(|number|)
    case None => Failure(InvalidSeries(InvalidSeriesMessage(input)))
    case Some(kind) =>
      if IsVersion(AppendedNumber(number, kind)) then Success(Series(number, kind))
      else Failure(InvalidSeries(InvalidSeriesMessage(input)))
  }

  /** The printed form. */
  function ToString(s: Series): (r: string)
    ensures V.StripLeadingV(r) == s.number
  {
    "v" + s.number
  }

  /** The shapes a series number can have: one digit, or digit '.' digit. */
  predicate IsSeriesShape(n: string)
  {
    || (|n| == 1 && IsDigit(n[0]))
    || (|n| == 3 && IsDigit(n[0]) && n[1] == '.' && IsDigit(n[2]))
  }

  /** A padded number is a version exactly when the number has a series
      shape that fits its kind. */
  lemma AppendedIsVersion(n: string, kind: Kind)
    requires KindOfLength(|n|) == Some(kind)
    ensures IsVersion(AppendedNumber(n, kind)) <==> IsSeriesShape(n)
  {
    if IsSeriesShape(n) {
      ShapeIsVersion(n, kind);
    }
    if IsVersion(AppendedNumber(n, kind)) {
      VersionIsShape(n, kind);
    }
  }

  lemma ShapeIsVersion(n: string, kind: Kind)
    requires KindOfLength(|n|) == Some(kind) && IsSeriesShape(n)
    ensures IsVersion(AppendedNumber(n, kind))
  {
    var a := AppendedNumber(n, kind);
    if kind == Major {
      assert a == Dotted(n, "0", "0");
      PlainIsVersion(n, "0", "0");
    } else {
      assert a == Dotted([n[0]], [n[2]], "0");
      PlainIsVersion([n[0]], [n[2]], "0");
    }
  }

  lemma VersionIsShape(n: string, kind: Kind)
    requires KindOfLength(|n|) == Some(kind) && IsVersion(AppendedNumber(n, kind))
    ensures IsSeriesShape(n)
  {
    var a := AppendedNumber(n, kind);
    VersionParts(a);
    var p := Split(a, '.');
    JoinStarts(p[2..], '.');
    assert a[0] == p[0][0];
    if kind == Minor {
      assert |a| == 5;
      assert |p[0]| == 1 && |p[1]| == 1;
      assert a[1] == '.' && a[2] == p[1][0];
      assert n == a[..3];
    }
  }

  /** Which inputs are series: after one optional 'v', a single digit
      (major) or digit '.' digit (minor), and nothing else; so "10",
      "1.10", "1.0.1" and "foo" are all rejected. */
  lemma ParseShape(input: string)
    ensures var n := V.StripLeadingV(input);
      && (Parse(input).Success? <==> IsSeriesShape(n))
      && (Parse(input).Success? ==> Parse(input).value.kind == (if |n| == 1 then Major else Minor))
  {
    var n := V.StripLeadingV(input);
    if KindOfLength(|n|).Some? {
      AppendedIsVersion(n, KindOfLength(|n|).value);
    }
  }

  /** The padded number of a series parses as a plain version, whose pieces
      are the digits of the series and zeros. */
  lemma AppendedParses(s: Series)
    requires KindOfLength(|s.number|) == Some(s.kind) && IsSeriesShape(s.number)
    ensures var r := V.Parse(AppendedNumber(s.number, s.kind));
      && r.Success? && V.Valid(r.value) && V.IsPlain(r.value) && V.Patch(r.value) == "0"
      && (s.kind == Major ==> V.Major(r.value) == s.number && V.Minor(r.value) == "0")
      && (s.kind == Minor ==> V.Major(r.value) == [s.number[0]] && V.Minor(r.value) == [s.number[2]])
  {
    var a := AppendedNumber(s.number, s.kind);
    var major, minor := if s.kind == Major then s.number else [s.number[0]],
                        if s.kind == Major then "0" else [s.number[2]];
    assert a == Dotted(major, minor, "0");
    V.ParsePlain(major, minor, "0");
  }

  /** `getFirstVersion`: N.0.0 for a major series, N.M.0 for a minor one; the
      Version constructor it calls never throws for a constructed series. */
  function FirstVersion(s: Series): (r: V.Version)
    requires Valid(s)
    ensures V.Parse(AppendedNumber(s.number, s.kind)) == Success(r)
    ensures V.Valid(r) && V.IsPlain(r) && V.Patch(r) == "0"
    ensures s.kind == Major ==> V.Major(r) == s.number && V.Minor(r) == "0"
    ensures s.kind == Minor ==> V.Major(r) == [s.number[0]] && V.Minor(r) == [s.number[2]]
  {
    AppendedIsVersion(s.number, s.kind);
    AppendedParses(s);
    V.Parse(AppendedNumber(s.number, s.kind)).value
  }

  /** `getNextVersion`: a major series bumps the minor of the current
      version, a minor series bumps its patch level. */
  function NextVersion(s: Series, current: V.Version): (r: Result<V.Version>)
    requires Valid(s) && V.Valid(current)
    ensures s.kind == Major ==> r == V.IncreaseMinor(current)
    ensures s.kind == Minor ==> r == V.IncreasePatchLevel(current)
    ensures s.kind == Major && r.Success? ==>
      V.Major(r.value) == V.Major(current) && V.Patch(r.value) == "0"
      && StringToNat(V.Minor(r.value)) == StringToNat(V.Minor(current)) + 1
    ensures s.kind == Minor && V.IsPlain(current) && r.Success? ==>
      V.Major(r.value) == V.Major(current) && V.Minor(r.value) == V.Minor(current)
      && StringToNat(V.Patch(r.value)) == StringToNat(V.Patch(current)) + 1
  {
    match s.kind
    case Major => V.IncreaseMinor(current)
    case Minor => V.IncreasePatchLevel(current)
  }

  /** Round trip: parsing the printed form gives the same series back. */
  lemma ParseToString(s: Series)
    requires Valid(s)
    ensures Parse(ToString(s)) == Success(s)
  {
    assert ToString(s)[1..] == s.number;
  }

  /** "v1.1" and "1.1" are the same series, printed "v1.1". */
  lemma ParseLeadingV(n: string)
    requires !StartsWith(n, "v")
    ensures Parse("v" + n).Success? <==> Parse(n).Success?
    ensures Parse(n).Success? ==>
      Parse("v" + n).value == Parse(n).value && ToString(Parse(n).value) == "v" + n
  {
    assert ("v" + n)[1..] == n;
  }

  /** The first version prints as the series followed by the padding. */
  lemma FirstVersionPrintsSeries(s: Series)
    requires Valid(s)
    ensures V.ToString(FirstVersion(s)) == ToString(s) + (if s.kind == Major then ".0.0" else ".0")
  {
    var pad := if s.kind == Major then ".0.0" else ".0";
    var a := AppendedNumber(s.number, s.kind);
    assert a == s.number + pad;
    assert a[0] == s.number[0];
    assert V.StripLeadingV(a) == a;
    assert FirstVersion(s).number == a;
    assert "v" + a == ("v" + s.number) + pad;
  }
}
