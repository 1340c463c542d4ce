/** The version value: a validated number without its leading 'v', the two
    increments the release series need, and the printed form. */
module Versions {
  import opened Base
  import opened Digits
  import opened Text
  import opened Php
  import opened SemVer

  /** `number` is the text as stored by the constructor, without the 'v'. */
  datatype Version = Version(number: string)

  predicate Valid(v: Version)
  {
    IsVersion(v.number)
  }

  /** Exactly one leading 'v' is removed, when present. */
  function StripLeadingV(s: string): (r: string)
    ensures StartsWith(s, "v") ==> s == "v" + r
    ensures !StartsWith(s, "v") ==> r == s
  {
    if |s| > 0 && s[0] == 'v' then s[1..] else s
  }

  function InvalidVersionMessage(input: string): string
  {
    "Given value " + input + " is not a valid version number"
  }

  /** The constructor: strip one 'v', then validate; the error message
      quotes the input as given. */
  function Parse(input: string): (r: Result<Version>)
    ensures r.Success? <==> IsVersion(StripLeadingV(input))
    ensures r.Success? ==> Valid(r.value) && r.value.number == StripLeadingV(input)
    ensures r.Failure? ==> r.error == InvalidVersion(InvalidVersionMessage(input))
  {
    var number := StripLeadingV(input);
    if IsVersion(number) then Success(Version(number))
    else Failure(InvalidVersion(InvalidVersionMessage(input)))
  }

  /** The printed form. */
  function ToString(v: Version): (r: string)
    ensures StripLeadingV(r) == v.number
  {
    "v" + v.number
  }

  /** The number split at '.': a canonical major and minor, then a third
      piece that starts with the patch number and may carry the start of a
      pre-release or build suffix. */
  function Pieces(v: Version): (p: seq<string>)
    requires Valid(v)
    ensures |p| >= 3 && IsCanonical(p[0]) && IsCanonical(p[1])
    ensures |p[2]| > 0 && IsDigit(p[2][0])
    ensures IsDigits(p[2]) <==> IsPlain(v)
    ensures IsPlain(v) ==> |p| == 3 && IsCanonical(p[2]) && v.number == Dotted(p[0], p[1], p[2])
  {
    VersionParts(v.number);
    Split(v.number, '.')
  }

  function Major(v: Version): string
    requires Valid(v)
  {
    Pieces(v)[0]
  }

  function Minor(v: Version): string
    requires Valid(v)
  {
    Pieces(v)[1]
  }

  function Patch(v: Version): string
    requires Valid(v)
  {
    Pieces(v)[2]
  }

  /** A version without pre-release and build suffix. */
  predicate IsPlain(v: Version)
  {
    IsNormalVersion(v.number)
  }

  /** A version number is not stripped of anything. */
  lemma ParseVersionNumber(n: string)
    requires IsVersion(n) && |n| > 0 && n[0] != 'v'
    ensures Parse(n) == Success(Version(n))
  {
    assert StripLeadingV(n) == n;
  }

  /** Three canonical numbers joined by dots parse as that plain version,
      whose pieces they are. */
  lemma ParsePlain(a: string, b: string, c: string)
    requires IsCanonical(a) && IsCanonical(b) && IsCanonical(c)
    ensures Parse(Dotted(a, b, c)) == Success(Version(Dotted(a, b, c)))
    ensures var v := Version(Dotted(a, b, c));
      Valid(v) && IsPlain(v) && Major(v) == a && Minor(v) == b && Patch(v) == c
  {
    var d := Dotted(a, b, c);
    PlainIsVersion(a, b, c);
    assert d[0] == a[0];
    ParseVersionNumber(d);
    assert Pieces(Version(d)) == [a, b, c];
  }

  /** `increaseMinor`: the major kept, the minor one higher, the patch 0 and
      any suffix dropped. It fails only when PHP's increment of the minor
      overflows into a float. */
  function IncreaseMinor(v: Version): (r: Result<Version>)
    requires Valid(v)
    ensures r.Failure? <==> StringToNat(Minor(v)) >= PHP_INT_MAX
    ensures r.Failure? ==> r.error == IncrementOverflow(v.number)
    ensures r.Success? ==>
      && Valid(r.value) && IsPlain(r.value)
      && r.value.number == Dotted(Major(r.value), Minor(r.value), "0")
      && Major(r.value) == Major(v) && Patch(r.value) == "0"
      && StringToNat(Minor(r.value)) == StringToNat(Minor(v)) + 1
  {
    var p := Pieces(v);
    match PlusPlus(p[1])
    case None => Failure(IncrementOverflow(v.number))
    case Some(minor) =>
      ParsePlain(p[0], minor, "0");
      Parse(Dotted(p[0], minor, "0"))
  }

  /** `increasePatchLevel`. On a plain version: major and minor kept and the
      patch one higher, failing only on overflow. On a version with a
      suffix the third piece (the patch with the start of the suffix, up to
      the next '.') is not a number, so PHP increments it as a string, and
      the result is validated like any other input. */
  function IncreasePatchLevel(v: Version): (r: Result<Version>)
    requires Valid(v)
    ensures IsPlain(v) ==> (r.Failure? <==> StringToNat(Patch(v)) >= PHP_INT_MAX)
    ensures IsPlain(v) && r.Failure? ==> r.error == IncrementOverflow(v.number)
    ensures IsPlain(v) && r.Success? ==>
      && Valid(r.value) && IsPlain(r.value)
      && r.value.number == Dotted(Major(r.value), Minor(r.value), Patch(r.value))
      && Major(r.value) == Major(v) && Minor(r.value) == Minor(v)
      && StringToNat(Patch(r.value)) == StringToNat(Patch(v)) + 1
    ensures !IsPlain(v) ==> r == Parse(Dotted(Major(v), Minor(v), StringIncrement(Patch(v))))
  {
    var p := Pieces(v);
    match PlusPlus(p[2])
    case None => Failure(IncrementOverflow(v.number))
    case Some(patch) =>
      if IsDigits(p[2]) then
        ParsePlain(p[0], p[1], patch);
        Parse(Dotted(p[0], p[1], patch))
      else
        Parse(Dotted(p[0], p[1], patch))
  }

  /** Round trip: parsing the printed form gives the same version back. */
  lemma ParseToString(v: Version)
    requires Valid(v)
    ensures Parse(ToString(v)) == Success(v)
  {
    assert ToString(v)[1..] == v.number;
  }

  /** With or without one leading 'v', the same version results, printed
      with exactly one 'v'. */
  lemma ParseLeadingV(s: string)
    requires !StartsWith(s, "v")
    ensures Parse("v" + s).Success? <==> Parse(s).Success?
    ensures Parse(s).Success? ==>
      Parse("v" + s).value == Parse(s).value && ToString(Parse(s).value) == "v" + s
  {
    assert ("v" + s)[1..] == s;
  }

  /** A version number starts with a digit. */
  lemma VersionStartsWithDigit(s: string)
    requires IsVersion(s)
    ensures |s| > 0 && IsDigit(s[0])
  {
    VersionParts(s);
    var p := Split(s, '.');
    assert s[0] == p[0][0];
  }

  /** Only one 'v' is stripped: an input starting with "vv" is never a
      version. */
  lemma ParseDoubleV(s: string)
    ensures Parse("vv" + s) == Failure(InvalidVersion(InvalidVersionMessage("vv" + s)))
  {
    var n := StripLeadingV("vv" + s);
    assert n[0] == 'v';
    if IsVersion(n) {
      VersionStartsWithDigit(n);
    }
  }
}
