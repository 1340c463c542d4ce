/** Validity of a version number, after Semantic Versioning 2.0.0: item 2
    (a normal version X.Y.Z of non-negative integers without leading zeros),
    item 9 (an optional pre-release after '-': dot-separated non-empty
    identifiers of [0-9A-Za-z-], numeric ones without leading zeros) and
    item 10 (optional build metadata after '+': dot-separated non-empty
    identifiers of [0-9A-Za-z-]).

    ASSUMPTION: the version validator the PHP code calls accepts exactly
    these strings. Its source is not part of this model. */
module SemVer {
  import opened Digits
  import opened Text

  predicate IsIdentifierChar(c: char)
  {
    IsDigit(c) || 'a' <= c <= 'z' || 'A' <= c <= 'Z' || c == '-'
  }

  predicate IsIdentifier(s: string)
  {
    |s| > 0 && forall i :: 0 <= i < |s| ==> IsIdentifierChar(s[i])
  }

  predicate IsPreReleaseIdentifier(s: string)
  {
    IsIdentifier(s) && (IsDigits(s) ==> IsCanonical(s))
  }

  predicate IsPreRelease(s: string)
  {
    var ids := Split(s, '.');
    forall k :: 0 <= k < |ids| ==> IsPreReleaseIdentifier(ids[k])
  }

  predicate IsBuild(s: string)
  {
    var ids := Split(s, '.');
    forall k :: 0 <= k < |ids| ==> IsIdentifier(ids[k])
  }

  /** X.Y.Z, each a canonical decimal number. */
  predicate IsNormalVersion(s: string)
  {
    var p := Split(s, '.');
    |p| == 3 && IsCanonical(p[0]) && IsCanonical(p[1]) && IsCanonical(p[2])
  }

  /** Everything before the first '+'. */
  function MainPart(s: string): (r: string)
    ensures StartsWith(s, r)
    ensures '+' !in r
    ensures r == s || s[|r|] == '+'
  {
    if '+' in s then s[..IndexOfChar(s, '+')] else s
  }

  /** Everything before the first '-' of the main part. */
  function CorePart(s: string): (r: string)
    ensures StartsWith(s, r)
    ensures r == s || s[|r|] == '-' || s[|r|] == '+'
  {
    var m := MainPart(s);
    if '-' in m then m[..IndexOfChar(m, '-')] else m
  }

  predicate IsVersion(s: string)
  {
    var m := MainPart(s);
    IsNormalVersion(CorePart(s))
    && ('-' in m ==> IsPreRelease(m[IndexOfChar(m, '-') + 1..]))
    && ('+' in s ==> IsBuild(s[IndexOfChar(s, '+') + 1..]))
  }

  /** The text "a.b.c". */
  function Dotted(a: string, b: string, c: string): string
  {
    a + "." + b + "." + c
  }

  lemma DigitsLackChar(s: string, c: char)
    requires IsDigits(s) && !IsDigit(c)
    ensures c !in s
  {
  }

  /** Three canonical numbers joined by dots form a version, and these are
      its three components. */
  lemma PlainIsVersion(a: string, b: string, c: string)
    requires IsCanonical(a) && IsCanonical(b) && IsCanonical(c)
    ensures IsVersion(Dotted(a, b, c))
    ensures Split(Dotted(a, b, c), '.') == [a, b, c]
  {
    var s := Dotted(a, b, c);
    DottedLacks(a, b, c, '+');
    DottedLacks(a, b, c, '-');
    DigitsLackChar(a, '.');
    DigitsLackChar(b, '.');
    DigitsLackChar(c, '.');
    DottedSplit(a, b, c);
    assert Split(c, '.') == [c];
    assert MainPart(s) == s;
    assert CorePart(s) == s;
    assert IsNormalVersion(s);
  }

  /** A character that is no digit and no dot is absent from "a.b.c". */
  lemma DottedLacks(a: string, b: string, c: string, x: char)
    requires IsDigits(a) && IsDigits(b) && IsDigits(c) && !IsDigit(x) && x != '.'
    ensures x !in Dotted(a, b, c)
  {
    DigitsLackChar(a, x);
    DigitsLackChar(b, x);
    DigitsLackChar(c, x);
    assert Dotted(a, b, c) == a + ['.'] + b + ['.'] + c;
  }

  /** The first piece of a string that starts with a character other than
      the separator starts with that character. */
  lemma SplitFirstChar(y: string, sep: char)
    requires |y| > 0 && y[0] != sep
    ensures |Split(y, sep)[0]| > 0 && Split(y, sep)[0][0] == y[0]
  {
    assert y == [y[0]] + y[1..];
    SplitHead([y[0]], y[1..], sep);
  }

  /** The first piece of a join starts with the first part. */
  lemma JoinStarts(parts: seq<string>, sep: char)
    requires |parts| >= 1
    ensures StartsWith(Join(parts, sep), parts[0])
  {
  }

  /** Splitting "a.b.t" where a and b hold no dot. */
  lemma DottedSplit(a: string, b: string, t: string)
    requires '.' !in a && '.' !in b
    ensures Split(Dotted(a, b, t), '.') == [a, b] + Split(t, '.')
  {
    assert Dotted(a, b, t) == a + ['.'] + (b + ['.'] + t);
    SplitCons(a, b + ['.'] + t, '.');
    SplitCons(b, t, '.');
  }

  lemma JoinThree(a: string, b: string, c: string, sep: char)
    ensures Join([a, b, c], sep) == a + [sep] + (b + [sep] + c)
  {
    assert [a, b, c][1..] == [b, c];
    assert [b, c][1..] == [c];
    assert Join([c], sep) == c;
    assert Join([b, c], sep) == b + [sep] + c;
  }

  /** A normal version is its three pieces joined by dots. */
  lemma NormalIsDotted(s: string)
    requires IsNormalVersion(s)
    ensures var q := Split(s, '.'); s == Dotted(q[0], q[1], q[2])
  {
    var q := Split(s, '.');
    JoinSplit(s, '.');
    assert q == [q[0], q[1], q[2]];
    JoinThree(q[0], q[1], q[2], '.');
  }

  lemma DottedAppend(a: string, b: string, c: string, r: string)
    ensures Dotted(a, b, c) + r == Dotted(a, b, c + r)
  {
  }

  /** The core of a version followed by what comes after it. */
  lemma CoreAndRest(n: string)
    requires IsVersion(n)
    ensures IsNormalVersion(CorePart(n))
    ensures var rest := n[|CorePart(n)|..];
      n == CorePart(n) + rest && (rest == [] || rest[0] == '-' || rest[0] == '+')
  {
    var core := CorePart(n);
    assert StartsWith(n, core);
    assert n == core + n[|core|..];
  }

  /** The third piece of "patch" + rest: it starts with the patch's first
      digit, and it is all digits only when there is no rest. */
  lemma ThirdPiece(c: string, rest: string)
    requires IsCanonical(c) && (rest == [] || rest[0] == '-' || rest[0] == '+')
    ensures var p := Split(c + rest, '.');
      |p[0]| > 0 && IsDigit(p[0][0]) && (IsDigits(p[0]) ==> rest == [] && p == [c])
  {
    DigitsLackChar(c, '.');
    SplitHead(c, rest, '.');
    if rest == [] {
      assert c + rest == c;
    } else {
      SplitFirstChar(rest, '.');
      var p0 := Split(c + rest, '.')[0];
      assert p0[|c|] == rest[0];
    }
  }

  /** What the increments rely on: the pieces of a version split at '.' are
      a canonical major and minor and a third piece that starts with a
      digit; the third piece is all digits only when the version is the
      plain X.Y.Z. */
  lemma VersionParts(n: string)
    requires IsVersion(n)
    ensures var p := Split(n, '.');
      && |p| >= 3 && IsCanonical(p[0]) && IsCanonical(p[1])
      && |p[2]| > 0 && IsDigit(p[2][0])
      && n == Dotted(p[0], p[1], Join(p[2..], '.'))
      && (IsDigits(p[2]) ==> |p| == 3 && IsCanonical(p[2]) && n == Dotted(p[0], p[1], p[2]))
  {
    CoreAndRest(n);
    var core := CorePart(n);
    var rest := n[|core|..];
    var q := Split(core, '.');
    NormalIsDotted(core);
    DottedAppend(q[0], q[1], q[2], rest);
    assert n == Dotted(q[0], q[1], q[2] + rest);
    DigitsLackChar(q[0], '.');
    DigitsLackChar(q[1], '.');
    DottedSplit(q[0], q[1], q[2] + rest);
    var p := Split(n, '.');
    assert p[2..] == Split(q[2] + rest, '.');
    JoinSplit(q[2] + rest, '.');
    ThirdPiece(q[2], rest);
  }
}
