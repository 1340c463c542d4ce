/** The PHP string functions the core relies on, on `seq<char>`: `strstr`,
    `explode`, `str_replace` with an empty replacement, `rtrim` with one
    character and `substr` from an offset. */
module Text {
  import opened Base

  predicate StartsWith(s: string, prefix: string)
  {
    |prefix| <= |s| && s[..|prefix|] == prefix
  }

  predicate OccursAt(s: string, needle: string, i: nat)
  {
    i + |needle| <= |s| && s[i..i + |needle|] == needle
  }

  /** The first position at or after `from` where `needle` occurs. */
  function IndexOfFrom(s: string, needle: string, from: nat): (r: Option<nat>)
    ensures r.Some? ==> from <= r.value && OccursAt(s, needle, r.value)
    ensures r.Some? ==> forall j :: from <= j < r.value ==> !OccursAt(s, needle, j)
    ensures r.None? ==> forall j :: from <= j ==> !OccursAt(s, needle, j)
    decreases |s| - from
  {
    if from + |needle| > |s| then None
    else if OccursAt(s, needle, from) then Some(from)
    else IndexOfFrom(s, needle, from + 1)
  }

  function IndexOf(s: string, needle: string): (r: Option<nat>)
    ensures r.Some? ==> OccursAt(s, needle, r.value)
    ensures r.Some? ==> forall j :: 0 <= j < r.value ==> !OccursAt(s, needle, j)
    ensures r.None? ==> forall j :: !OccursAt(s, needle, j)
  {
    IndexOfFrom(s, needle, 0)
  }

  /** `strstr($s, $needle) !== false` */
  predicate Contains(s: string, needle: string)
  {
    IndexOf(s, needle).Some?
  }

  /** `strstr($s, $needle, true)`: the part of `s` before the first
      occurrence of `needle`. */
  function BeforeFirst(s: string, needle: string): (r: string)
    requires Contains(s, needle)
    ensures StartsWith(s, r) && OccursAt(s, needle, |r|)
    ensures forall j :: 0 <= j < |r| ==> !OccursAt(s, needle, j)
  {
    s[..IndexOf(s, needle).value]
  }

  /** The first index of character `c` in `s`. */
  function IndexOfChar(s: string, c: char): (i: nat)
    requires c in s
    ensures i < |s| && s[i] == c && c !in s[..i]
  {
    if s[0] == c then 0
    else
      var i := 1 + IndexOfChar(s[1..], c);
      assert s[..i] == [s[0]] + s[1..][..i - 1];
      i
  }

  /** `explode($sep, $s)`: the pieces of `s` between occurrences of `sep`. */
  function Split(s: string, sep: char): (parts: seq<string>)
    ensures |parts| >= 1
    ensures forall k :: 0 <= k < |parts| ==> sep !in parts[k]
    decreases |s|
  {
    if sep !in s then [s]
    else
      var i := IndexOfChar(s, sep);
      [s[..i]] + Split(s[i + 1..], sep)
  }

  /** `implode($sep, $parts)` */
  function Join(parts: seq<string>, sep: char): string
    requires |parts| >= 1
  {
    if |parts| == 1 then parts[0] else parts[0] + [sep] + Join(parts[1..], sep)
  }

  /** Splitting and joining again gives back the string. */
  lemma {:induction false} JoinSplit(s: string, sep: char)
    ensures Join(Split(s, sep), sep) == s
    decreases |s|
  {
    if sep in s {
      var i := IndexOfChar(s, sep);
      var rest := Split(s[i + 1..], sep);
      var parts := [s[..i]] + rest;
      assert Split(s, sep) == parts;
      assert parts[0] == s[..i] && parts[1..] == rest;
      assert Join(parts, sep) == s[..i] + [sep] + Join(rest, sep);
      JoinSplit(s[i + 1..], sep);
      assert s == s[..i] + [sep] + s[i + 1..];
    }
  }

  /** Joining pieces free of the separator and splitting gives back the pieces. */
  lemma {:induction false} SplitJoin(parts: seq<string>, sep: char)
    requires |parts| >= 1
    requires forall k :: 0 <= k < |parts| ==> sep !in parts[k]
    ensures Split(Join(parts, sep), sep) == parts
  {
    if |parts| > 1 {
      SplitJoin(parts[1..], sep);
      SplitCons(parts[0], Join(parts[1..], sep), sep);
    }
  }

  /** Only one position can be the first occurrence of a character. */
  lemma FirstIndexUnique(s: string, c: char, i: nat, j: nat)
    requires i < |s| && s[i] == c && c !in s[..i]
    requires j < |s| && s[j] == c && c !in s[..j]
    ensures i == j
  {
    assert forall k :: 0 <= k < i ==> s[..i][k] == s[k];
    assert forall k :: 0 <= k < j ==> s[..j][k] == s[k];
  }

  /** Splitting `x + sep + y`, where `x` holds no separator. */
  lemma SplitCons(x: string, y: string, sep: char)
    requires sep !in x
    ensures Split(x + [sep] + y, sep) == [x] + Split(y, sep)
  {
    var s := x + [sep] + y;
    assert s[..|x|] == x;
    FirstIndexUnique(s, sep, IndexOfChar(s, sep), |x|);
    assert s[|x| + 1..] == y;
  }

  /** The first piece of `x + y`, where `x` holds no separator. */
  lemma SplitHead(x: string, y: string, sep: char)
    requires sep !in x
    ensures Split(x + y, sep)[0] == x + Split(y, sep)[0]
  {
    var s := x + y;
    if sep in y {
      var j := IndexOfChar(y, sep);
      assert s[..|x| + j] == x + y[..j];
      FirstIndexUnique(s, sep, IndexOfChar(s, sep), |x| + j);
    } else {
      assert sep !in s;
    }
  }

  /** The last piece of `explode($sep, $s)`, i.e. what `array_pop` returns. */
  function LastPiece(s: string, sep: char): (r: string)
    ensures sep !in r
  {
    var parts := Split(s, sep);
    parts[|parts| - 1]
  }

  /** A suffix of a suffix is a suffix. */
  lemma SuffixOfSuffix(s: string, j: nat, m: nat)
    requires j <= |s| && m <= |s| - j
    ensures s[j..][|s| - j - m..] == s[|s| - m..]
  {
  }

  /** The last piece is what follows the last separator, or all of `s`. */
  lemma {:induction false} LastPieceIsSuffix(s: string, sep: char)
    ensures var r := LastPiece(s, sep);
      |r| <= |s| && s[|s| - |r|..] == r && (|r| == |s| || s[|s| - |r| - 1] == sep)
    decreases |s|
  {
    if sep in s {
      var i := IndexOfChar(s, sep);
      var rest := s[i + 1..];
      var tail := Split(rest, sep);
      assert Split(s, sep) == [s[..i]] + tail;
      assert LastPiece(s, sep) == tail[|tail| - 1];
      LastPieceIsSuffix(rest, sep);
      var r := LastPiece(rest, sep);
      SuffixOfSuffix(s, i + 1, |r|);
      if |r| < |rest| {
        assert s[|s| - |r| - 1] == rest[|rest| - |r| - 1];
      }
    }
  }

  /** `str_replace($needle, '', $s)`: every occurrence of `needle`, found
      left to right without overlap, removed. */
  function RemoveAll(s: string, needle: string): (r: string)
    requires |needle| > 0
    ensures |r| <= |s|
    decreases |s|
  {
    if |s| < |needle| then s
    else if s[..|needle|] == needle then RemoveAll(s[|needle|..], needle)
    else [s[0]] + RemoveAll(s[1..], needle)
  }

  /** A string without occurrences is left unchanged. */
  lemma {:induction false} RemoveAllAbsent(s: string, needle: string)
    requires |needle| > 0
    requires forall j :: !OccursAt(s, needle, j)
    ensures RemoveAll(s, needle) == s
    decreases |s|
  {
    if |s| >= |needle| {
      assert !OccursAt(s, needle, 0);
      assert s[..|needle|] == s[0..|needle|];
      forall j: nat ensures OccursAt(s[1..], needle, j) == OccursAt(s, needle, j + 1) {
        if j + |needle| <= |s| - 1 {
          assert s[1..][j..j + |needle|] == s[j + 1..j + 1 + |needle|];
        }
      }
      RemoveAllAbsent(s[1..], needle);
      assert s == [s[0]] + s[1..];
    }
  }

  /** Removing a needle whose second character `x` is absent from `p`
      from `p + needle` leaves exactly `p`. */
  lemma {:induction false} RemoveAllTrailing(p: string, needle: string)
    requires |needle| >= 2 && needle[1] !in p && needle[0] != needle[1]
    ensures RemoveAll(p + needle, needle) == p
    decreases |p|
  {
    var s := p + needle;
    if p == [] {
      assert s[..|needle|] == needle;
      assert s[|needle|..] == [];
    } else {
      assert s[..|needle|] != needle by {
        if |p| >= 2 {
          assert s[1] == p[1];
        } else {
          assert s[1] == needle[0];
        }
      }
      assert s[1..] == p[1..] + needle;
      RemoveAllTrailing(p[1..], needle);
    }
  }

  /** `rtrim($s, c)`: all trailing copies of `c` removed. */
  function TrimEnd(s: string, c: char): (r: string)
    ensures StartsWith(s, r)
    ensures r == [] || r[|r| - 1] != c
    ensures forall i :: |r| <= i < |s| ==> s[i] == c
    decreases |s|
  {
    if s != [] && s[|s| - 1] == c then TrimEnd(s[..|s| - 1], c) else s
  }

  /** `substr($s, $n)` for an offset n >= 0 (empty when past the end). */
  function DropPrefix(s: string, n: nat): (r: string)
    ensures n <= |s| ==> s == s[..n] + r
    ensures n > |s| ==> r == []
  {
    if n <= |s| then s[n..] else []
  }
}
