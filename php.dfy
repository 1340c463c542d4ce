/** PHP's `$x++` applied to a string, as the version increments use it.
    A string of decimal digits is a numeric string: it becomes an integer and
    is incremented, and an integer at PHP_INT_MAX turns into a float. Any
    other string is incremented "alphanumerically" from its end (the Zend
    engine's string increment): 'a'..'y' -> next, 'z' -> 'a' with carry, the
    same for 'A'..'Z' and '0'..'9'; the first character that is none of these
    stops the walk and swallows the carry; a carry past the first character
    prepends '1', 'a' or 'A' depending on what that character is. */
module Php {
  import opened Base
  import opened Digits

  /** The largest PHP integer on a 64-bit platform. */
  const PHP_INT_MAX: nat := 0x7FFF_FFFF_FFFF_FFFF

  datatype CharKind = Lower | Upper | Numeric | Other

  function KindOf(c: char): (k: CharKind)
    ensures k == Numeric <==> IsDigit(c)
  {
    if 'a' <= c <= 'z' then Lower
    else if 'A' <= c <= 'Z' then Upper
    else if '0' <= c <= '9' then Numeric
    else Other
  }

  /** The last character of the class of kind k: it wraps on increment. */
  function LastOfKind(k: CharKind): char
    requires k != Other
  {
    match k
    case Lower => 'z'
    case Upper => 'Z'
    case Numeric => '9'
  }

  /** The first character of the class of kind k: what a wrap produces. */
  function FirstOfKind(k: CharKind): char
    requires k != Other
  {
    match k
    case Lower => 'a'
    case Upper => 'A'
    case Numeric => '0'
  }

  /** One alphanumeric character incremented, with the carry it produces. */
  function BumpChar(c: char): (r: (char, bool))
    requires KindOf(c) != Other
    ensures KindOf(r.0) == KindOf(c)
    ensures r.1 <==> c == LastOfKind(KindOf(c))
    ensures r.1 ==> r.0 == FirstOfKind(KindOf(c))
    ensures !r.1 ==> r.0 as int == c as int + 1
  {
    if c == LastOfKind(KindOf(c)) then (FirstOfKind(KindOf(c)), true)
    else ((c as int + 1) as char, false)
  }

  /** The walk from the end of a non-empty string: the rewritten string and
      whether a carry is left over after the first character. */
  function Walk(s: string): (r: (string, bool))
    requires |s| > 0
    ensures |r.0| == |s|
    ensures r.1 ==> forall i :: 0 <= i < |s| ==> KindOf(s[i]) != Other
    ensures r.1 ==> forall i :: 0 <= i < |s| ==> s[i] == LastOfKind(KindOf(s[i]))
    decreases |s|
  {
    var last := s[|s| - 1];
    var init := s[..|s| - 1];
    if KindOf(last) == Other then (s, false)
    else
      var (c, carry) := BumpChar(last);
      if !carry then (init + [c], false)
      else if init == [] then ([c], true)
      else
        var (t, carry') := Walk(init);
        (t + [c], carry')
  }

  /** The alphanumeric string increment. */
  function StringIncrement(s: string): (r: string)
    ensures |s| <= |r| <= |s| + 1
  {
    if s == [] then "1"
    else
      var (t, carry) := Walk(s);
      if !carry then t
      else
        match KindOf(s[0])
        case Numeric => "1" + t
        case Upper => "A" + t
        case Lower => "a" + t
        case Other => assert false; t
  }

  /** PHP's numeric strings, as far as version segments go: non-empty runs
      of decimal digits (a version segment never holds white space, a sign,
      a decimal point or an exponent). */
  predicate IsNumericString(s: string)
  {
    |s| > 0 && IsDigits(s)
  }

  /** The text `$x++` leaves in `$x`, or None when the result is a float,
      which happens exactly for a numeric string whose value is at least
      PHP_INT_MAX. */
  function PlusPlus(s: string): (r: Option<string>)
    ensures IsNumericString(s) ==> (r.None? <==> StringToNat(s) >= PHP_INT_MAX)
    ensures IsNumericString(s) && r.Some? ==>
      IsCanonical(r.value) && StringToNat(r.value) == StringToNat(s) + 1
    ensures !IsNumericString(s) ==> r == Some(StringIncrement(s))
  {
    if IsNumericString(s) then
      var n := StringToNat(s);
      if n >= PHP_INT_MAX then None
      else
        StringToNatOfNatToString(n + 1);
        Some(NatToString(n + 1))
    else Some(StringIncrement(s))
  }

  /** Incrementing a string whose last character is alphanumeric and not at
      the end of its class changes only that character, to its successor. */
  lemma StringIncrementLast(p: string, c: char)
    requires KindOf(c) != Other && c != LastOfKind(KindOf(c))
    ensures StringIncrement(p + [c]) == p + [(c as int + 1) as char]
  {
    var s := p + [c];
    assert s[..|s| - 1] == p;
  }

  /** A string ending in a character that is not alphanumeric is left as it is. */
  lemma StringIncrementStops(p: string, c: char)
    requires KindOf(c) == Other
    ensures StringIncrement(p + [c]) == p + [c]
  {
  }

  /** A wrapping last character becomes the first of its class, and the
      carry moves on to the rest of the string, when there is some rest. */
  lemma {:induction false} StringIncrementCarry(p: string, c: char)
    requires |p| > 0 && KindOf(c) != Other && c == LastOfKind(KindOf(c))
    ensures Walk(p + [c]) == (Walk(p).0 + [FirstOfKind(KindOf(c))], Walk(p).1)
  {
    var s := p + [c];
    assert s[..|s| - 1] == p;
  }

  /** `$x = "0-beta"; $x++;` leaves "0-betb". */
  lemma StringIncrementBeta()
    ensures StringIncrement("0-beta") == "0-betb"
  {
    StringIncrementLast("0-bet", 'a');
  }

  /** `$x = "0-99"; $x++;` leaves "0-00": the carry is lost at the '-'. */
  lemma StringIncrementLostCarry()
    ensures StringIncrement("0-99") == "0-00"
  {
    assert "0-9" + ['9'] == "0-99" && "0-" + ['9'] == "0-9";
    StringIncrementCarry("0-9", '9');
    StringIncrementCarry("0-", '9');
    assert Walk("0-") == ("0-", false);
    assert Walk("0-9") == ("0-" + ['0'], false);
    assert "0-" + ['0'] + ['0'] == "0-00";
    assert Walk("0-99") == ("0-00", false);
  }

  /** `$x = "zz"; $x++;` leaves "aaa": a carry past the front adds a character. */
  lemma StringIncrementGrows()
    ensures StringIncrement("zz") == "aaa"
  {
    assert "z" + ['z'] == "zz";
    StringIncrementCarry("z", 'z');
    assert Walk("z") == ("a", true);
  }
}
