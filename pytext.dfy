/** The parts of Python's `str` and `int` that the validators rely on:
    `str.isspace` (the characters `\s` matches in a `str` pattern), `strip()`
    and `int(s)` on a string. */
module PyText {

  import opened Common
  import opened Numerals

  /** `c.isspace()`: the characters with Unicode White_Space or a
      bidirectional class of whitespace, which is also what `\s` matches. */
  predicate IsSpace(c: char) {
    || ('\t' <= c <= '\r')
    || ('\U{1c}' <= c <= '\U{1f}')
    || c == ' ' || c == '\U{85}' || c == '\U{a0}' || c == '\U{1680}'
    || ('\U{2000}' <= c <= '\U{200a}')
    || c == '\U{2028}' || c == '\U{2029}' || c == '\U{202f}' || c == '\U{205f}' || c == '\U{3000}'
  }

  /** The number of whitespace characters `s.lstrip()` drops. */
  function LeadingSpaces(s: string): (n: nat)
    ensures n <= |s| && (n < |s| ==> !IsSpace(s[n]))
    ensures forall k :: 0 <= k < n ==> IsSpace(s[k])
  {
    if s != [] && IsSpace(s[0]) then
      var n := LeadingSpaces(s[1..]);
      assert forall k :: 1 <= k < |s| ==> s[1..][k - 1] == s[k];
      1 + n
    else 0
  }

  /** `s.rstrip()`. */
  function StripRight(s: string): (r: string)
    ensures |r| <= |s| && r == s[..|r|]
    ensures r != [] ==> !IsSpace(r[|r| - 1])
    ensures forall k :: |r| <= k < |s| ==> IsSpace(s[k])
  {
    if s != [] && IsSpace(s[|s| - 1]) then
      var r := StripRight(s[..|s| - 1]);
      assert forall k :: 0 <= k < |s| - 1 ==> s[..|s| - 1][k] == s[k];
      r
    else s
  }

  /** `s.strip()`: the slice of `s` left once the whitespace at both ends is
      dropped, which starts and ends with a non-space. */
  function Strip(s: string): (r: string)
    ensures LeadingSpaces(s) + |r| <= |s| && r == s[LeadingSpaces(s)..LeadingSpaces(s) + |r|]
    ensures r != [] ==> !IsSpace(r[0]) && !IsSpace(r[|r| - 1])
    ensures forall k :: LeadingSpaces(s) + |r| <= k < |s| ==> IsSpace(s[k])
  {
    var i := LeadingSpaces(s);
    var r := StripRight(s[i..]);
    assert forall k :: i + |r| <= k < |s| ==> s[k] == s[i..][k - i];
    r
  }

  /** A string that neither starts nor ends with whitespace is its own strip. */
  lemma StripNothing(s: string)
    requires s != [] && !IsSpace(s[0]) && !IsSpace(s[|s| - 1])
    ensures Strip(s) == s
  {
    assert StripRight(s) == s;
  }

  /** A trailing space is stripped away again. */
  lemma StripPadded(s: string)
    requires s != [] && !IsSpace(s[0]) && !IsSpace(s[|s| - 1])
    ensures Strip(s + " ") == s
  {
    StripNothing(s);
    var p := s + " ";
    assert StripRight(p) == StripRight(p[..|p| - 1]);
    assert p[..|p| - 1] == s;
    assert StripRight(s) == s;
    assert LeadingSpaces(p) == 0;
    assert p[0..] == p;
  }

  /** A run of digits in which single underscores may separate digits, the
      form `int()` accepts after the sign. */
  predicate Underscored(b: string) {
    && |b| >= 1 && b[0] in DecimalDigits && b[|b| - 1] in DecimalDigits
    && (forall i :: 0 <= i < |b| ==> b[i] in DecimalDigits || b[i] == '_')
    && (forall i :: 0 <= i < |b| - 1 ==> b[i] == '_' ==> b[i + 1] != '_')
  }

  /** The digits of an underscored run. */
  function DigitsOf(b: string): (d: string)
    requires Underscored(b)
    ensures AllDigits(d, DecimalDigits) && |d| >= 1
  {
    var d := Filter(b, c => c != '_');
    assert b[0] in d;
    d
  }

  /** The whitespace `int()` skips around a number. CPython first turns each
      non-ASCII `isspace` character into a space and then skips only ASCII
      whitespace, so the separators U+001C..U+001F, which `isspace` counts,
      are not skipped. */
  predicate IntSkips(c: char) {
    IsSpace(c) && !('\U{1c}' <= c <= '\U{1f}')
  }

  /** The default of `sys.get_int_max_str_digits()`: `int()` refuses a
      decimal numeral of more digits with ValueError. */
  const MaxStrDigits := 4300

  /** The whitespace `strip()` drops from `s` is all of a kind `int()` skips. */
  predicate IntPadding(s: string) {
    forall k :: 0 <= k < |s| && (k < LeadingSpaces(s) || LeadingSpaces(s) + |Strip(s)| <= k) ==> IntSkips(s[k])
  }

  /** `int(s)` for a string `s` in base 10: whitespace `int()` skips may
      surround an optional sign and an underscored run of at most
      `MaxStrDigits` ASCII digits; anything else raises ValueError (`None`). */
  function Int(s: string): (r: Option<int>)
    ensures r.Some? ==> |Strip(s)| >= 1 && IntPadding(s)
  {
    var t := Strip(s);
    if t == [] || !IntPadding(s) then None
    else
      var neg := t[0] == '-';
      var body := if t[0] in "+-" then t[1..] else t;
      if !Underscored(body) || |DigitsOf(body)| > MaxStrDigits then None
      else if neg then Some(0 - DecimalValue(DigitsOf(body)))
      else Some(DecimalValue(DigitsOf(body)))
  }

  lemma DigitsOfPlain(d: string)
    requires |d| >= 1 && AllDigits(d, DecimalDigits)
    ensures Underscored(d) && DigitsOf(d) == d
  {
    FilterKeepsAll(d, c => c != '_');
  }

  lemma {:induction false} FilterKeepsAll(s: string, p: char -> bool)
    requires forall i :: 0 <= i < |s| ==> p(s[i])
    ensures Filter(s, p) == s
  {
    if s != [] {
      FilterKeepsAll(s[1..], p);
      assert s == [s[0]] + s[1..];
    }
  }

  lemma DigitNotSpace(c: char)
    requires c in DecimalDigits
    ensures !IsSpace(c) && c != '+' && c != '-' && c != '_'
  {
  }

  /** `int` reads a plain run of digits as a decimal numeral. */
  lemma IntOfDigits(d: string)
    requires 1 <= |d| <= MaxStrDigits && AllDigits(d, DecimalDigits)
    ensures Int(d) == Some(DecimalValue(d))
  {
    DigitsOfPlain(d);
    DigitNotSpace(d[0]);
    DigitNotSpace(d[|d| - 1]);
    StripNothing(d);
    assert LeadingSpaces(d) == 0;
    assert IntPadding(d);
    assert d[0] !in "+-";
  }

  /** More than `MaxStrDigits` digits are refused. */
  lemma IntOfTooManyDigits(d: string)
    requires |d| > MaxStrDigits && AllDigits(d, DecimalDigits)
    ensures Int(d) == None
  {
    DigitsOfPlain(d);
    DigitNotSpace(d[0]);
    DigitNotSpace(d[|d| - 1]);
    StripNothing(d);
    assert d[0] !in "+-";
  }

  /** A stripped text of a minus sign and an underscored run is read as the
      negated run. */
  lemma IntOfSigned(m: string)
    requires |m| >= 2 && m[0] == '-' && Strip(m) == m && Underscored(m[1..])
    requires |DigitsOf(m[1..])| <= MaxStrDigits
    ensures Int(m) == Some(0 - DecimalValue(DigitsOf(m[1..])))
  {
    var t := Strip(m);
    assert !IsSpace(m[0]);
    assert LeadingSpaces(m) == 0;
    assert IntPadding(m);
    assert t[0] == '-' && t[1..] == m[1..];
  }

  /** `int(str(n))` gives the number back. */
  lemma IntDecimal(n: nat)
    requires |Decimal(n)| <= MaxStrDigits
    ensures Int(Decimal(n)) == Some(n)
  {
    IntOfDigits(Decimal(n));
    DecimalRoundTrip(n);
  }

  /** `int("-1")` is -1. */
  lemma IntMinusOne()
    ensures Int("-1") == Some(-1)
  {
    var m := "-1";
    DigitsOfPlain(m[1..]);
    StripNothing(m);
    IntOfSigned(m);
    assert DecimalValue("1") == 1 by {
      DecimalIsAlphabet();
      IndexOfDigit(DecimalDigits, 1);
      FromDigitsSnoc([], '1', DecimalDigits);
      assert [] + ['1'] == "1";
    }
  }

  /** A separator `isspace` counts but `int()` does not skip makes the text
      unreadable: `int("\x1c5")` raises, though `strip()` drops the U+001C. */
  lemma IntSeparatorRefused()
    ensures Strip("\U{1c}5") == "5"
    ensures Int("\U{1c}5") == None
  {
    var s := "\U{1c}5";
    assert IsSpace(s[0]) && !IsSpace(s[1]);
    assert LeadingSpaces(s[1..]) == 0;
    assert LeadingSpaces(s) == 1;
    assert s[1..] == "5";
    StripNothing("5");
    assert !IntSkips(s[0]);
  }

  /** Text without a digit is refused. */
  lemma IntNeedsDigit(s: string)
    requires forall i :: 0 <= i < |s| ==> s[i] !in DecimalDigits
    ensures Int(s) == None
  {
    var t, i := Strip(s), LeadingSpaces(s);
    assert forall k :: 0 <= k < |t| ==> t[k] == s[i + k];
  }
}
