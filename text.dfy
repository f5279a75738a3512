/** Decimal rendering (Python's `str(n)` / f-string of an int) and parsing (`int(s)`). */
module Text {
  import opened Base

  predicate IsDigit(c: char) {
    '0' <= c <= '9'
  }

  predicate AllDigits(s: string) {
    |s| > 0 && forall i :: 0 <= i < |s| ==> IsDigit(s[i])
  }

  function DigitChar(d: nat): (c: char)
    requires d < 10
    ensures IsDigit(c)
  {
    ('0' as int + d) as char
  }

  function DigitValue(c: char): (d: nat)
    requires IsDigit(c)
    ensures d < 10
  {
    c as int - '0' as int
  }

  function NatToString(n: nat): (s: string)
    ensures AllDigits(s)
    decreases n
  {
    if n < 10 then [DigitChar(n)] else NatToString(n / 10) + [DigitChar(n % 10)]
  }

  /** The text Python prints for the integer `n`. */
  function DecimalString(n: int): (s: string)
    ensures |s| > 0
  {
    if n < 0 then "-" + NatToString(-n) else NatToString(n)
  }

  function DigitsValue(s: string): nat
    requires forall i :: 0 <= i < |s| ==> IsDigit(s[i])
  {
    if s == [] then 0 else DigitsValue(s[..|s| - 1]) * 10 + DigitValue(s[|s| - 1])
  }

  /**
   * Python's `str.isspace` on one character: the ASCII controls tab to carriage return and the separators
   * 0x1C to 0x1F, the space, and the Unicode spaces and line separators.
   */
  predicate IsSpace(c: char) {
    ('\t' <= c <= '\r') || ('\U{001C}' <= c <= '\U{001F}') || c == ' ' || c == '\U{0085}' || c == '\U{00A0}' ||
    c == '\U{1680}' || ('\U{2000}' <= c <= '\U{200A}') || c == '\U{2028}' || c == '\U{2029}' || c == '\U{202F}' ||
    c == '\U{205F}' || c == '\U{3000}'
  }

  predicate AllSpace(s: string) {
    forall i :: 0 <= i < |s| ==> IsSpace(s[i])
  }

  function StripLeft(s: string): (r: string)
    ensures r == [] || !IsSpace(r[0])
  {
    if s != [] && IsSpace(s[0]) then StripLeft(s[1..]) else s
  }

  function StripRight(s: string): (r: string)
    ensures r == [] || !IsSpace(r[|r| - 1])
  {
    if s != [] && IsSpace(s[|s| - 1]) then StripRight(s[..|s| - 1]) else s
  }

  /** `s.strip()`: whitespace removed from both ends. */
  function Strip(s: string): string {
    StripRight(StripLeft(s))
  }

  /** Digits with single underscores between them, as `int` reads a decimal literal (`1_000`). */
  predicate DigitPart(u: string) {
    && |u| > 0 && IsDigit(u[0]) && IsDigit(u[|u| - 1])
    && (forall i :: 0 <= i < |u| ==> IsDigit(u[i]) || u[i] == '_')
    && (forall i :: 0 <= i < |u| - 1 ==> u[i] == '_' ==> u[i + 1] != '_')
  }

  /** The digits of a digit part, underscores dropped. */
  function Digits(u: string): (r: string)
    requires forall i :: 0 <= i < |u| ==> IsDigit(u[i]) || u[i] == '_'
    ensures forall i :: 0 <= i < |r| ==> IsDigit(r[i])
  {
    if u == [] then [] else (if u[0] == '_' then [] else [u[0]]) + Digits(u[1..])
  }

  /** `int` of text already stripped: an optional sign, then a digit part. */
  function ParseStripped(t: string): Option<int> {
    if |t| > 0 && (t[0] == '-' || t[0] == '+') then
      if DigitPart(t[1..]) then
        var v: int := DigitsValue(Digits(t[1..]));
        Some(if t[0] == '-' then -v else v)
      else None
    else if DigitPart(t) then Some(DigitsValue(Digits(t)))
    else None
  }

  /**
   * `int(s)`: surrounding whitespace is ignored, then an optional sign and ASCII digits with single underscores
   * between them; `None` where Python raises ValueError.
   */
  function ParseInt(s: string): Option<int> {
    ParseStripped(Strip(s))
  }

  lemma {:induction false} DigitsOfNat(n: nat)
    ensures DigitsValue(NatToString(n)) == n
    decreases n
  {
    var s := NatToString(n);
    if n >= 10 {
      DigitsOfNat(n / 10);
      assert s[..|s| - 1] == NatToString(n / 10);
      assert s[|s| - 1] == DigitChar(n % 10);
    } else {
      assert s[..|s| - 1] == [];
    }
  }

  /** Digits without underscores are their own digit part. */
  lemma {:induction false} DigitsOfDigits(u: string)
    requires forall i :: 0 <= i < |u| ==> IsDigit(u[i])
    ensures Digits(u) == u
  {
    if u != [] {
      DigitsOfDigits(u[1..]);
      assert u == [u[0]] + u[1..];
    }
  }

  /** Text with no whitespace at either end is its own strip. */
  lemma StripNothing(s: string)
    requires s == [] || (!IsSpace(s[0]) && !IsSpace(s[|s| - 1]))
    ensures Strip(s) == s
  {
  }

  /** A plain digit string, with or without a sign, reads as its digits. */
  lemma ParseStrippedDigits(u: string)
    requires AllDigits(u)
    ensures ParseStripped(u) == Some(DigitsValue(u))
    ensures ParseStripped("-" + u) == Some(-(DigitsValue(u) as int))
  {
    DigitsOfDigits(u);
    assert DigitPart(u);
    assert ("-" + u)[1..] == u;
  }

  /** Parsing what was rendered gives the number back, so distinct ids render distinctly. */
  lemma ParseDecimalString(n: int)
    ensures ParseInt(DecimalString(n)) == Some(n)
  {
    var d := DecimalString(n);
    if n < 0 {
      var digits := NatToString(-n);
      assert d == "-" + digits;
      assert IsDigit(d[|d| - 1]);
      StripNothing(d);
      ParseStrippedDigits(digits);
      DigitsOfNat(-n);
    } else {
      assert d == NatToString(n);
      assert IsDigit(d[0]) && IsDigit(d[|d| - 1]);
      StripNothing(d);
      ParseStrippedDigits(d);
      DigitsOfNat(n);
    }
  }

  lemma DecimalStringInjective(a: int, b: int)
    requires DecimalString(a) == DecimalString(b)
    ensures a == b
  {
    ParseDecimalString(a);
    ParseDecimalString(b);
  }

  /** Leading whitespace is stripped away. */
  lemma {:induction false} StripLeftSpaces(pre: string, x: string)
    requires AllSpace(pre) && (x == [] || !IsSpace(x[0]))
    ensures StripLeft(pre + x) == x
    decreases |pre|
  {
    if pre == [] {
      assert pre + x == x;
    } else {
      assert (pre + x)[1..] == pre[1..] + x;
      StripLeftSpaces(pre[1..], x);
    }
  }

  /** Trailing whitespace is stripped away. */
  lemma {:induction false} StripRightSpaces(x: string, post: string)
    requires AllSpace(post) && (x == [] || !IsSpace(x[|x| - 1]))
    ensures StripRight(x + post) == x
    decreases |post|
  {
    if post == [] {
      assert x + post == x;
    } else {
      assert (x + post)[..|x + post| - 1] == x + post[..|post| - 1];
      StripRightSpaces(x, post[..|post| - 1]);
    }
  }

  /** Whitespace around a rendered integer is ignored: `int(" 42\n")` is 42. */
  lemma ParseIntSpaces(pre: string, n: int, post: string)
    requires AllSpace(pre) && AllSpace(post)
    ensures ParseInt(pre + DecimalString(n) + post) == Some(n)
  {
    var d := DecimalString(n);
    assert IsDigit(d[|d| - 1]);
    assert pre + d + post == pre + (d + post);
    StripLeftSpaces(pre, d + post);
    StripRightSpaces(d, post);
    ParseDecimalString(n);
    StripNothing(d);
  }

  lemma {:induction false} DigitsConcat(x: string, y: string)
    requires forall i :: 0 <= i < |x| ==> IsDigit(x[i]) || x[i] == '_'
    requires forall i :: 0 <= i < |y| ==> IsDigit(y[i]) || y[i] == '_'
    ensures Digits(x + y) == Digits(x) + Digits(y)
    decreases |x|
  {
    if x == [] {
      assert x + y == y;
    } else {
      assert (x + y)[1..] == x[1..] + y;
      DigitsConcat(x[1..], y);
    }
  }

  lemma UnderscorePart(a: string, b: string)
    requires AllDigits(a) && AllDigits(b)
    ensures DigitPart(a + "_" + b)
  {
    var u := a + "_" + b;
    assert u[0] == a[0] && u[|u| - 1] == b[|b| - 1];
    forall i | 0 <= i < |u| - 1 && u[i] == '_'
      ensures u[i + 1] != '_'
    {
      assert i == |a|;
      assert u[i + 1] == b[0];
    }
  }

  lemma UnderscoreDigits(a: string, b: string)
    requires AllDigits(a) && AllDigits(b)
    ensures Digits(a + "_" + b) == a + b
  {
    DigitsConcat(a + "_", b);
    DigitsConcat(a, "_");
    assert Digits("_") == [] by {
      assert "_"[1..] == [];
    }
    DigitsOfDigits(a);
    DigitsOfDigits(b);
    assert a + [] == a;
  }

  /** An underscore between two digit strings is ignored: `int("1_000")` is 1000. */
  lemma ParseIntUnderscore(a: string, b: string)
    requires AllDigits(a) && AllDigits(b)
    ensures ParseInt(a + "_" + b) == Some(DigitsValue(a + b))
  {
    var u := a + "_" + b;
    assert IsDigit(u[0]) && IsDigit(u[|u| - 1]);
    StripNothing(u);
    UnderscorePart(a, b);
    UnderscoreDigits(a, b);
  }

  /** Two underscores in a row are refused. */
  lemma ParseIntDoubleUnderscore(s: string, i: int)
    requires var t := Strip(s); 0 <= i < |t| - 1 && t[i] == '_' && t[i + 1] == '_'
    ensures ParseInt(s) == None
  {
    var t := Strip(s);
    if 0 < i {
      assert t[1..][i - 1] == t[i] && t[1..][i] == t[i + 1];
    }
  }

  /** An underscore may not lead the digits. */
  lemma ParseIntLeadingUnderscore(s: string)
    requires var t := Strip(s); (|t| > 0 && t[0] == '_') || (|t| > 1 && (t[0] == '-' || t[0] == '+') && t[1] == '_')
    ensures ParseInt(s) == None
  {
    var t := Strip(s);
    if |t| > 1 {
      assert t[1..][0] == t[1];
    }
  }

  /** After stripping, nothing, a lone sign, or text that does not end in a digit is refused. */
  lemma ParseIntRejects(s: string)
    requires var t := Strip(s); t == "" || t == "-" || t == "+" || !IsDigit(t[|t| - 1])
    ensures ParseInt(s) == None
  {
  }

  /** A letter anywhere inside the stripped text is refused. */
  lemma ParseIntLetter(s: string, i: int)
    requires 0 <= i < |Strip(s)| && ('a' <= Strip(s)[i] <= 'z' || 'A' <= Strip(s)[i] <= 'Z')
    ensures ParseInt(s) == None
  {
    var t := Strip(s);
    if 0 < i {
      assert t[1..][i - 1] == t[i];
    }
  }
}
