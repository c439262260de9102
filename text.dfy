/**
 * Character classes and string operations that the pipeline borrows from
 * Python: the regex classes \d, \w and \s, str.isdigit, str.lower,
 * str.upper, str.strip, str.zfill and substring search.
 *
 * Every class is modelled exactly for the characters up to U+00FF
 * (ASCII and Latin-1, which covers French text); characters beyond that
 * are treated as neither letters, digits nor whitespace.
 */
module Text {

  /** Regex \d on a str pattern, restricted to Latin-1: only '0'..'9' are decimal digits there. */
  predicate IsDigit(c: char) {
    '0' <= c <= '9'
  }

  predicate AllDigits(s: string) {
    forall i :: 0 <= i < |s| ==> IsDigit(s[i])
  }

  /** str.isdigit on one character: the decimal digits and the superscripts one, two and three. */
  predicate IsDigitLike(c: char) {
    IsDigit(c) || c == '\U{00B2}' || c == '\U{00B3}' || c == '\U{00B9}'
  }

  /** str.isdigit on a whole string: non-empty and every character a digit. */
  predicate IsDigitString(s: string) {
    |s| > 0 && forall i :: 0 <= i < |s| ==> IsDigitLike(s[i])
  }

  /** str.isspace, which is also what \s and str.strip() use. */
  predicate IsSpace(c: char) {
    c == ' ' || '\t' <= c <= '\r' || '\U{001C}' <= c <= '\U{001F}' || c == '\U{0085}' || c == '\U{00A0}'
  }

  /** Regex \w on a str pattern: alphanumerics in the Unicode sense, and '_'. */
  predicate IsWordChar(c: char) {
    || 'a' <= c <= 'z' || 'A' <= c <= 'Z' || IsDigit(c) || c == '_'
    || c == '\U{00AA}' || c == '\U{00B2}' || c == '\U{00B3}' || c == '\U{00B5}'
    || c == '\U{00B9}' || c == '\U{00BA}' || '\U{00BC}' <= c <= '\U{00BE}'
    || ('\U{00C0}' <= c <= '\U{00FF}' && c != '\U{00D7}' && c != '\U{00F7}')
  }

  predicate IsUpperLetter(c: char) {
    'A' <= c <= 'Z' || ('\U{00C0}' <= c <= '\U{00DE}' && c != '\U{00D7}')
  }

  predicate IsLowerLetter(c: char) {
    'a' <= c <= 'z' || ('\U{00E0}' <= c <= '\U{00FE}' && c != '\U{00F7}')
  }

  function LowerChar(c: char): (r: char)
    ensures IsUpperLetter(c) ==> IsLowerLetter(r) && r as int == c as int + 32
    ensures !IsUpperLetter(c) ==> r == c
  {
    if IsUpperLetter(c) then (c as int + 32) as char else c
  }

  function UpperChar(c: char): (r: char)
    ensures IsLowerLetter(c) ==> IsUpperLetter(r) && r as int == c as int - 32
    ensures !IsLowerLetter(c) ==> r == c
  {
    if IsLowerLetter(c) then (c as int - 32) as char else c
  }

  /** str.lower */
  function Lower(s: string): (r: string)
    ensures |r| == |s|
    ensures forall i :: 0 <= i < |s| ==> r[i] == LowerChar(s[i])
  {
    seq(|s|, i requires 0 <= i < |s| => LowerChar(s[i]))
  }

  /** str.upper */
  function Upper(s: string): (r: string)
    ensures |r| == |s|
    ensures forall i :: 0 <= i < |s| ==> r[i] == UpperChar(s[i])
  {
    seq(|s|, i requires 0 <= i < |s| => UpperChar(s[i]))
  }

  lemma UpperIdempotent(s: string)
    ensures Upper(Upper(s)) == Upper(s)
  {
    var u := Upper(s);
    forall i | 0 <= i < |s| ensures Upper(u)[i] == u[i] {
      assert !IsLowerLetter(u[i]);
    }
  }

  /** Leading whitespace removed. */
  function TrimStart(s: string): (r: string)
    ensures |r| <= |s| && r == s[|s| - |r|..]
    ensures |r| > 0 ==> !IsSpace(r[0])
    ensures forall i :: 0 <= i < |s| - |r| ==> IsSpace(s[i])
  {
    if |s| > 0 && IsSpace(s[0]) then TrimStart(s[1..]) else s
  }

  /** Trailing whitespace removed. */
  function TrimEnd(s: string): (r: string)
    ensures |r| <= |s| && r == s[..|r|]
    ensures |r| > 0 ==> !IsSpace(r[|r| - 1])
    ensures forall i :: |r| <= i < |s| ==> IsSpace(s[i])
  {
    if |s| > 0 && IsSpace(s[|s| - 1]) then TrimEnd(s[..|s| - 1]) else s
  }

  /** str.strip() */
  function Strip(s: string): (r: string)
    ensures |r| == 0 || (!IsSpace(r[0]) && !IsSpace(r[|r| - 1]))
  {
    TrimEnd(TrimStart(s))
  }

  lemma StripOfStripped(s: string)
    requires |s| == 0 || (!IsSpace(s[0]) && !IsSpace(s[|s| - 1]))
    ensures Strip(s) == s
  {
  }

  /** One space on each side of a stripped text is removed by strip(). */
  lemma StripPadded(x: string)
    requires |x| > 0 && !IsSpace(x[0]) && !IsSpace(x[|x| - 1])
    ensures Strip([' '] + x + [' ']) == x
  {
    var s := [' '] + x + [' '];
    var y := x + [' '];
    assert s[0] == ' ' && s[1..] == y;
    assert TrimStart(s) == TrimStart(y);
    assert y[0] == x[0];
    assert TrimStart(y) == y;
    assert y[|y| - 1] == ' ' && y[..|y| - 1] == x;
    assert TrimEnd(y) == TrimEnd(x);
    assert TrimEnd(x) == x;
  }

  /** Upper-casing neither creates nor removes whitespace. */
  lemma UpperKeepsStripped(s: string)
    requires |s| == 0 || (!IsSpace(s[0]) && !IsSpace(s[|s| - 1]))
    ensures Strip(Upper(s)) == Upper(s)
  {
    var u := Upper(s);
    if |s| > 0 {
      assert !IsSpace(u[0]) && !IsSpace(u[|u| - 1]);
    }
    StripOfStripped(u);
  }

  /** Substring search: p occurs in s. */
  predicate Contains(s: string, p: string) {
    exists i :: 0 <= i <= |s| && p <= s[i..]
  }

  /** An occurrence of p carries an occurrence of every tail of p. */
  lemma ContainsTail(s: string, p: string, k: nat)
    requires Contains(s, p) && k <= |p|
    ensures Contains(s, p[k..])
  {
    var i :| 0 <= i <= |s| && p <= s[i..];
    assert p[k..] <= s[i + k..] by {
      forall j | 0 <= j < |p| - k ensures s[i + k..][j] == p[k..][j] {
        assert s[i..][j + k] == p[j + k];
      }
    }
  }

  /** Every string occurs in itself. */
  lemma ContainsSelf(s: string)
    ensures Contains(s, s)
  {
    assert s <= s[0..];
  }

  /** An occurrence of p is no longer than s, and every character of p occurs in s. */
  lemma ContainsChars(s: string, p: string)
    requires Contains(s, p)
    ensures |p| <= |s|
    ensures forall j :: 0 <= j < |p| ==> p[j] in s
  {
    var i :| 0 <= i <= |s| && p <= s[i..];
    forall j | 0 <= j < |p| ensures p[j] in s {
      assert s[i + j] == p[j];
    }
  }

  /** Some keyword of ps occurs in s (a regex alternation of literal words). */
  predicate ContainsAny(s: string, ps: seq<string>) {
    exists k :: 0 <= k < |ps| && Contains(s, ps[k])
  }

  function Zeros(n: nat): (r: string)
    ensures |r| == n && forall i :: 0 <= i < n ==> r[i] == '0'
  {
    if n == 0 then "" else "0" + Zeros(n - 1)
  }

  /** str.zfill(width): left-pad with '0' to width, keeping a leading sign in front. */
  function ZFill(s: string, width: nat): (r: string)
    ensures |s| >= width ==> r == s
    ensures |s| < width ==> |r| == width
    ensures |s| < width && (|s| == 0 || (s[0] != '+' && s[0] != '-')) ==> r == Zeros(width - |s|) + s
  {
    if |s| >= width then s
    else if |s| > 0 && (s[0] == '+' || s[0] == '-') then [s[0]] + Zeros(width - |s|) + s[1..]
    else Zeros(width - |s|) + s
  }

  /** Decimal rendering of a natural number. */
  function NatText(n: nat): (r: string)
    ensures |r| > 0 && AllDigits(r)
  {
    if n < 10 then [('0' as int + n) as char] else NatText(n / 10) + [('0' as int + n % 10) as char]
  }
}
