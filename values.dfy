/**
 * Cell values of a data frame and the pandas conversions the pipeline
 * applies to them: astype(str), pd.to_numeric(errors="coerce"), fillna
 * and Series.between.
 */
module Values {
  import opened Text

  datatype Option<+T> = None | Some(value: T)

  /**
   * One cell. Missing stands for both NaN and None: the pipeline only ever
   * tests them with isna/notna, and their text forms ("nan", "None") never
   * match a keyword or a truthy token.
   */
  datatype Value = Missing | Str(s: string) | Num(x: real) | Flag(b: bool)

  /** What pd.to_numeric(errors="coerce") can produce. */
  type Numeric = v: Value | v.Missing? || v.Num? witness Missing

  function FromOption(o: Option<string>): (v: Value)
    ensures o.None? <==> v.Missing?
    ensures o.Some? ==> v == Str(o.value)
  {
    match o
    case None => Missing
    case Some(s) => Str(s)
  }

  /** Up to n fractional digits of f, assumed in [0, 1). */
  function FracDigits(f: real, n: nat): (r: string)
    ensures |r| == n && AllDigits(r)
    decreases n
  {
    if n == 0 then ""
    else
      var d := (f * 10.0).Floor;
      var d' := if d < 0 then 0 else if d > 9 then 9 else d;
      [('0' as int + d') as char] + FracDigits(f * 10.0 - d' as real, n - 1)
  }

  function DropTrailingZeros(s: string): (r: string)
    ensures |r| <= |s| && r == s[..|r|]
  {
    if |s| > 0 && s[|s| - 1] == '0' then DropTrailingZeros(s[..|s| - 1]) else s
  }

  /** The text of a float: integral values as "75010.0", others with up to six decimals. */
  function RealText(x: real): string {
    var a := if x < 0.0 then -x else x;
    var ip := a.Floor;
    var frac := DropTrailingZeros(FracDigits(a - ip as real, 6));
    (if x < 0.0 then "-" else "") + NatText(ip) + "." + (if frac == "" then "0" else frac)
  }

  /** Series.astype(str) on one cell. */
  function AsText(v: Value): string {
    match v
    case Missing => "nan"
    case Str(s) => s
    case Num(x) => RealText(x)
    case Flag(b) => if b then "True" else "False"
  }

  /** Value of a run of decimal digits. */
  function DigitsValue(s: string): (n: nat)
    requires AllDigits(s)
  {
    if |s| == 0 then 0 else DigitsValue(s[..|s| - 1]) * 10 + (s[|s| - 1] as int - '0' as int)
  }

  /** Value of the digits after a decimal point. */
  function FractionValue(s: string): (x: real)
    requires AllDigits(s)
    ensures 0.0 <= x <= 1.0
  {
    if |s| == 0 then 0.0 else ((s[0] as int - '0' as int) as real + FractionValue(s[1..])) / 10.0
  }

  function IndexOfDot(s: string): (k: nat)
    ensures k <= |s|
    ensures k < |s| ==> s[k] == '.'
    ensures forall i :: 0 <= i < k ==> s[i] != '.'
  {
    if |s| == 0 then 0 else if s[0] == '.' then 0 else 1 + IndexOfDot(s[1..])
  }

  /** An unsigned decimal literal: digits, optionally a point and more digits, at least one digit. */
  function ParseUnsigned(s: string): (r: Option<real>)
    ensures r.Some? ==> r.value >= 0.0
  {
    var k := IndexOfDot(s);
    var ip := s[..k];
    var fp := if k < |s| then s[k + 1..] else "";
    if AllDigits(ip) && AllDigits(fp) && |ip| + |fp| > 0
    then Some(DigitsValue(ip) as real + FractionValue(fp))
    else None
  }

  /** A decimal literal with an optional sign, as float() reads it. */
  function ParseDecimal(s: string): Option<real> {
    if |s| > 0 && (s[0] == '-' || s[0] == '+') then
      match ParseUnsigned(s[1..])
      case None => None
      case Some(x) => Some(if s[0] == '-' then -x else x)
    else ParseUnsigned(s)
  }

  /** pd.to_numeric(errors="coerce") on one cell: text that is not a number becomes missing. */
  function ToNumeric(v: Value): (r: Numeric)
    ensures v.Num? ==> r == v
    ensures v.Missing? ==> r == Missing
  {
    match v
    case Missing => Missing
    case Num(x) => Num(x)
    case Flag(b) => Num(if b then 1.0 else 0.0)
    case Str(s) =>
      match ParseDecimal(Strip(s))
      case None => Missing
      case Some(x) => Num(x)
  }

  /** Series.fillna(other) on one cell. */
  function FillNa(v: Value, other: Value): (r: Value)
    ensures v.Num? ==> r == v
    ensures v.Missing? ==> r == other
  {
    if v.Missing? then other else v
  }

  /** A cell compared with numbers: bools compare as 0 and 1, missing compares false. */
  function AsReal(v: Value): Option<real> {
    match v
    case Num(x) => Some(x)
    case Flag(b) => Some(if b then 1.0 else 0.0)
    case _ => None
  }

  /** Series.between(lo, hi), both ends included. */
  predicate Between(v: Value, lo: real, hi: real) {
    AsReal(v).Some? && lo <= AsReal(v).value <= hi
  }

  /** Series.ge(t): missing is false. */
  predicate AtLeast(v: Value, t: real) {
    AsReal(v).Some? && AsReal(v).value >= t
  }

  /** Series.gt(t): missing is false. */
  predicate Above(v: Value, t: real) {
    AsReal(v).Some? && AsReal(v).value > t
  }

  /** Series.le(t): missing is false. */
  predicate AtMost(v: Value, t: real) {
    AsReal(v).Some? && AsReal(v).value <= t
  }

  lemma ParseSimpleInteger()
    ensures ParseDecimal("150") == Some(150.0)
    ensures ParseDecimal("-5") == Some(-5.0)
  {
    assert IndexOfDot("150") == 3;
    assert "150"[..3] == "150";
    assert DigitsValue("150") == 150 by {
      assert "150"[..2] == "15" && "15"[..1] == "1" && "1"[..0] == "";
    }
    assert IndexOfDot("5") == 1;
    assert "5"[..1] == "5" && "5"[..0] == "";
  }
}
