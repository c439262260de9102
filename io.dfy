/**
 * utils/io.py: resolving a field among candidate column names (_first_col),
 * reading a combined "lon,lat" coordinate (_split_coords), and the column
 * logic of load_irve_csv once the file is read.
 */
module Io {
  import opened Text
  import opened Values
  import opened Seqs
  import opened Tables

  const LAT_CANDS: seq<string> := ["y_latitude", "latitude", "lat", "ylat"]
  const LON_CANDS: seq<string> := ["x_longitude", "longitude", "lon", "xlong"]
  const COORD_CANDS: seq<string> := ["coordonneesxy", "coordonnees_xy", "coordonnees", "geom"]
  const POWER_CANDS: seq<string> := ["puissance_nominale", "puissance_kw", "puissance"]
  const STATUS_CANDS: seq<string> := ["etat_pdc", "statut_pdc", "statut"]
  const ACCESS_CANDS: seq<string> := ["accessibilite", "acces_recharge", "access"]
  const OPERATOR_CANDS: seq<string> := ["n_operateur", "operateur", "nom_operateur", "id_operateur"]
  const REGION_CANDS: seq<string> := ["region", "nom_region", "region_administrative"]
  const DEPT_CANDS: seq<string> := ["departement", "code_departement", "dept"]

  // ---------------------------------------------------------------------------
  // _first_col
  // ---------------------------------------------------------------------------

  /**
   * {c.lower(): c for c in df.columns}[cand], looked up among the first n
   * columns: the dictionary keeps the last column written under a key, so
   * this is the index of the last column whose lower-cased name is cand.
   */
  function LastLowered(cols: seq<string>, cand: string, n: nat): (r: Option<nat>)
    requires n <= |cols|
    ensures r.Some? ==> r.value < n && LowersTo(cols, r.value, cand)
    ensures r.Some? ==> forall j :: r.value < j < n ==> !LowersTo(cols, j, cand)
    ensures r.None? <==> forall j :: 0 <= j < n ==> !LowersTo(cols, j, cand)
  {
    if n == 0 then None
    else if LowersTo(cols, n - 1, cand) then Some(n - 1)
    else LastLowered(cols, cand, n - 1)
  }

  /** Column j lower-cases to cand. */
  predicate LowersTo(cols: seq<string>, j: int, cand: string) {
    0 <= j < |cols| && Lower(cols[j]) == cand
  }

  /** Some column lower-cases to cand. */
  predicate HasLowered(cols: seq<string>, cand: string) {
    exists j :: 0 <= j < |cols| && LowersTo(cols, j, cand)
  }

  /** The exact phase from candidate k on: the first candidate, in priority order, that some column lower-cases to. */
  function ExactFrom(cols: seq<string>, cands: seq<string>, k: nat): (r: Option<nat>)
    requires k <= |cands|
    ensures r.Some? ==> k <= r.value < |cands| && HasLowered(cols, cands[r.value])
    ensures r.Some? ==> forall j :: k <= j < r.value ==> !HasLowered(cols, cands[j])
    ensures r.None? <==> forall j :: k <= j < |cands| ==> !HasLowered(cols, cands[j])
    decreases |cands| - k
  {
    if k == |cands| then None
    else if HasLowered(cols, cands[k]) then Some(k)
    else ExactFrom(cols, cands, k + 1)
  }

  /**
   * re.fullmatch(".*" + cand + ".*", name) for a candidate without regex
   * metacharacters: cand occurs in name, and name has no newline, which
   * "." does not match.
   */
  predicate LooseMatch(name: string, cand: string) {
    Contains(name, cand) && '\n' !in name
  }

  predicate LooseMatchesAny(col: string, cands: seq<string>) {
    exists k :: 0 <= k < |cands| && LooseMatch(Lower(col), cands[k])
  }

  /** The loose phase from column i on: the first column, in table order, that loosely matches a candidate. */
  function LooseFrom(cols: seq<string>, cands: seq<string>, i: nat): (r: Option<nat>)
    requires i <= |cols|
    ensures r.Some? ==> i <= r.value < |cols| && LooseAt(cols, r.value, cands)
    ensures r.Some? ==> forall l :: i <= l < r.value ==> !LooseAt(cols, l, cands)
    ensures r.None? <==> forall j :: i <= j < |cols| ==> !LooseAt(cols, j, cands)
    decreases |cols| - i
  {
    if i == |cols| then None
    else if LooseAt(cols, i, cands) then Some(i)
    else LooseFrom(cols, cands, i + 1)
  }

  /** Column j loosely matches a candidate. */
  predicate LooseAt(cols: seq<string>, j: int, cands: seq<string>) {
    0 <= j < |cols| && LooseMatchesAny(cols[j], cands)
  }

  /** Some candidate occurs in the lower-cased name. */
  predicate Mentions(col: string, cands: seq<string>) {
    exists k :: 0 <= k < |cands| && Contains(Lower(col), cands[k])
  }

  /** A column whose lower-cased name is a candidate mentions that candidate. */
  lemma LoweredMentions(col: string, cands: seq<string>, k: nat)
    requires k < |cands| && Lower(col) == cands[k]
    ensures Mentions(col, cands)
  {
    ContainsSelf(cands[k]);
  }

  /** _first_col: the exact phase, then the loose phase only if the exact phase found nothing. */
  function FirstCol(cols: seq<string>, cands: seq<string>): (r: Option<string>)
    ensures r.Some? ==> r.value in cols && Mentions(r.value, cands)
  {
    match ExactFrom(cols, cands, 0)
    case Some(k) =>
      var i := LastLowered(cols, cands[k], |cols|).value;
      LoweredMentions(cols[i], cands, k);
      Some(cols[i])
    case None =>
      match LooseFrom(cols, cands, 0)
      case Some(j) => Some(cols[j])
      case None => None
  }

  /**
   * An exact match wins over any loose match, whatever the column order:
   * the first candidate that some column lower-cases to decides, and the
   * last column with that lower-cased name is returned.
   */
  lemma ExactWins(cols: seq<string>, cands: seq<string>, k: nat, i: nat)
    requires k < |cands| && i < |cols| && Lower(cols[i]) == cands[k]
    requires forall j :: 0 <= j < k ==> forall c :: c in cols ==> Lower(c) != cands[j]
    ensures exists m :: (0 <= m < |cols| && FirstCol(cols, cands) == Some(cols[m]) && Lower(cols[m]) == cands[k]
      && forall l :: m < l < |cols| ==> Lower(cols[l]) != cands[k])
  {
    forall j | 0 <= j < k ensures !HasLowered(cols, cands[j]) {
      forall l | 0 <= l < |cols| ensures !LowersTo(cols, l, cands[j]) {
        assert cols[l] in cols;
      }
    }
    assert LowersTo(cols, i, cands[k]);
    assert HasLowered(cols, cands[k]);
    assert ExactFrom(cols, cands, 0) == Some(k);
    var m := LastLowered(cols, cands[k], |cols|).value;
    assert FirstCol(cols, cands) == Some(cols[m]);
    forall l | m < l < |cols| ensures Lower(cols[l]) != cands[k] {
      assert !LowersTo(cols, l, cands[k]);
    }
  }

  /** If two columns lower-case to the first candidate, the later one is returned. */
  lemma LaterDuplicateWins(cols: seq<string>, cands: seq<string>, i: nat, j: nat)
    requires NoDup(cols) && |cands| > 0
    requires i < j < |cols| && Lower(cols[i]) == cands[0] && Lower(cols[j]) == cands[0]
    ensures FirstCol(cols, cands).Some? && FirstCol(cols, cands) != Some(cols[i])
  {
    ExactWins(cols, cands, 0, j);
    var m :| 0 <= m < |cols| && FirstCol(cols, cands) == Some(cols[m]) && Lower(cols[m]) == cands[0]
      && forall l :: m < l < |cols| ==> Lower(cols[l]) != cands[0];
    NoDupPairwise(cols);
  }

  /** _first_col gives None exactly when no column matches a candidate even loosely. */
  lemma FirstColNoneIff(cols: seq<string>, cands: seq<string>)
    requires forall k :: 0 <= k < |cands| ==> '\n' !in cands[k]
    ensures FirstCol(cols, cands).None? <==> forall j :: 0 <= j < |cols| ==> !LooseMatchesAny(cols[j], cands)
  {
    match ExactFrom(cols, cands, 0)
    case Some(k) =>
      var i := LastLowered(cols, cands[k], |cols|).value;
      ContainsSelf(cands[k]);
      assert LooseMatch(Lower(cols[i]), cands[k]);
    case None =>
      if forall j :: 0 <= j < |cols| ==> !LooseMatchesAny(cols[j], cands) {
        forall j | 0 <= j < |cols| ensures !LooseAt(cols, j, cands) {
        }
      } else {
        var j :| 0 <= j < |cols| && LooseMatchesAny(cols[j], cands);
        assert LooseAt(cols, j, cands);
      }
  }

  /** A resolved name is never empty, so `if lat_col and lon_col` tests only that both resolved. */
  lemma ResolvedNameIsTruthy(cols: seq<string>, cands: seq<string>)
    requires forall k :: 0 <= k < |cands| ==> |cands[k]| > 0
    requires FirstCol(cols, cands).Some?
    ensures |FirstCol(cols, cands).value| > 0
  {
    var c := FirstCol(cols, cands).value;
    var k :| 0 <= k < |cands| && Contains(Lower(c), cands[k]);
    ContainsChars(Lower(c), cands[k]);
  }

  /** df[c] = ...: an existing column keeps its place, a new one goes last. */
  function AddName(cols: seq<string>, c: string): seq<string> {
    if c in cols then cols else cols + [c]
  }

  /** Adding a column that no candidate occurs in leaves _first_col's answer unchanged. */
  lemma FirstColAfterAdding(cols: seq<string>, a: string, cands: seq<string>)
    requires !Mentions(a, cands)
    ensures FirstCol(AddName(cols, a), cands) == FirstCol(cols, cands)
  {
    if a !in cols {
      var cols' := cols + [a];
      assert !LooseMatchesAny(a, cands);
      forall k | 0 <= k < |cands| ensures LastLowered(cols', cands[k], |cols'|) == LastLowered(cols, cands[k], |cols|) {
        if Lower(a) == cands[k] {
          LoweredMentions(a, cands, k);
        }
        LastLoweredPrefix(cols, cols', cands[k], |cols|);
      }
      ExactFromSame(cols, cols', cands, 0);
      LooseFromAppend(cols, a, cands, 0);
    }
  }

  lemma {:induction false} LastLoweredPrefix(cols: seq<string>, cols': seq<string>, cand: string, n: nat)
    requires n <= |cols| && n <= |cols'| && cols[..n] == cols'[..n]
    ensures LastLowered(cols', cand, n) == LastLowered(cols, cand, n)
  {
    if n > 0 {
      assert cols[n - 1] == cols[..n][n - 1] && cols'[n - 1] == cols'[..n][n - 1];
      assert cols[..n - 1] == cols[..n][..n - 1] && cols'[..n - 1] == cols'[..n][..n - 1];
      LastLoweredPrefix(cols, cols', cand, n - 1);
    }
  }

  lemma {:induction false} ExactFromSame(cols: seq<string>, cols': seq<string>, cands: seq<string>, k: nat)
    requires k <= |cands|
    requires forall j :: 0 <= j < |cands| ==> HasLowered(cols', cands[j]) == HasLowered(cols, cands[j])
    ensures ExactFrom(cols', cands, k) == ExactFrom(cols, cands, k)
    decreases |cands| - k
  {
    if k < |cands| {
      assert HasLowered(cols', cands[k]) == HasLowered(cols, cands[k]);
      ExactFromSame(cols, cols', cands, k + 1);
    }
  }

  lemma {:induction false} LooseFromAppend(cols: seq<string>, a: string, cands: seq<string>, i: nat)
    requires i <= |cols| && !LooseMatchesAny(a, cands)
    ensures LooseFrom(cols + [a], cands, i) == LooseFrom(cols, cands, i)
    decreases |cols| - i
  {
    if i < |cols| {
      assert (cols + [a])[i] == cols[i];
      LooseFromAppend(cols, a, cands, i + 1);
    } else {
      assert (cols + [a])[i] == a;
    }
  }

  /** Every candidate is longer than a, so none occurs in it. */
  lemma ShorterThanCandidates(a: string, cands: seq<string>)
    requires forall k :: 0 <= k < |cands| ==> |cands[k]| > |a|
    ensures !Mentions(a, cands)
  {
    forall k | 0 <= k < |cands| ensures !Contains(Lower(a), cands[k]) {
      if Contains(Lower(a), cands[k]) {
        ContainsChars(Lower(a), cands[k]);
      }
    }
  }

  /** A lower-case letter that every candidate has and a lacks in both cases rules every candidate out. */
  lemma LetterMissing(a: string, cands: seq<string>, ch: char)
    requires 'a' <= ch <= 'z' && ch !in a && UpperChar(ch) !in a
    requires forall k :: 0 <= k < |cands| ==> ch in cands[k]
    ensures !Mentions(a, cands)
  {
    assert ch !in Lower(a);
    forall k | 0 <= k < |cands| ensures !Contains(Lower(a), cands[k]) {
      if Contains(Lower(a), cands[k]) {
        var j :| 0 <= j < |cands[k]| && cands[k][j] == ch;
        ContainsChars(Lower(a), cands[k]);
      }
    }
  }

  // ---------------------------------------------------------------------------
  // _split_coords
  // ---------------------------------------------------------------------------

  /** End of the run of decimal digits that starts at i. */
  function DigitsEnd(s: string, i: nat): (j: nat)
    requires i <= |s|
    ensures i <= j <= |s|
    ensures forall k :: i <= k < j ==> DigitAt(s, k)
    ensures !DigitAt(s, j)
    decreases |s| - i
  {
    if DigitAt(s, i) then DigitsEnd(s, i + 1) else i
  }

  predicate DigitAt(s: string, k: int) {
    0 <= k < |s| && IsDigit(s[k])
  }

  /** End of the run of whitespace that starts at i. */
  function SpacesEnd(s: string, i: nat): (j: nat)
    requires i <= |s|
    ensures i <= j <= |s|
    ensures forall k :: i <= k < j ==> SpaceAt(s, k)
    ensures !SpaceAt(s, j)
    decreases |s| - i
  {
    if SpaceAt(s, i) then SpacesEnd(s, i + 1) else i
  }

  predicate SpaceAt(s: string, k: int) {
    0 <= k < |s| && IsSpace(s[k])
  }

  /**
   * Where the match of -?\d+\.?\d* starting at i ends, if one starts there.
   * Every quantifier is greedy, and backtracking never helps: a shorter
   * match would end just before a digit or a point.
   */
  function NumberEnd(s: string, i: nat): (r: Option<nat>)
    requires i <= |s|
    ensures r.Some? ==> i < r.value <= |s|
  {
    var d := if i < |s| && s[i] == '-' then i + 1 else i;
    var e := DigitsEnd(s, d);
    if e == d then None
    else if e < |s| && s[e] == '.' then Some(DigitsEnd(s, e + 1))
    else Some(e)
  }

  /** \s*[, ] matches at j: whitespace, then a comma or a space. */
  predicate SeparatorAt(s: string, j: nat)
    decreases |s| - j
  {
    j < |s| && (s[j] == ',' || s[j] == ' ' || (IsSpace(s[j]) && SeparatorAt(s, j + 1)))
  }

  /** (-?\d+\.?\d*)\s*[, ] matches at i: the longitude pattern. */
  predicate LonAt(s: string, i: nat) {
    i <= |s| && NumberEnd(s, i).Some? && SeparatorAt(s, NumberEnd(s, i).value)
  }

  /** ,\s*(-?\d+\.?\d*) matches at i: the latitude pattern. */
  predicate LatAt(s: string, i: nat) {
    i < |s| && s[i] == ',' && NumberEnd(s, SpacesEnd(s, i + 1)).Some?
  }

  function FirstLonFrom(s: string, i: nat): (r: Option<nat>)
    requires i <= |s|
    ensures r.Some? ==> i <= r.value && LonAt(s, r.value) && forall j :: i <= j < r.value ==> !LonAt(s, j)
    ensures r.None? ==> forall j :: i <= j ==> !LonAt(s, j)
    decreases |s| - i
  {
    if LonAt(s, i) then Some(i) else if i == |s| then None else FirstLonFrom(s, i + 1)
  }

  function FirstLatFrom(s: string, i: nat): (r: Option<nat>)
    requires i <= |s|
    ensures r.Some? ==> i <= r.value && LatAt(s, r.value) && forall j :: i <= j < r.value ==> !LatAt(s, j)
    ensures r.None? ==> forall j :: i <= j ==> !LatAt(s, j)
    decreases |s| - i
  {
    if LatAt(s, i) then Some(i) else if i == |s| then None else FirstLatFrom(s, i + 1)
  }

  /** str.extract(r"(-?\d+\.?\d*)\s*[, ]")[0]: the number of the leftmost match. */
  function LonText(s: string): Option<string> {
    match FirstLonFrom(s, 0)
    case None => None
    case Some(i) => Some(s[i..NumberEnd(s, i).value])
  }

  /** str.extract(r",\s*(-?\d+\.?\d*)")[0]: the number of the leftmost match. */
  function LatText(s: string): Option<string> {
    match FirstLatFrom(s, 0)
    case None => None
    case Some(i) =>
      var k := SpacesEnd(s, i + 1);
      Some(s[k..NumberEnd(s, k).value])
  }

  /** Every character of a matched number is a digit, the minus sign or the point. */
  lemma NumberChars(s: string, i: nat)
    requires i <= |s| && NumberEnd(s, i).Some?
    ensures forall k :: i <= k < NumberEnd(s, i).value ==> NumberCharAt(s, k)
    ensures i < |s| && (IsDigit(s[i]) || s[i] == '-')
  {
    var d := if i < |s| && s[i] == '-' then i + 1 else i;
    var e := DigitsEnd(s, d);
    assert DigitAt(s, d);
    forall k | i <= k < NumberEnd(s, i).value ensures NumberCharAt(s, k) {
      if d <= k < e {
        assert DigitAt(s, k);
      } else if e + 1 <= k {
        assert DigitAt(s, k);
      }
    }
  }

  predicate NumberCharAt(s: string, k: int) {
    0 <= k < |s| && (IsDigit(s[k]) || s[k] == '-' || s[k] == '.')
  }

  /** The digits from d up to DigitsEnd(s, d), as a string, are all digits. */
  lemma DigitRun(s: string, d: nat)
    requires d <= |s|
    ensures AllDigits(s[d..DigitsEnd(s, d)])
  {
    var x := s[d..DigitsEnd(s, d)];
    forall j | 0 <= j < |x| ensures IsDigit(x[j]) {
      assert x[j] == s[d + j] && DigitAt(s, d + j);
    }
  }

  /** \d+\.?\d* from d to e reads as an unsigned decimal. */
  lemma UnsignedParses(s: string, d: nat, e: nat)
    requires d <= |s| && d < DigitsEnd(s, d) <= e <= |s|
    requires e == DigitsEnd(s, d) || (s[DigitsEnd(s, d)] == '.' && e == DigitsEnd(s, DigitsEnd(s, d) + 1))
    ensures ParseUnsigned(s[d..e]).Some?
  {
    var e1 := DigitsEnd(s, d);
    var u := s[d..e];
    var k := e1 - d;
    forall j | 0 <= j < k ensures u[j] != '.' {
      assert u[j] == s[d + j] && DigitAt(s, d + j);
    }
    assert k < |u| ==> u[k] == s[e1];
    assert IndexOfDot(u) == k;
    DigitRun(s, d);
    assert u[..k] == s[d..e1];
    assert AllDigits(u[..k]) && |u[..k]| > 0;
    if e1 < e {
      DigitRun(s, e1 + 1);
      assert u[k + 1..] == s[e1 + 1..e];
      assert AllDigits(u[k + 1..]);
    } else {
      assert k == |u|;
      assert AllDigits("");
    }
  }

  /** The text of a matched number has no surrounding whitespace. */
  lemma NumberTextStripped(s: string, i: nat)
    requires i <= |s| && NumberEnd(s, i).Some?
    ensures Strip(s[i..NumberEnd(s, i).value]) == s[i..NumberEnd(s, i).value]
  {
    var e := NumberEnd(s, i).value;
    var t := s[i..e];
    NumberChars(s, i);
    assert NumberCharAt(s, e - 1);
    assert t[0] == s[i] && t[|t| - 1] == s[e - 1];
    StripOfStripped(t);
  }

  /** The text of a matched number reads as a decimal. */
  lemma NumberTextParses(s: string, i: nat)
    requires i <= |s| && NumberEnd(s, i).Some?
    ensures ParseDecimal(s[i..NumberEnd(s, i).value]).Some?
  {
    var e := NumberEnd(s, i).value;
    var t := s[i..e];
    assert t[0] == s[i];
    var d := if s[i] == '-' then i + 1 else i;
    UnsignedParses(s, d, e);
    if s[i] == '-' {
      assert t[1..] == s[d..e];
    } else {
      assert t == s[d..e];
    }
  }

  /** A matched number always converts: pd.to_numeric never turns it into NaN. */
  lemma NumberParses(s: string, i: nat)
    requires i <= |s| && NumberEnd(s, i).Some?
    ensures ToNumeric(Str(s[i..NumberEnd(s, i).value])).Num?
  {
    NumberTextStripped(s, i);
    NumberTextParses(s, i);
  }

  /** _split_coords on one cell: (lat, lon), each a number when its pattern matches and NaN otherwise. */
  function SplitCoords(v: Value): (r: (Numeric, Numeric))
    ensures r.0.Num? <==> LatText(AsText(v)).Some?
    ensures r.1.Num? <==> LonText(AsText(v)).Some?
  {
    var s := AsText(v);
    ExtractedTextsParse(s);
    (ToNumeric(FromOption(LatText(s))), ToNumeric(FromOption(LonText(s))))
  }

  lemma ExtractedTextsParse(s: string)
    ensures LatText(s).Some? ==> ToNumeric(Str(LatText(s).value)).Num?
    ensures LonText(s).Some? ==> ToNumeric(Str(LonText(s).value)).Num?
  {
    if LatText(s).Some? {
      var i := FirstLatFrom(s, 0).value;
      NumberParses(s, SpacesEnd(s, i + 1));
    }
    if LonText(s).Some? {
      NumberParses(s, FirstLonFrom(s, 0).value);
    }
  }

  /** A number as _split_coords reads it: an optional minus, digits, and an optional point and digits. */
  predicate NumberText(a: string) {
    NumberEnd(a, 0) == Some(|a|)
  }

  lemma {:induction false} DigitsEndIn(s: string, off: nat, a: string, k: nat)
    requires off + |a| <= |s| && s[off..off + |a|] == a && k <= |a|
    requires DigitsEnd(a, k) < |a| || off + |a| == |s| || !IsDigit(s[off + |a|])
    ensures DigitsEnd(s, off + k) == off + DigitsEnd(a, k)
    decreases |a| - k
  {
    if k < |a| {
      assert s[off + k] == a[k];
      if IsDigit(a[k]) {
        DigitsEndIn(s, off, a, k + 1);
      }
    }
  }

  /** A number text read inside a longer string ends where it ends, unless a digit or a point follows it. */
  lemma NumberEndIn(s: string, off: nat, a: string)
    requires NumberText(a)
    requires off + |a| <= |s| && s[off..off + |a|] == a
    requires off + |a| == |s| || (!IsDigit(s[off + |a|]) && s[off + |a|] != '.')
    ensures NumberEnd(s, off) == Some(off + |a|)
  {
    assert s[off] == a[0];
    var d := if a[0] == '-' then 1 else 0;
    var e := DigitsEnd(a, d);
    DigitsEndIn(s, off, a, d);
    if e < |a| {
      assert s[off + e] == a[e];
      DigitsEndIn(s, off, a, e + 1);
    }
  }

  lemma NumberTextShape(a: string)
    requires NumberText(a)
    ensures ',' !in a && |a| > 0 && !IsSpace(a[0])
  {
    NumberChars(a, 0);
    forall j | 0 <= j < |a| ensures a[j] != ',' {
      assert NumberCharAt(a, j);
    }
  }

  /** A comma-free text a read inside s at off puts no comma there. */
  lemma NoCommaIn(s: string, off: nat, a: string)
    requires off + |a| <= |s| && s[off..off + |a|] == a && ',' !in a
    ensures forall j :: off <= j < off + |a| ==> s[j] != ','
  {
    forall j | off <= j < off + |a| ensures s[j] != ',' {
      assert s[j] == a[j - off] && a[j - off] in a;
    }
  }

  /** The latitude search from i stops at the first position where the pattern matches. */
  lemma {:induction false} FirstLatIs(s: string, i: nat, m: nat)
    requires i <= m <= |s| && LatAt(s, m)
    requires forall j :: i <= j < m ==> !LatAt(s, j)
    ensures FirstLatFrom(s, i) == Some(m)
    decreases m - i
  {
    if i < m {
      FirstLatIs(s, i + 1, m);
    }
  }

  /** The longitude search from i stops at the first position where the pattern matches. */
  lemma {:induction false} FirstLonIs(s: string, i: nat, m: nat)
    requires i <= m <= |s| && LonAt(s, m)
    requires forall j :: i <= j < m ==> !LonAt(s, j)
    ensures FirstLonFrom(s, i) == Some(m)
    decreases m - i
  {
    if i < m {
      FirstLonIs(s, i + 1, m);
    }
  }

  /** The longitude text is the number a that starts at lonStart when no earlier position matches. */
  lemma LonTextIs(s: string, lonStart: nat, a: string)
    requires lonStart + |a| <= |s|
    requires forall j :: 0 <= j < lonStart ==> !LonAt(s, j)
    requires NumberEnd(s, lonStart) == Some(lonStart + |a|) && s[lonStart..lonStart + |a|] == a
    requires SeparatorAt(s, lonStart + |a|)
    ensures LonText(s) == Some(a)
  {
    assert LonAt(s, lonStart);
    FirstLonIs(s, 0, lonStart);
  }

  /** The latitude text is the number b after the first comma, at sep. */
  lemma LatTextIs(s: string, sep: nat, latStart: nat, b: string)
    requires sep < latStart <= |s| && s[sep] == ','
    requires forall j :: 0 <= j < sep ==> s[j] != ','
    requires SpacesEnd(s, sep + 1) == latStart
    requires NumberEnd(s, latStart) == Some(latStart + |b|) && s[latStart..latStart + |b|] == b
    ensures LatText(s) == Some(b)
  {
    assert LatAt(s, sep);
    forall j | 0 <= j < sep ensures !LatAt(s, j) {
    }
    FirstLatIs(s, 0, sep);
  }

  /** Texts that are whole numbers convert to numbers. */
  lemma TextsConvert(a: string, b: string)
    requires NumberText(a) && NumberText(b)
    ensures ToNumeric(Str(a)).Num? && ToNumeric(Str(b)).Num?
  {
    NumberParses(a, 0);
    NumberParses(b, 0);
    assert a[0..|a|] == a && b[0..|b|] == b;
  }

  /** How _split_coords reads a pair: lon is the text before the comma at sep, lat the text after it. */
  lemma SplitAt(s: string, a: string, b: string)
    requires NumberText(a) && NumberText(b)
    requires LonText(s) == Some(a) && LatText(s) == Some(b)
    ensures SplitCoords(Str(s)) == (ToNumeric(Str(b)), ToNumeric(Str(a)))
    ensures SplitCoords(Str(s)).0.Num? && SplitCoords(Str(s)).1.Num?
  {
    assert AsText(Str(s)) == s;
    TextsConvert(a, b);
  }

  /** "lon,lat" is read back as (lat, lon). */
  lemma SplitCommaPair(a: string, b: string)
    requires NumberText(a) && NumberText(b)
    ensures SplitCoords(Str(a + "," + b)) == (ToNumeric(Str(b)), ToNumeric(Str(a)))
    ensures SplitCoords(Str(a + "," + b)).0.Num? && SplitCoords(Str(a + "," + b)).1.Num?
  {
    CommaPairLon(a, b);
    CommaPairLat(a, b);
    SplitAt(a + "," + b, a, b);
  }

  lemma CommaPairLon(a: string, b: string)
    requires NumberText(a) && NumberText(b)
    ensures LonText(a + "," + b) == Some(a)
  {
    var s := a + "," + b;
    NumberTextShape(a);
    assert s[0..|a|] == a && s[|a|] == ',';
    NumberEndIn(s, 0, a);
    LonTextIs(s, 0, a);
  }

  lemma CommaPairLat(a: string, b: string)
    requires NumberText(a) && NumberText(b)
    ensures LatText(a + "," + b) == Some(b)
  {
    var s := a + "," + b;
    NumberTextShape(a);
    NumberTextShape(b);
    CommaPairShape(a, b);
    NumberEndIn(s, |a| + 1, b);
    NoCommaIn(s, 0, a);
    LatTextIs(s, |a|, |a| + 1, b);
  }

  /** Where the parts of "a,b" sit. */
  lemma CommaPairShape(a: string, b: string)
    requires |b| > 0
    ensures var s := a + "," + b;
      && s[|a|] == ',' && s[|a| + 1] == b[0]
      && s[0..|a|] == a && s[|a| + 1..|a| + 1 + |b|] == b
  {
  }

  /** "[lon, lat]" is read back as (lat, lon). */
  lemma SplitBracketPair(a: string, b: string)
    requires NumberText(a) && NumberText(b)
    ensures SplitCoords(Str("[" + a + ", " + b + "]")) == (ToNumeric(Str(b)), ToNumeric(Str(a)))
    ensures SplitCoords(Str("[" + a + ", " + b + "]")).0.Num? && SplitCoords(Str("[" + a + ", " + b + "]")).1.Num?
  {
    BracketPairLon(a, b);
    BracketPairLat(a, b);
    SplitAt("[" + a + ", " + b + "]", a, b);
  }

  lemma BracketPairLon(a: string, b: string)
    requires NumberText(a) && NumberText(b)
    ensures LonText("[" + a + ", " + b + "]") == Some(a)
  {
    var s := "[" + a + ", " + b + "]";
    NumberTextShape(a);
    assert s[0] == '[' && s[|a| + 1] == ',';
    assert s[1..1 + |a|] == a;
    NumberEndIn(s, 1, a);
    assert !LonAt(s, 0);
    LonTextIs(s, 1, a);
  }

  lemma BracketPairLat(a: string, b: string)
    requires NumberText(a) && NumberText(b)
    ensures LatText("[" + a + ", " + b + "]") == Some(b)
  {
    var s := "[" + a + ", " + b + "]";
    NumberTextShape(a);
    NumberTextShape(b);
    BracketPairShape(a, b);
    NumberEndIn(s, |a| + 3, b);
    assert SpacesEnd(s, |a| + 2) == |a| + 3;
    NoCommaIn(s, 1, a);
    LatTextIs(s, |a| + 1, |a| + 3, b);
  }

  /** Where the parts of "[a, b]" sit. */
  lemma BracketPairShape(a: string, b: string)
    requires |b| > 0
    ensures var s := "[" + a + ", " + b + "]";
      && s[0] == '[' && s[|a| + 1] == ',' && s[|a| + 2] == ' ' && s[|a| + 3] == b[0] && s[|a| + 3 + |b|] == ']'
      && s[1..1 + |a|] == a && s[|a| + 3..|a| + 3 + |b|] == b
  {
  }

  /** Text with neither a comma nor a space, such as a missing cell ("nan") or a float, gives (NaN, NaN). */
  lemma NoSeparatorGivesMissing(v: Value)
    requires ',' !in AsText(v) && ' ' !in AsText(v)
    ensures SplitCoords(v) == (Missing, Missing)
  {
    var s := AsText(v);
    forall j | 0 <= j <= |s| ensures !LonAt(s, j) {
      if LonAt(s, j) {
        NoSeparator(s, NumberEnd(s, j).value);
      }
    }
  }

  lemma {:induction false} NoSeparator(s: string, j: nat)
    requires ',' !in s && ' ' !in s
    ensures !SeparatorAt(s, j)
    decreases |s| - j
  {
    if j < |s| {
      NoSeparator(s, j + 1);
    }
  }

  // ---------------------------------------------------------------------------
  // load_irve_csv, after read_csv
  // ---------------------------------------------------------------------------

  /** The columns load_irve_csv resolves: lat_col, lon_col, coord_col, then one per field. */
  datatype Resolution = Resolution(
    lat: Option<string>, lon: Option<string>, coord: Option<string>,
    power: Option<string>, status: Option<string>, access: Option<string>,
    operator: Option<string>, region: Option<string>, dept: Option<string>)

  /** Every field resolved against the file's own columns. */
  function Resolve(cols: seq<string>): Resolution {
    Resolution(
      FirstCol(cols, LAT_CANDS), FirstCol(cols, LON_CANDS), FirstCol(cols, COORD_CANDS),
      FirstCol(cols, POWER_CANDS), FirstCol(cols, STATUS_CANDS), FirstCol(cols, ACCESS_CANDS),
      FirstCol(cols, OPERATOR_CANDS), FirstCol(cols, REGION_CANDS), FirstCol(cols, DEPT_CANDS))
  }

  /** c, when resolved, is none of the written names. */
  predicate Avoids(c: Option<string>, written: set<string>) {
    c.Some? ==> c.value !in written
  }

  /**
   * Each field's column is none of the names load_irve_csv has written by
   * the time the field is read, so every field reads the file's own cells.
   */
  predicate ReadsFileColumns(res: Resolution) {
    && Avoids(res.lon, {"lat"})
    && Avoids(res.power, {"lat", "lon"})
    && Avoids(res.status, {"lat", "lon", "power_kw"})
    && Avoids(res.access, {"lat", "lon", "power_kw", "status"})
    && Avoids(res.operator, {"lat", "lon", "power_kw", "status", "access"})
    && Avoids(res.region, {"lat", "lon", "power_kw", "status", "access", "operator"})
    && Avoids(res.dept, {"lat", "lon", "power_kw", "status", "access", "operator", "region"})
  }

  /** df["lat"], df["lon"]: both separate columns if both resolve, else the split combined column, else NA. */
  function WithCoordinates(res: Resolution, r: Row): Row {
    if res.lat.Some? && res.lon.Some? then
      var r1 := r["lat" := ToNumeric(Get(r, res.lat.value))];
      r1["lon" := ToNumeric(Get(r1, res.lon.value))]
    else if res.coord.Some? then
      var ll := SplitCoords(Get(r, res.coord.value));
      r["lat" := ll.0]["lon" := ll.1]
    else
      r["lat" := Missing]["lon" := Missing]
  }

  /** df["power_kw"]: the resolved power column converted to numbers, or NA. */
  function WithPower(res: Resolution, r: Row): Row {
    r["power_kw" := if res.power.Some? then ToNumeric(Get(r, res.power.value)) else Missing]
  }

  /** A text field: the resolved column as text (lower-cased or not), or the default constant. */
  function TextField(c: Option<string>, r: Row, lower: bool, default: string): Value {
    if c.None? then Str(default)
    else if lower then Str(Lower(AsText(Get(r, c.value))))
    else Str(AsText(Get(r, c.value)))
  }

  /** df["status"], df["access"], df["operator"], df["region"], df["dept"], in that order. */
  function WithTextFields(res: Resolution, r: Row): Row {
    var r1 := r["status" := TextField(res.status, r, true, "inconnu")];
    var r2 := r1["access" := TextField(res.access, r1, true, "inconnu")];
    var r3 := r2["operator" := TextField(res.operator, r2, false, "inconnu")];
    var r4 := r3["region" := TextField(res.region, r3, false, "NA")];
    r4["dept" := TextField(res.dept, r4, false, "NA")]
  }

  /** One row with every added column, each field read from the row as it stands at that point. */
  function LoadedRow(res: Resolution, r: Row): Row {
    WithTextFields(res, WithPower(res, WithCoordinates(res, r)))
  }

  function LoadedRows(res: Resolution, rows: seq<Row>): (rs: seq<Row>)
    ensures |rs| == |rows| && forall i :: 0 <= i < |rows| ==> rs[i] == LoadedRow(res, rows[i])
  {
    seq(|rows|, i requires 0 <= i < |rows| => LoadedRow(res, rows[i]))
  }

  /** df.loc[~df[c].between(-bound, bound), [c]] = NA on one cell. */
  function InRange(v: Value, bound: real): (r: Value)
    ensures r.Missing? || Between(r, -bound, bound)
    ensures Between(v, -bound, bound) ==> r == v
    ensures !Between(v, -bound, bound) ==> r.Missing?
  {
    if Between(v, -bound, bound) then v else Missing
  }

  /** Both coordinate maskings on one row. */
  function Plausible(r: Row): Row {
    r["lat" := InRange(Get(r, "lat"), 90.0)]["lon" := InRange(Get(r, "lon"), 180.0)]
  }

  function PlausibleRows(rows: seq<Row>): (rs: seq<Row>)
    ensures |rs| == |rows| && forall i :: 0 <= i < |rows| ==> rs[i] == Plausible(rows[i])
  {
    seq(|rows|, i requires 0 <= i < |rows| => Plausible(rows[i]))
  }

  function LoadedColumns(cols: seq<string>): seq<string> {
    var c2 := AddName(AddName(cols, "lat"), "lon");
    var c3 := AddName(c2, "power_kw");
    var c5 := AddName(AddName(c3, "status"), "access");
    AddName(AddName(AddName(c5, "operator"), "region"), "dept")
  }

  // Why resolving against the growing frame gives the same columns as
  // resolving against the file's own: none of the names added before a
  // field is resolved contains one of that field's candidates.

  lemma LonUnaffected()
    ensures !Mentions("lat", LON_CANDS)
  {
    LetterMissing("lat", LON_CANDS, 'o');
  }

  lemma PowerUnaffected()
    ensures !Mentions("lat", POWER_CANDS) && !Mentions("lon", POWER_CANDS)
  {
    ShorterThanCandidates("lat", POWER_CANDS);
    ShorterThanCandidates("lon", POWER_CANDS);
  }

  lemma StatusUnaffected()
    ensures !Mentions("lat", STATUS_CANDS) && !Mentions("lon", STATUS_CANDS) && !Mentions("power_kw", STATUS_CANDS)
  {
    ShorterThanCandidates("lat", STATUS_CANDS);
    ShorterThanCandidates("lon", STATUS_CANDS);
    LetterMissing("power_kw", STATUS_CANDS, 't');
  }

  lemma AccessUnaffected()
    ensures !Mentions("lat", ACCESS_CANDS) && !Mentions("lon", ACCESS_CANDS)
    ensures !Mentions("power_kw", ACCESS_CANDS) && !Mentions("status", ACCESS_CANDS)
  {
    LetterMissing("lat", ACCESS_CANDS, 'c');
    LetterMissing("lon", ACCESS_CANDS, 'c');
    LetterMissing("power_kw", ACCESS_CANDS, 'c');
    LetterMissing("status", ACCESS_CANDS, 'c');
  }

  lemma OperatorUnaffected()
    ensures !Mentions("lat", OPERATOR_CANDS) && !Mentions("lon", OPERATOR_CANDS) && !Mentions("power_kw", OPERATOR_CANDS)
    ensures !Mentions("status", OPERATOR_CANDS) && !Mentions("access", OPERATOR_CANDS)
  {
    ShorterThanCandidates("lat", OPERATOR_CANDS);
    ShorterThanCandidates("lon", OPERATOR_CANDS);
    ShorterThanCandidates("power_kw", OPERATOR_CANDS);
    ShorterThanCandidates("status", OPERATOR_CANDS);
    ShorterThanCandidates("access", OPERATOR_CANDS);
  }

  lemma RegionUnaffected()
    ensures !Mentions("lat", REGION_CANDS) && !Mentions("lon", REGION_CANDS) && !Mentions("power_kw", REGION_CANDS)
    ensures !Mentions("status", REGION_CANDS) && !Mentions("access", REGION_CANDS) && !Mentions("operator", REGION_CANDS)
  {
    LetterMissing("lat", REGION_CANDS, 'g');
    LetterMissing("lon", REGION_CANDS, 'g');
    LetterMissing("power_kw", REGION_CANDS, 'g');
    LetterMissing("status", REGION_CANDS, 'g');
    LetterMissing("access", REGION_CANDS, 'g');
    LetterMissing("operator", REGION_CANDS, 'g');
  }

  lemma DeptUnaffected()
    ensures !Mentions("lat", DEPT_CANDS) && !Mentions("lon", DEPT_CANDS) && !Mentions("power_kw", DEPT_CANDS)
    ensures !Mentions("status", DEPT_CANDS) && !Mentions("access", DEPT_CANDS) && !Mentions("operator", DEPT_CANDS)
    ensures !Mentions("region", DEPT_CANDS)
  {
    LetterMissing("lat", DEPT_CANDS, 'd');
    LetterMissing("lon", DEPT_CANDS, 'd');
    LetterMissing("power_kw", DEPT_CANDS, 'd');
    LetterMissing("status", DEPT_CANDS, 'd');
    LetterMissing("access", DEPT_CANDS, 'd');
    LetterMissing("operator", DEPT_CANDS, 'd');
    LetterMissing("region", DEPT_CANDS, 'd');
  }

  /** A field none of whose candidates occurs in the written names never resolves to one of them. */
  lemma AvoidsUnmentioned(cols: seq<string>, cands: seq<string>, written: set<string>)
    requires forall w :: w in written ==> !Mentions(w, cands)
    ensures Avoids(FirstCol(cols, cands), written)
  {
  }

  lemma ResolvedReadsFile(cols: seq<string>)
    ensures ReadsFileColumns(Resolve(cols))
  {
    LonReadsFile(cols);
    PowerReadsFile(cols);
    StatusReadsFile(cols);
    AccessReadsFile(cols);
    OperatorReadsFile(cols);
    RegionReadsFile(cols);
    DeptReadsFile(cols);
  }

  lemma LonReadsFile(cols: seq<string>)
    ensures Avoids(FirstCol(cols, LON_CANDS), {"lat"})
  {
    LonUnaffected();
    AvoidsUnmentioned(cols, LON_CANDS, {"lat"});
  }

  lemma PowerReadsFile(cols: seq<string>)
    ensures Avoids(FirstCol(cols, POWER_CANDS), {"lat", "lon"})
  {
    PowerUnaffected();
    AvoidsUnmentioned(cols, POWER_CANDS, {"lat", "lon"});
  }

  lemma StatusReadsFile(cols: seq<string>)
    ensures Avoids(FirstCol(cols, STATUS_CANDS), {"lat", "lon", "power_kw"})
  {
    StatusUnaffected();
    AvoidsUnmentioned(cols, STATUS_CANDS, {"lat", "lon", "power_kw"});
  }

  lemma AccessReadsFile(cols: seq<string>)
    ensures Avoids(FirstCol(cols, ACCESS_CANDS), {"lat", "lon", "power_kw", "status"})
  {
    AccessUnaffected();
    AvoidsUnmentioned(cols, ACCESS_CANDS, {"lat", "lon", "power_kw", "status"});
  }

  lemma OperatorReadsFile(cols: seq<string>)
    ensures Avoids(FirstCol(cols, OPERATOR_CANDS), {"lat", "lon", "power_kw", "status", "access"})
  {
    OperatorUnaffected();
    AvoidsUnmentioned(cols, OPERATOR_CANDS, {"lat", "lon", "power_kw", "status", "access"});
  }

  lemma RegionReadsFile(cols: seq<string>)
    ensures Avoids(FirstCol(cols, REGION_CANDS), {"lat", "lon", "power_kw", "status", "access", "operator"})
  {
    RegionUnaffected();
    AvoidsUnmentioned(cols, REGION_CANDS, {"lat", "lon", "power_kw", "status", "access", "operator"});
  }

  lemma DeptReadsFile(cols: seq<string>)
    ensures Avoids(FirstCol(cols, DEPT_CANDS), {"lat", "lon", "power_kw", "status", "access", "operator", "region"})
  {
    DeptUnaffected();
    AvoidsUnmentioned(cols, DEPT_CANDS, {"lat", "lon", "power_kw", "status", "access", "operator", "region"});
  }

  /** The columns the power lookup sees: the file's, plus lat and lon. */
  lemma PowerResolvesAsInFile(cols: seq<string>)
    ensures FirstCol(AddName(AddName(cols, "lat"), "lon"), POWER_CANDS) == FirstCol(cols, POWER_CANDS)
  {
    PowerUnaffected();
    FirstColAfterAdding(AddName(cols, "lat"), "lon", POWER_CANDS);
    FirstColAfterAdding(cols, "lat", POWER_CANDS);
  }

  lemma StatusResolvesAsInFile(cols: seq<string>)
    ensures FirstCol(AddName(AddName(AddName(cols, "lat"), "lon"), "power_kw"), STATUS_CANDS) == FirstCol(cols, STATUS_CANDS)
  {
    StatusUnaffected();
    var c1 := AddName(cols, "lat");
    var c2 := AddName(c1, "lon");
    FirstColAfterAdding(c2, "power_kw", STATUS_CANDS);
    FirstColAfterAdding(c1, "lon", STATUS_CANDS);
    FirstColAfterAdding(cols, "lat", STATUS_CANDS);
  }

  lemma AccessResolvesAsInFile(cols: seq<string>)
    ensures FirstCol(AddName(AddName(AddName(AddName(cols, "lat"), "lon"), "power_kw"), "status"), ACCESS_CANDS)
      == FirstCol(cols, ACCESS_CANDS)
  {
    AccessUnaffected();
    var c1 := AddName(cols, "lat");
    var c2 := AddName(c1, "lon");
    var c3 := AddName(c2, "power_kw");
    FirstColAfterAdding(c3, "status", ACCESS_CANDS);
    FirstColAfterAdding(c2, "power_kw", ACCESS_CANDS);
    FirstColAfterAdding(c1, "lon", ACCESS_CANDS);
    FirstColAfterAdding(cols, "lat", ACCESS_CANDS);
  }

  lemma OperatorResolvesAsInFile(cols: seq<string>)
    ensures FirstCol(AddName(AddName(AddName(AddName(AddName(cols, "lat"), "lon"), "power_kw"), "status"), "access"), OPERATOR_CANDS)
      == FirstCol(cols, OPERATOR_CANDS)
  {
    OperatorUnaffected();
    var c1 := AddName(cols, "lat");
    var c2 := AddName(c1, "lon");
    var c3 := AddName(c2, "power_kw");
    var c4 := AddName(c3, "status");
    FirstColAfterAdding(c4, "access", OPERATOR_CANDS);
    FirstColAfterAdding(c3, "status", OPERATOR_CANDS);
    FirstColAfterAdding(c2, "power_kw", OPERATOR_CANDS);
    FirstColAfterAdding(c1, "lon", OPERATOR_CANDS);
    FirstColAfterAdding(cols, "lat", OPERATOR_CANDS);
  }

  lemma RegionResolvesAsInFile(cols: seq<string>)
    ensures FirstCol(AddName(AddName(AddName(AddName(AddName(AddName(cols, "lat"), "lon"), "power_kw"), "status"), "access"), "operator"), REGION_CANDS)
      == FirstCol(cols, REGION_CANDS)
  {
    RegionUnaffected();
    var c1 := AddName(cols, "lat");
    var c2 := AddName(c1, "lon");
    var c3 := AddName(c2, "power_kw");
    var c4 := AddName(c3, "status");
    var c5 := AddName(c4, "access");
    FirstColAfterAdding(c5, "operator", REGION_CANDS);
    FirstColAfterAdding(c4, "access", REGION_CANDS);
    FirstColAfterAdding(c3, "status", REGION_CANDS);
    FirstColAfterAdding(c2, "power_kw", REGION_CANDS);
    FirstColAfterAdding(c1, "lon", REGION_CANDS);
    FirstColAfterAdding(cols, "lat", REGION_CANDS);
  }

  lemma DeptResolvesAsInFile(cols: seq<string>)
    ensures FirstCol(AddName(AddName(AddName(AddName(AddName(AddName(AddName(cols, "lat"), "lon"), "power_kw"), "status"), "access"), "operator"), "region"), DEPT_CANDS)
      == FirstCol(cols, DEPT_CANDS)
  {
    DeptUnaffected();
    var c1 := AddName(cols, "lat");
    var c2 := AddName(c1, "lon");
    var c3 := AddName(c2, "power_kw");
    var c4 := AddName(c3, "status");
    var c5 := AddName(c4, "access");
    var c6 := AddName(c5, "operator");
    FirstColAfterAdding(c6, "region", DEPT_CANDS);
    FirstColAfterAdding(c5, "operator", DEPT_CANDS);
    FirstColAfterAdding(c4, "access", DEPT_CANDS);
    FirstColAfterAdding(c3, "status", DEPT_CANDS);
    FirstColAfterAdding(c2, "power_kw", DEPT_CANDS);
    FirstColAfterAdding(c1, "lon", DEPT_CANDS);
    FirstColAfterAdding(cols, "lat", DEPT_CANDS);
  }

  /** The lat/lon stage of load_irve_csv on a whole frame. */
  method AddCoordinates(raw: Table) returns (df: Table)
    requires WF(raw)
    ensures WF(df)
    ensures df.cols == AddName(AddName(raw.cols, "lat"), "lon")
    ensures |df.rows| == |raw.rows|
    ensures forall i :: 0 <= i < |raw.rows| ==> df.rows[i] == WithCoordinates(Resolve(raw.cols), raw.rows[i])
  {
    var latCol := FirstCol(raw.cols, LAT_CANDS);
    var lonCol := FirstCol(raw.cols, LON_CANDS);
    var coordCol := FirstCol(raw.cols, COORD_CANDS);
    if latCol.Some? && lonCol.Some? {
      df := WithColumn(raw, "lat", r => ToNumeric(Get(r, latCol.value)));
      df := WithColumn(df, "lon", r => ToNumeric(Get(r, lonCol.value)));
    } else if coordCol.Some? {
      var lat := MapRows(raw, r => SplitCoords(Get(r, coordCol.value)).0);
      var lon := MapRows(raw, r => SplitCoords(Get(r, coordCol.value)).1);
      df := SetColumn(raw, "lat", lat);
      df := SetColumn(df, "lon", lon);
    } else {
      df := SetColumn(raw, "lat", Repeat(Missing, |raw.rows|));
      df := SetColumn(df, "lon", Repeat(Missing, |raw.rows|));
    }
  }

  /** The power_kw stage: the power column is looked up in the frame that already has lat and lon. */
  method AddPower(d: Table, ghost fileCols: seq<string>) returns (df: Table)
    requires WF(d) && d.cols == AddName(AddName(fileCols, "lat"), "lon")
    ensures WF(df)
    ensures df.cols == AddName(d.cols, "power_kw")
    ensures |df.rows| == |d.rows|
    ensures forall i :: 0 <= i < |d.rows| ==> df.rows[i] == WithPower(Resolve(fileCols), d.rows[i])
  {
    var powerCol := FirstCol(d.cols, POWER_CANDS);
    PowerResolvesAsInFile(fileCols);
    df := WithColumn(d, "power_kw", r => if powerCol.Some? then ToNumeric(Get(r, powerCol.value)) else Missing);
  }

  /** df[name] = df[col].astype(str) (lower-cased when asked) if the field resolves in the frame, else the default. */
  method AddTextField(d: Table, name: string, cands: seq<string>, lower: bool, default: string, ghost resolved: Option<string>)
    returns (df: Table)
    requires WF(d) && FirstCol(d.cols, cands) == resolved
    ensures WF(df)
    ensures df.cols == AddName(d.cols, name)
    ensures |df.rows| == |d.rows|
    ensures forall i :: 0 <= i < |d.rows| ==> df.rows[i] == d.rows[i][name := TextField(resolved, d.rows[i], lower, default)]
  {
    var col := FirstCol(d.cols, cands);
    df := WithColumn(d, name, r =>
      if col.None? then Str(default)
      else if lower then Str(Lower(AsText(Get(r, col.value))))
      else Str(AsText(Get(r, col.value))));
  }

  /** The text-field stage: status, access, operator, region and dept, each looked up in the frame as it stands. */
  method AddTextFields(d: Table, ghost fileCols: seq<string>) returns (df: Table)
    requires WF(d) && d.cols == AddName(AddName(AddName(fileCols, "lat"), "lon"), "power_kw")
    ensures WF(df)
    ensures df.cols == LoadedColumns(fileCols)
    ensures |df.rows| == |d.rows|
    ensures forall i :: 0 <= i < |d.rows| ==> df.rows[i] == WithTextFields(Resolve(fileCols), d.rows[i])
  {
    ghost var res := Resolve(fileCols);
    StatusResolvesAsInFile(fileCols);
    var d1 := AddTextField(d, "status", STATUS_CANDS, true, "inconnu", res.status);
    AccessResolvesAsInFile(fileCols);
    var d2 := AddTextField(d1, "access", ACCESS_CANDS, true, "inconnu", res.access);
    OperatorResolvesAsInFile(fileCols);
    var d3 := AddTextField(d2, "operator", OPERATOR_CANDS, false, "inconnu", res.operator);
    RegionResolvesAsInFile(fileCols);
    var d4 := AddTextField(d3, "region", REGION_CANDS, false, "NA", res.region);
    DeptResolvesAsInFile(fileCols);
    df := AddTextField(d4, "dept", DEPT_CANDS, false, "NA", res.dept);
  }

  /** df.loc[~df["lat"].between(-90, 90), ["lat"]] = NA, then the same for lon with 180. */
  method MaskImplausible(d: Table) returns (df: Table)
    requires WF(d) && "lat" in d.cols && "lon" in d.cols
    ensures WF(df)
    ensures df.cols == d.cols
    ensures df.rows == PlausibleRows(d.rows)
  {
    df := WithColumn(d, "lat", r => InRange(Get(r, "lat"), 90.0));
    df := WithColumn(df, "lon", r => InRange(Get(r, "lon"), 180.0));
  }

  /**
   * load_irve_csv once the file is read: the coordinate, power and text
   * columns, then drop_duplicates, then out-of-range latitudes and
   * longitudes nulled.
   */
  method LoadIrve(raw: Table) returns (df: Table)
    requires WF(raw)
    ensures WF(df)
    ensures df.cols == LoadedColumns(raw.cols)
    ensures df.rows == PlausibleRows(Distinct(LoadedRows(Resolve(raw.cols), raw.rows)))
    ensures |df.rows| <= |raw.rows|
    ensures forall o :: o in df.rows ==> exists j :: 0 <= j < |raw.rows| && o == Plausible(LoadedRow(Resolve(raw.cols), raw.rows[j]))
    ensures forall o :: o in df.rows ==> Get(o, "lat").Missing? || Between(Get(o, "lat"), -90.0, 90.0)
    ensures forall o :: o in df.rows ==> Get(o, "lon").Missing? || Between(Get(o, "lon"), -180.0, 180.0)
  {
    df := AddCoordinates(raw);
    df := AddPower(df, raw.cols);
    df := AddTextFields(df, raw.cols);
    assert df.rows == LoadedRows(Resolve(raw.cols), raw.rows);
    assert WF(Table(df.cols, Distinct(df.rows)));
    df := Table(df.cols, Distinct(df.rows));
    MaskedDistinct(df.rows);
    LoadedProvenance(Resolve(raw.cols), raw.rows);
    df := MaskImplausible(df);
  }

  /** The names load_irve_csv adds (or overwrites). */
  const ADDED: set<string> := {"lat", "lon", "power_kw", "status", "access", "operator", "region", "dept"}

  /** Where both lat and lon resolve, they are the file's own columns converted to numbers. */
  lemma LoadedCoordinatesFromColumns(res: Resolution, r: Row)
    requires ReadsFileColumns(res)
    requires res.lat.Some? && res.lon.Some?
    ensures Get(LoadedRow(res, r), "lat") == ToNumeric(Get(r, res.lat.value))
    ensures Get(LoadedRow(res, r), "lon") == ToNumeric(Get(r, res.lon.value))
  {
  }

  /** The power and text stages leave lat and lon as the coordinate stage set them. */
  lemma CoordinatesSurvive(res: Resolution, p: Row)
    ensures Get(WithTextFields(res, WithPower(res, p)), "lat") == Get(p, "lat")
    ensures Get(WithTextFields(res, WithPower(res, p)), "lon") == Get(p, "lon")
  {
  }

  /** Otherwise the combined column, when one resolves, is split into (lat, lon). */
  lemma LoadedCoordinatesFromCombined(res: Resolution, r: Row)
    requires !(res.lat.Some? && res.lon.Some?) && res.coord.Some?
    ensures Get(LoadedRow(res, r), "lat") == SplitCoords(Get(r, res.coord.value)).0
    ensures Get(LoadedRow(res, r), "lon") == SplitCoords(Get(r, res.coord.value)).1
  {
    CoordinatesSurvive(res, WithCoordinates(res, r));
  }

  /** With no usable coordinate column both coordinates are missing. */
  lemma LoadedCoordinatesMissing(res: Resolution, r: Row)
    requires !(res.lat.Some? && res.lon.Some?) && res.coord.None?
    ensures Get(LoadedRow(res, r), "lat") == Missing && Get(LoadedRow(res, r), "lon") == Missing
  {
    CoordinatesSurvive(res, WithCoordinates(res, r));
  }

  /** power_kw is the file's power column converted to numbers, or missing when there is none. */
  lemma LoadedPower(res: Resolution, r: Row)
    requires ReadsFileColumns(res)
    ensures res.power.None? ==> Get(LoadedRow(res, r), "power_kw") == Missing
    ensures res.power.Some? ==> Get(LoadedRow(res, r), "power_kw") == ToNumeric(Get(r, res.power.value))
  {
  }

  /**
   * Each text field reads the file's own resolved column in the file's row:
   * the columns written before it never stand in for it.
   */
  lemma LoadedTextFields(res: Resolution, r: Row)
    requires ReadsFileColumns(res)
    ensures Get(LoadedRow(res, r), "status") == TextField(res.status, r, true, "inconnu")
    ensures Get(LoadedRow(res, r), "access") == TextField(res.access, r, true, "inconnu")
    ensures Get(LoadedRow(res, r), "operator") == TextField(res.operator, r, false, "inconnu")
    ensures Get(LoadedRow(res, r), "region") == TextField(res.region, r, false, "NA")
    ensures Get(LoadedRow(res, r), "dept") == TextField(res.dept, r, false, "NA")
  {
    WritesOnlyCoordinatesAndPower(res, r);
    TextFieldsReadFile(res, r, WithPower(res, WithCoordinates(res, r)));
  }

  /** The text stage on a row p that differs from the file's row r only in lat, lon and power_kw. */
  lemma TextFieldsReadFile(res: Resolution, r: Row, p: Row)
    requires ReadsFileColumns(res)
    requires forall w :: w !in {"lat", "lon", "power_kw"} ==> Get(p, w) == Get(r, w)
    ensures Get(WithTextFields(res, p), "status") == TextField(res.status, r, true, "inconnu")
    ensures Get(WithTextFields(res, p), "access") == TextField(res.access, r, true, "inconnu")
    ensures Get(WithTextFields(res, p), "operator") == TextField(res.operator, r, false, "inconnu")
    ensures Get(WithTextFields(res, p), "region") == TextField(res.region, r, false, "NA")
    ensures Get(WithTextFields(res, p), "dept") == TextField(res.dept, r, false, "NA")
  {
    var r1 := p["status" := TextField(res.status, p, true, "inconnu")];
    var r2 := r1["access" := TextField(res.access, r1, true, "inconnu")];
    StatusAccessReadFile(res, r, p);
    OtherFieldsReadFile(res, r, r2);
  }

  /** status and access read the file's cells, and leave every other cell but lat, lon and power_kw as in the file. */
  lemma StatusAccessReadFile(res: Resolution, r: Row, p: Row)
    requires ReadsFileColumns(res)
    requires forall w :: w !in {"lat", "lon", "power_kw"} ==> Get(p, w) == Get(r, w)
    ensures var r1 := p["status" := TextField(res.status, p, true, "inconnu")];
      var r2 := r1["access" := TextField(res.access, r1, true, "inconnu")];
      && TextField(res.status, p, true, "inconnu") == TextField(res.status, r, true, "inconnu")
      && TextField(res.access, r1, true, "inconnu") == TextField(res.access, r, true, "inconnu")
      && forall w :: w !in {"lat", "lon", "power_kw", "status", "access"} ==> Get(r2, w) == Get(r, w)
  {
    var w0: set<string> := {"lat", "lon", "power_kw"};
    ReadsUnwritten(res.status, r, p, w0);
    var r1 := p["status" := TextField(res.status, p, true, "inconnu")];
    UpdateOutside(r, p, w0, "status", TextField(res.status, p, true, "inconnu"));
    assert w0 + {"status"} == {"lat", "lon", "power_kw", "status"};
    ReadsUnwritten(res.access, r, r1, w0 + {"status"});
    UpdateOutside(r, r1, w0 + {"status"}, "access", TextField(res.access, r1, true, "inconnu"));
    assert w0 + {"status"} + {"access"} == {"lat", "lon", "power_kw", "status", "access"};
  }

  /** operator, region and dept read the file's cells once status and access are written. */
  lemma OtherFieldsReadFile(res: Resolution, r: Row, r2: Row)
    requires ReadsFileColumns(res)
    requires forall w :: w !in {"lat", "lon", "power_kw", "status", "access"} ==> Get(r2, w) == Get(r, w)
    ensures var r3 := r2["operator" := TextField(res.operator, r2, false, "inconnu")];
      var r4 := r3["region" := TextField(res.region, r3, false, "NA")];
      && TextField(res.operator, r2, false, "inconnu") == TextField(res.operator, r, false, "inconnu")
      && TextField(res.region, r3, false, "NA") == TextField(res.region, r, false, "NA")
      && TextField(res.dept, r4, false, "NA") == TextField(res.dept, r, false, "NA")
  {
    var w2: set<string> := {"lat", "lon", "power_kw", "status", "access"};
    ReadsUnwritten(res.operator, r, r2, w2);
    var r3 := r2["operator" := TextField(res.operator, r2, false, "inconnu")];
    UpdateOutside(r, r2, w2, "operator", TextField(res.operator, r2, false, "inconnu"));
    assert w2 + {"operator"} == {"lat", "lon", "power_kw", "status", "access", "operator"};
    ReadsUnwritten(res.region, r, r3, w2 + {"operator"});
    var r4 := r3["region" := TextField(res.region, r3, false, "NA")];
    UpdateOutside(r, r3, w2 + {"operator"}, "region", TextField(res.region, r3, false, "NA"));
    assert w2 + {"operator"} + {"region"} == {"lat", "lon", "power_kw", "status", "access", "operator", "region"};
    ReadsUnwritten(res.dept, r, r4, w2 + {"operator"} + {"region"});
  }

  /** The coordinate and power stages write lat, lon and power_kw and nothing else. */
  lemma WritesOnlyCoordinatesAndPower(res: Resolution, r: Row)
    ensures forall w :: w !in {"lat", "lon", "power_kw"} ==> Get(WithPower(res, WithCoordinates(res, r)), w) == Get(r, w)
  {
  }

  /** Writing one more name keeps every cell outside the written names. */
  lemma UpdateOutside(r: Row, r': Row, written: set<string>, name: string, v: Value)
    requires forall w :: w !in written ==> Get(r', w) == Get(r, w)
    ensures forall w :: w !in written + {name} ==> Get(r'[name := v], w) == Get(r, w)
  {
  }

  /** A field whose column is none of the written names reads the same from the updated row. */
  lemma ReadsUnwritten(c: Option<string>, r: Row, r': Row, written: set<string>)
    requires Avoids(c, written)
    requires forall w :: w !in written ==> Get(r', w) == Get(r, w)
    ensures forall lower, default :: TextField(c, r', lower, default) == TextField(c, r, lower, default)
  {
  }

  /** Every cell outside the added columns is the file's own. */
  lemma LoadedKeepsFileCells(res: Resolution, r: Row, c: string)
    requires c !in ADDED
    ensures Get(LoadedRow(res, r), c) == Get(r, c)
  {
  }

  /**
   * drop_duplicates then the coordinate masking: at most as many rows,
   * each the masked form of an input row, and every latitude and
   * longitude either missing or within range.
   */
  lemma MaskedDistinct(rows: seq<Row>)
    ensures var out := PlausibleRows(Distinct(rows));
      && |out| <= |rows|
      && (forall o :: o in out ==> exists j :: 0 <= j < |rows| && o == Plausible(rows[j]))
      && (forall o :: o in out ==> Get(o, "lat").Missing? || Between(Get(o, "lat"), -90.0, 90.0))
      && (forall o :: o in out ==> Get(o, "lon").Missing? || Between(Get(o, "lon"), -180.0, 180.0))
  {
    var dd := Distinct(rows);
    var out := PlausibleRows(dd);
    forall o | o in out
      ensures (exists j :: 0 <= j < |rows| && o == Plausible(rows[j]))
      ensures Get(o, "lat").Missing? || Between(Get(o, "lat"), -90.0, 90.0)
      ensures Get(o, "lon").Missing? || Between(Get(o, "lon"), -180.0, 180.0)
    {
      var i :| 0 <= i < |out| && out[i] == o;
      assert dd[i] in rows;
      var j :| 0 <= j < |rows| && rows[j] == dd[i];
    }
  }

  /** Every row returned is the loaded, masked form of some row of the file. */
  lemma LoadedProvenance(res: Resolution, rows: seq<Row>)
    ensures forall o :: o in PlausibleRows(Distinct(LoadedRows(res, rows))) ==>
      exists j :: 0 <= j < |rows| && o == Plausible(LoadedRow(res, rows[j]))
  {
    var loaded := LoadedRows(res, rows);
    MaskedDistinct(loaded);
    forall o | o in PlausibleRows(Distinct(loaded))
      ensures exists j :: 0 <= j < |rows| && o == Plausible(LoadedRow(res, rows[j]))
    {
      var j :| 0 <= j < |loaded| && o == Plausible(loaded[j]);
      assert loaded[j] == LoadedRow(res, rows[j]);
    }
  }
}
