/**
 * The Deep dives page: its filters, the department codes behind the
 * choropleth, the ranking of departments by share of DC points, the join
 * with department populations, the top operators and the 24/7 mix.
 */
module DeepDives {
  import opened Text
  import opened Values
  import opened Seqs
  import opened Tables
  import opened Groups
  import opened Overview

  /**
   * _apply_filters: the four criteria shared with the Overview page, then
   * the commissioning period (whenever that column exists) and the power
   * range, both ends included.
   */
  method ApplyFilters(df: Table, sel: Selection) returns (f: Table)
    ensures f.cols == df.cols
    ensures WF(df) ==> WF(f)
    ensures Subseq(f.rows, df.rows)
    ensures forall r :: r in f.rows <==> r in df.rows && Selected(df.cols, sel, r)
  {
    f := BasicFilters(df, sel);
    if sel.period.Some? && COMMISSIONED in f.cols {
      FilterStep(df, f, PeriodMask(COMMISSIONED, sel.period.value));
      f := Filter(f, PeriodMask(COMMISSIONED, sel.period.value));
    }
    assert forall r :: r in f.rows <==> r in df.rows && Basic(df.cols, sel, r) && InPeriod(df.cols, sel, r);
    if sel.power.Some? && "puissance_kw" in f.cols {
      FilterStep(df, f, PowerMask(sel.power.value));
      f := Filter(f, PowerMask(sel.power.value));
    }
  }

  /** The period criterion of this page: the commissioning date, both ends included. */
  predicate InPeriod(cols: seq<string>, sel: Selection, r: Row) {
    sel.period.Some? && COMMISSIONED in cols
    ==> Between(Get(r, COMMISSIONED), sel.period.value.lo, sel.period.value.hi)
  }

  /** A row _apply_filters keeps. */
  predicate Selected(cols: seq<string>, sel: Selection, r: Row) {
    Basic(cols, sel, r) && InPeriod(cols, sel, r) && InPower(cols, sel, r)
  }

  /**
   * norm_code: the text of the cell stripped and upper-cased; a one- or
   * two-digit code is zero-padded to two characters, "2A" and "2B" stay.
   */
  function NormCode(v: Value): (code: string)
    ensures var s := Upper(Strip(AsText(v)));
      && (IsDigitString(s) && |s| == 1 ==> code == "0" + s)
      && (!(IsDigitString(s) && |s| == 1) ==> code == s)
    ensures IsDigitString(code) && |code| <= 2 ==> |code| == 2
  {
    NormText(Upper(Strip(AsText(v))))
  }

  /** The padding step of norm_code on an already stripped, upper-cased text. */
  function NormText(s: string): (code: string)
    ensures IsDigitString(s) && |s| == 1 ==> code == "0" + s
    ensures !(IsDigitString(s) && |s| == 1) ==> code == s
    ensures IsDigitString(code) && |code| <= 2 ==> |code| == 2
  {
    if s == "2A" || s == "2B" then s
    else if IsDigitString(s) && |s| <= 2 then
      assert s[0] != '+' && s[0] != '-';
      ZFill(s, 2)
    else s
  }

  /** Neither a digit nor a stripped, upper-cased text changes under strip and upper again. */
  lemma NormalForm(s: string)
    requires |s| == 0 || (!IsSpace(s[0]) && !IsSpace(s[|s| - 1]))
    ensures Upper(Strip(Upper(s))) == Upper(s)
  {
    UpperKeepsStripped(s);
    UpperIdempotent(s);
  }

  /** A code is its own normal form: norm_code applied twice is norm_code once. */
  lemma NormCodeIdempotent(v: Value)
    ensures NormCode(Str(NormCode(v))) == NormCode(v)
  {
    var t := Strip(AsText(v));
    NormTextIdempotent(t);
    assert AsText(Str(NormCode(v))) == NormCode(v);
  }

  /** On a stripped text, padding then normalising again changes nothing. */
  lemma NormTextIdempotent(t: string)
    requires |t| == 0 || (!IsSpace(t[0]) && !IsSpace(t[|t| - 1]))
    ensures NormText(Upper(Strip(NormText(Upper(t))))) == NormText(Upper(t))
  {
    var s := Upper(t);
    var code := NormText(s);
    if code == s {
      NormalForm(t);
    } else {
      PaddedCodeIsNormal(s);
    }
  }

  /** Digits are untouched by strip and upper. */
  lemma DigitsAreNormal(code: string)
    requires IsDigitString(code)
    ensures Upper(Strip(code)) == code
  {
    assert !IsSpace(code[0]) && !IsSpace(code[|code| - 1]);
    StripOfStripped(code);
    assert forall i :: 0 <= i < |code| ==> UpperChar(code[i]) == code[i];
  }

  /** A zero-padded digit is two digits long and not a Corsican code, so norm_code keeps it. */
  lemma PaddedCodeIsNormal(s: string)
    requires NormText(s) != s
    ensures NormText(Upper(Strip(NormText(s)))) == NormText(s)
  {
    var code := NormText(s);
    assert code == "0" + s;
    assert IsDigitString(code) by {
      assert code[0] == '0' && code[1] == s[0];
    }
    DigitsAreNormal(code);
    assert code[0] == '0';
  }

  lemma NormCodeSingleDigit()
    ensures NormCode(Str("7")) == "07"
  {
    StripNoSpace("7");
    assert Upper("7") == "7";
    assert IsDigitString("7");
    assert ZFill("7", 2) == "07";
  }

  lemma NormCodeCorsica()
    ensures NormCode(Str(" 2a ")) == "2A"
  {
    StripCorsica();
    UpperCorsica();
    assert NormText("2A") == "2A";
  }

  lemma UpperCorsica()
    ensures Upper("2a") == "2A"
  {
    var u := Upper("2a");
    assert u[0] == '2' && u[1] == 'A';
  }

  lemma StripCorsica()
    ensures Strip(" 2a ") == "2a"
  {
    assert !IsSpace('2') && !IsSpace('a');
    StripPadded("2a");
    assert [' '] + "2a" + [' '] == " 2a ";
  }

  /** A department with the number of its points and its normalised code (the choropleth input). */
  datatype Coded = Coded(dept: Value, code: string, points: nat)

  function CodeGroups(gs: seq<Group>): (cs: seq<Coded>)
    ensures |cs| == |gs|
    ensures forall i :: 0 <= i < |gs| ==> cs[i] == Coded(gs[i].key, NormCode(gs[i].key), gs[i].size)
  {
    seq(|gs|, i requires 0 <= i < |gs| => Coded(gs[i].key, NormCode(gs[i].key), gs[i].size))
  }

  function CodedTotal(cs: seq<Coded>): nat {
    if |cs| == 0 then 0 else cs[0].points + CodedTotal(cs[1..])
  }

  /** Departments matched one to one with groups of the same sizes hold the same points. */
  lemma {:induction false} CodedTotalIsSizeTotal(cs: seq<Coded>, gs: seq<Group>)
    requires |cs| == |gs| && forall i :: 0 <= i < |gs| ==> cs[i].points == gs[i].size
    ensures CodedTotal(cs) == SizeTotal(gs)
  {
    if |gs| > 0 {
      CodedTotalIsSizeTotal(cs[1..], gs[1..]);
    }
  }

  /**
   * dep_counts for the choropleth: one entry per present department with
   * its number of points and a normalised code; the counts add up to the
   * points that have a department.
   */
  function DepartmentCodes(t: Table): (cs: seq<Coded>)
    ensures "departement" !in t.cols || |t.rows| == 0 ==> cs == []
    ensures forall c :: c in cs ==>
      && Present(c.dept) && c.points == Occurrences(Column(t, "departement"), c.dept) && c.points >= 1
      && c.code == NormCode(c.dept) && NormCode(Str(c.code)) == c.code
    ensures "departement" in t.cols ==> CodedTotal(cs) == Count(Column(t, "departement"), Present)
    ensures "departement" in t.cols ==>
      forall v :: v in Column(t, "departement") && Present(v) ==> exists c :: c in cs && c.dept == v
    ensures forall i, j :: 0 <= i < j < |cs| ==> cs[i].dept != cs[j].dept
  {
    if "departement" !in t.cols || |t.rows| == 0 then
      assert |Column(t, "departement")| == 0 ==> Count(Column(t, "departement"), Present) == 0;
      []
    else
      CodedGroups(Column(t, "departement"));
      CodedGroupsDistinct(Column(t, "departement"));
      CodeGroups(GroupBy(Column(t, "departement"), true))
  }

  lemma CodedGroups(vs: seq<Value>)
    ensures forall c :: c in CodeGroups(GroupBy(vs, true)) ==>
      && Present(c.dept) && c.points == Occurrences(vs, c.dept) && c.points >= 1
      && c.code == NormCode(c.dept) && NormCode(Str(c.code)) == c.code
    ensures CodedTotal(CodeGroups(GroupBy(vs, true))) == Count(vs, Present)
  {
    var gs := GroupBy(vs, true);
    var cs := CodeGroups(gs);
    GroupByCoversCells(vs, true);
    CodedTotalIsSizeTotal(CodeGroups(gs), gs);
    forall i | 0 <= i < |cs|
      ensures Present(cs[i].dept) && cs[i].points == Occurrences(vs, cs[i].dept) && cs[i].points >= 1
      ensures cs[i].code == NormCode(cs[i].dept) && NormCode(Str(cs[i].code)) == cs[i].code
    {
      assert gs[i] in gs;
      NormCodeIdempotent(cs[i].dept);
    }
  }

  /** The coded departments are the present departments, each once. */
  lemma CodedGroupsDistinct(vs: seq<Value>)
    ensures forall v :: v in vs && Present(v) ==> exists c :: c in CodeGroups(GroupBy(vs, true)) && c.dept == v
    ensures forall i, j :: 0 <= i < j < |CodeGroups(GroupBy(vs, true))| ==>
      CodeGroups(GroupBy(vs, true))[i].dept != CodeGroups(GroupBy(vs, true))[j].dept
  {
    var gs := GroupBy(vs, true);
    var cs := CodeGroups(gs);
    forall v | v in vs && Present(v) ensures exists c :: c in cs && c.dept == v {
      var i :| 0 <= i < |gs| && gs[i] == Group(v, Occurrences(vs, v));
      assert cs[i] in cs;
    }
  }

  /** One department of the DC-share ranking: its points and how many of them are DC. */
  datatype Share = Share(dept: Value, points: nat, dc: nat)

  /** Rows of department k (the size aggregate). */
  function InDept(rows: seq<Row>, k: Value): nat {
    if |rows| == 0 then 0 else (if Get(rows[0], "departement") == k then 1 else 0) + InDept(rows[1..], k)
  }

  /** Rows of department k whose is_dc is true (the sum aggregate of a bool column). */
  function DcInDept(rows: seq<Row>, k: Value): (n: nat)
    ensures n <= InDept(rows, k)
  {
    if |rows| == 0 then 0
    else (if Get(rows[0], "departement") == k && IsBool(Get(rows[0], "is_dc"), true) then 1 else 0) + DcInDept(rows[1..], k)
  }

  lemma {:induction false} InDeptOfMember(rows: seq<Row>, k: Value)
    requires exists r :: r in rows && Get(r, "departement") == k
    ensures InDept(rows, k) >= 1
  {
    if Get(rows[0], "departement") != k {
      var r :| r in rows && Get(r, "departement") == k;
      assert r in rows[1..];
      InDeptOfMember(rows[1..], k);
    }
  }

  function SharesOf(rows: seq<Row>, keys: seq<Value>): (ss: seq<Share>)
    ensures |ss| == |keys|
    ensures forall i :: 0 <= i < |keys| ==> ss[i] == Share(keys[i], InDept(rows, keys[i]), DcInDept(rows, keys[i]))
  {
    if |keys| == 0 then [] else [Share(keys[0], InDept(rows, keys[0]), DcInDept(rows, keys[0]))] + SharesOf(rows, keys[1..])
  }

  /**
   * dep_mix: one share per present department, with its number of points
   * (at least one) and its DC points (never more).
   */
  function DcShares(t: Table): (ss: seq<Share>)
    ensures forall s :: s in ss ==> Present(s.dept) && s.points == InDept(t.rows, s.dept) && s.dc == DcInDept(t.rows, s.dept)
    ensures forall s :: s in ss ==> 1 <= s.points && s.dc <= s.points
    ensures forall r :: r in t.rows && Present(Get(r, "departement")) ==> exists s :: s in ss && s.dept == Get(r, "departement")
    ensures forall i, j :: 0 <= i < j < |ss| ==> ss[i].dept != ss[j].dept
  {
    var vs := Column(t, "departement");
    var keys := KeysOf(vs, true);
    NoDupPairwise(keys);
    var ss := SharesOf(t.rows, keys);
    forall s | s in ss ensures 1 <= s.points {
      var i :| 0 <= i < |ss| && ss[i] == s;
      assert keys[i] in keys;
      var j :| 0 <= j < |vs| && vs[j] == keys[i];
      assert t.rows[j] in t.rows;
      InDeptOfMember(t.rows, keys[i]);
    }
    forall r | r in t.rows && Present(Get(r, "departement")) ensures exists s :: s in ss && s.dept == Get(r, "departement") {
      var j :| 0 <= j < |t.rows| && t.rows[j] == r;
      assert vs[j] in keys;
      var i :| 0 <= i < |keys| && keys[i] == vs[j];
      assert ss[i] in ss;
    }
    ss
  }

  /** pct_dc before rounding: the share of a department's points that are DC. */
  function ShareScore(s: Share): real {
    if s.points == 0 then 0.0 else s.dc as real / s.points as real
  }

  /** The smallest department count the ranking normally considers (seuil). */
  const MIN_POINTS: nat := 20

  /** How many departments the ranking shows. */
  const RANKED: nat := 20

  predicate BigEnough(s: Share) {
    s.points >= MIN_POINTS
  }

  /** Some department reaches the threshold. */
  predicate AnyBig(ss: seq<Share>) {
    exists s :: s in ss && BigEnough(s)
  }

  /** The departments the ranking draws from: those at the threshold, or all when none is. */
  function Pool(ss: seq<Share>): (p: seq<Share>)
    ensures forall s :: s in p <==> s in ss && (AnyBig(ss) ==> BigEnough(s))
  {
    var big := Where(ss, BigEnough);
    if |big| == 0 then
      assert forall s :: s in ss && BigEnough(s) ==> s in big;
      ss
    else
      assert big[0] in big;
      big
  }

  /** The share-ranking section runs: both columns exist and one of them has a value. */
  predicate CanRank(t: Table) {
    "departement" in t.cols && "is_dc" in t.cols && (AnyPresent(t, "departement") || AnyPresent(t, "is_dc"))
  }

  /**
   * The DC-share ranking: at most 20 departments, highest share first,
   * only departments with at least 20 points unless none has that many,
   * and no department of that pool left out has a higher share than one
   * shown.
   */
  function DcRanking(t: Table): (r: seq<Share>)
    ensures !CanRank(t) ==> r == []
    ensures CanRank(t) ==> |r| == Min(RANKED, |Pool(DcShares(t))|)
    ensures NonIncreasing(r, ShareScore)
    ensures forall s :: s in r ==> s in DcShares(t)
    ensures AnyBig(DcShares(t)) ==> forall s :: s in r ==> BigEnough(s)
    ensures forall s, i :: s in Pool(DcShares(t)) && s !in r && 0 <= i < |r| ==> ShareScore(s) <= ShareScore(r[i])
    ensures CanRank(t) && |DcShares(t)| > 0 ==> |r| > 0
    ensures forall i, j :: 0 <= i < j < |r| ==> r[i].dept != r[j].dept
  {
    if !CanRank(t) then [] else Ranked(DcShares(t))
  }

  /**
   * sort_values("pct_dc", ascending=False).head(20) on the eligible
   * departments: as many as fit, highest share first, each department once,
   * none left out with a higher share than one shown.
   */
  function Ranked(ss: seq<Share>): (r: seq<Share>)
    requires forall i, j :: 0 <= i < j < |ss| ==> ss[i].dept != ss[j].dept
    ensures |r| == Min(RANKED, |Pool(ss)|)
    ensures NonIncreasing(r, ShareScore)
    ensures forall s :: s in r ==> s in Pool(ss)
    ensures forall s, i :: s in Pool(ss) && s !in r && 0 <= i < |r| ==> ShareScore(s) <= ShareScore(r[i])
    ensures |ss| > 0 ==> |r| > 0
    ensures forall i, j :: 0 <= i < j < |r| ==> r[i].dept != r[j].dept
  {
    TopIsTop(Pool(ss), ShareScore, RANKED);
    RankedDeptsDistinct(ss);
    PoolNonEmpty(ss);
    Take(SortDesc(Pool(ss), ShareScore), RANKED)
  }

  /** Some department is always eligible when there is one. */
  lemma PoolNonEmpty(ss: seq<Share>)
    ensures |ss| > 0 ==> |Pool(ss)| > 0
  {
    if |ss| > 0 {
      assert ss[0] in ss;
      if AnyBig(ss) {
        var b :| b in ss && BigEnough(b);
        assert b in Pool(ss);
      } else {
        assert ss[0] in Pool(ss);
      }
    }
  }

  /** The department of a share, as a function value. */
  function DeptOf(s: Share): Value {
    s.dept
  }

  /** Ranking shares with distinct departments shows each department once. */
  lemma RankedDeptsDistinct(ss: seq<Share>)
    requires forall i, j :: 0 <= i < j < |ss| ==> ss[i].dept != ss[j].dept
    ensures var r := Take(SortDesc(Pool(ss), ShareScore), RANKED);
      forall i, j :: 0 <= i < j < |r| ==> r[i].dept != r[j].dept
  {
    assert DistinctBy(ss, DeptOf) by {
      forall i, j | 0 <= i < j < |ss| ensures DeptOf(ss[i]) != DeptOf(ss[j]) {
      }
    }
    WhereDistinctBy(ss, BigEnough, DeptOf);
    var pool := Pool(ss);
    assert pool == ss || pool == Where(ss, BigEnough);
    SortDistinctBy(pool, ShareScore, DeptOf);
    var sorted := SortDesc(pool, ShareScore);
    TakeDistinctBy(sorted, RANKED, DeptOf);
    var r := Take(sorted, RANKED);
    forall i, j | 0 <= i < j < |r| ensures r[i].dept != r[j].dept {
      assert DeptOf(r[i]) != DeptOf(r[j]);
    }
  }

  /** A share lies between 0 and 1. */
  lemma ShareScoreBounds(s: Share)
    requires s.dc <= s.points
    ensures 0.0 <= ShareScore(s) <= 1.0
  {
    if s.points > 0 {
      assert s.dc as real <= s.points as real;
    }
  }

  /** Department populations, keyed by department code. */
  const POP_BY_DEP: map<string, nat> := map[
    "01" := 656000, "02" := 526000, "03" := 337000, "04" := 166000, "05" := 146000, "06" := 1084000, "07" := 334000,
    "08" := 265000, "09" := 158000, "10" := 297000, "11" := 380000, "12" := 279000, "13" := 2043000, "14" := 694000,
    "15" := 143000, "16" := 352000, "17" := 662000, "18" := 307000, "19" := 227000, "2A" := 177000, "2B" := 176000,
    "21" := 528000, "22" := 605000, "23" := 118000, "24" := 414000, "25" := 541000, "26" := 524000, "27" := 600000,
    "28" := 446000, "29" := 954000, "30" := 783000, "31" := 1506000, "32" := 192000, "33" := 1657000, "34" := 1187000,
    "35" := 1120000, "36" := 220000, "37" := 620000, "38" := 1298000, "39" := 259000, "40" := 425000, "41" := 327000,
    "42" := 765000, "43" := 227000, "44" := 1496000, "45" := 683000, "46" := 176000, "47" := 330000, "48" := 76000,
    "49" := 834000, "50" := 499000, "51" := 571000, "52" := 170000, "53" := 318000, "54" := 730000, "55" := 180000,
    "56" := 772000, "57" := 1054000, "58" := 195000, "59" := 2607000, "60" := 830000, "61" := 278000, "62" := 1453000,
    "63" := 660000, "64" := 683000, "65" := 228000, "66" := 486000, "67" := 1160000, "68" := 799000, "69" := 1867000,
    "70" := 235000, "71" := 551000, "72" := 567000, "73" := 450000, "74" := 844000, "75" := 2125000, "76" := 1260000,
    "77" := 1469000, "78" := 1460000, "79" := 381000, "80" := 571000, "81" := 392000, "82" := 262000, "83" := 1123000,
    "84" := 573000, "85" := 700000, "86" := 444000, "87" := 370000, "88" := 364000, "89" := 331000, "90" := 141000,
    "91" := 1328000, "92" := 1615000, "93" := 1662000, "94" := 1399000, "95" := 1249000,
    "971" := 383000, "972" := 361000, "973" := 296000, "974" := 865000, "976" := 310000
  ]

  /**
   * The code used for the population lookup: the text of the cell
   * zero-padded to two characters, except that "2a"/"2b" in any case
   * become "2A"/"2B". Unlike NormCode nothing is stripped.
   */
  function PopCode(v: Value): (code: string)
    ensures Upper(AsText(v)) == "2A" ==> code == "2A"
    ensures Upper(AsText(v)) == "2B" ==> code == "2B"
    ensures Upper(AsText(v)) != "2A" && Upper(AsText(v)) != "2B" ==> code == ZFill(AsText(v), 2)
  {
    var s := AsText(v);
    if Upper(s) == "2A" then "2A" else if Upper(s) == "2B" then "2B" else ZFill(s, 2)
  }

  lemma PopCodeCorsica()
    ensures PopCode(Str("2a")) == "2A"
  {
    var u := Upper("2a");
    assert u[0] == '2' && u[1] == 'A';
    assert u == "2A";
  }

  lemma PopCodePadding()
    ensures PopCode(Str("7")) == "07" && PopCode(Str("974")) == "974"
  {
    assert |Upper("7")| == 1 && |Upper("974")| == 3;
    assert ZFill("7", 2) == "07";
  }

  /**
   * The two code paths disagree on a digit preceded by a space: norm_code
   * strips and pads it, the population join keeps it as it is.
   */
  lemma PopCodeDoesNotStrip(d: char)
    requires IsDigit(d)
    ensures PopCode(Str([' ', d])) == [' ', d] && NormCode(Str([' ', d])) == ['0', d]
  {
    PopCodeKeepsSpace(d);
    NormCodeStripsSpace(d);
  }

  lemma PopCodeKeepsSpace(d: char)
    ensures PopCode(Str([' ', d])) == [' ', d]
  {
    var w := Upper([' ', d]);
    assert w[0] == ' ';
    assert w != "2A" && w != "2B";
  }

  lemma NormCodeStripsSpace(d: char)
    requires IsDigit(d)
    ensures NormCode(Str([' ', d])) == ['0', d]
  {
    LeadingSpaceStripped(d);
    assert Upper([d]) == [d];
    assert NormText([d]) == ['0', d] by {
      assert IsDigitString([d]);
      assert Zeros(1) == "0";
    }
  }

  lemma LeadingSpaceStripped(d: char)
    requires IsDigit(d)
    ensures Strip([' ', d]) == [d]
  {
    assert !IsSpace(d);
    assert [' ', d][1..] == [d];
    assert TrimStart([d]) == [d];
    assert TrimStart([' ', d]) == [d];
    assert TrimEnd([d]) == [d];
  }

  /** A department matched with its population (the people-per-charger input). */
  datatype Coverage = Coverage(dept: Value, code: string, points: nat, population: nat)

  /** The joined row of a department group whose code has a population in pops. */
  function Joined(g: Group, code: Value -> string, pops: map<string, nat>): Coverage
    requires code(g.key) in pops
  {
    Coverage(g.key, code(g.key), g.size, pops[code(g.key)])
  }

  /**
   * The inner merge on the code with a population table: one joined row
   * per group with a population, no other row.
   */
  function Covered(gs: seq<Group>, code: Value -> string, pops: map<string, nat>): (cs: seq<Coverage>)
    ensures forall g :: g in gs && code(g.key) in pops ==> Joined(g, code, pops) in cs
    ensures forall c :: c in cs ==> exists g :: g in gs && code(g.key) in pops && c == Joined(g, code, pops)
  {
    if |gs| == 0 then []
    else
      var rest := Covered(gs[1..], code, pops);
      assert forall g :: g in gs <==> g == gs[0] || g in gs[1..];
      if code(gs[0].key) in pops then [Joined(gs[0], code, pops)] + rest else rest
  }

  /** No department appears twice. */
  predicate DistinctDepts(cs: seq<Coverage>) {
    forall i, j :: 0 <= i < j < |cs| ==> cs[i].dept != cs[j].dept
  }

  /** With distinct keys, no joined row of the later groups carries the first group's key. */
  lemma FirstKeyNotJoinedLater(gs: seq<Group>, code: Value -> string, pops: map<string, nat>)
    requires |gs| > 0
    requires forall i, j :: 0 <= i < j < |gs| ==> gs[i].key != gs[j].key
    ensures forall c :: c in Covered(gs[1..], code, pops) ==> c.dept != gs[0].key
  {
    forall c | c in Covered(gs[1..], code, pops) ensures c.dept != gs[0].key {
      var g :| g in gs[1..] && code(g.key) in pops && c == Joined(g, code, pops);
      var k :| 0 <= k < |gs[1..]| && gs[1..][k] == g;
      assert gs[k + 1] == g;
    }
  }

  /** Groups with distinct keys join into rows with distinct departments. */
  lemma {:induction false} CoveredDistinct(gs: seq<Group>, code: Value -> string, pops: map<string, nat>)
    requires forall i, j :: 0 <= i < j < |gs| ==> gs[i].key != gs[j].key
    ensures DistinctDepts(Covered(gs, code, pops))
  {
    if |gs| > 0 {
      var tail := gs[1..];
      assert forall i, j :: 0 <= i < j < |tail| ==> tail[i].key != tail[j].key by {
        forall i, j | 0 <= i < j < |tail| ensures tail[i].key != tail[j].key {
          assert tail[i] == gs[i + 1] && tail[j] == gs[j + 1];
        }
      }
      CoveredDistinct(tail, code, pops);
      var rest := Covered(tail, code, pops);
      if code(gs[0].key) in pops {
        FirstKeyNotJoinedLater(gs, code, pops);
        var cs := [Joined(gs[0], code, pops)] + rest;
        assert cs == Covered(gs, code, pops);
        forall i, j | 0 <= i < j < |cs| ensures cs[i].dept != cs[j].dept {
          if i == 0 {
            assert cs[j] == rest[j - 1] && cs[j] in rest;
          } else {
            assert cs[i] == rest[i - 1] && cs[j] == rest[j - 1];
          }
        }
      } else {
        assert Covered(gs, code, pops) == rest;
      }
    }
  }

  /**
   * The population join: every present department whose code has a
   * population, with its number of points; departments without one are
   * dropped.
   */
  function PopulationJoin(t: Table): (cs: seq<Coverage>)
    ensures "departement" !in t.cols || |t.rows| == 0 ==> cs == []
    ensures forall c :: c in cs ==>
      && Present(c.dept) && c.code == PopCode(c.dept) && c.code in POP_BY_DEP
      && c.population == POP_BY_DEP[c.code]
      && c.points == Occurrences(Column(t, "departement"), c.dept) && c.points >= 1
    ensures "departement" in t.cols && |t.rows| > 0 ==>
      forall v :: v in Column(t, "departement") && Present(v) && PopCode(v) in POP_BY_DEP
        ==> Coverage(v, PopCode(v), Occurrences(Column(t, "departement"), v), POP_BY_DEP[PopCode(v)]) in cs
    ensures forall i, j :: 0 <= i < j < |cs| ==> cs[i].dept != cs[j].dept
  {
    if "departement" !in t.cols || |t.rows| == 0 then []
    else
      var gs := GroupBy(Column(t, "departement"), true);
      CoveredDistinct(gs, PopCode, POP_BY_DEP);
      Covered(gs, PopCode, POP_BY_DEP)
  }

  /** A present department value whose code has a population. */
  predicate Joinable(vs: seq<Value>) {
    exists v :: v in vs && Present(v) && PopCode(v) in POP_BY_DEP
  }

  /**
   * The people-per-charger note reads the first and last joined rows
   * without a guard: it raises an IndexError when the section runs (rows,
   * and a departement column) but no department joins a population.
   */
  predicate JoinRaises(t: Table) {
    "departement" in t.cols && |t.rows| > 0 && PopulationJoin(t) == []
  }

  /** The note raises exactly when no present department has a population. */
  lemma JoinRaisesIff(t: Table)
    ensures JoinRaises(t) <==> "departement" in t.cols && |t.rows| > 0 && !Joinable(Column(t, "departement"))
  {
    var vs := Column(t, "departement");
    var cs := PopulationJoin(t);
    if "departement" in t.cols && |t.rows| > 0 {
      if cs != [] {
        var c := cs[0];
        assert c in cs;
        assert Occurrences(vs, c.dept) >= 1;
        if c.dept !in vs {
          NoOccurrence(vs, c.dept);
        }
        assert Joinable(vs);
      }
      if Joinable(vs) {
        var v :| v in vs && Present(v) && PopCode(v) in POP_BY_DEP;
        assert Coverage(v, PopCode(v), Occurrences(vs, v), POP_BY_DEP[PopCode(v)]) in cs;
      }
    }
  }

  /** Every department missing: the section runs and the note raises. */
  lemma JoinRaisesWithoutDepartment()
    ensures JoinRaises(Table(["departement"], [map["departement" := Missing]]))
  {
    var t := Table(["departement"], [map["departement" := Missing]]);
    JoinRaisesIff(t);
    var vs := Column(t, "departement");
    assert vs == [Missing];
  }

  /** The operators table: at most ten operators, most points first. */
  function TopOperators(t: Table): (r: seq<Group>)
    ensures "nom_operateur" !in t.cols || |t.rows| == 0 ==> r == []
    ensures "nom_operateur" in t.cols && |t.rows| > 0 ==> |r| == Min(10, |KeysOf(Column(t, "nom_operateur"), true)|)
    ensures NonIncreasing(r, SizeOf)
    ensures forall g :: g in r ==> Present(g.key) && g.size == Occurrences(Column(t, "nom_operateur"), g.key)
    ensures forall v, i ::
              v in Column(t, "nom_operateur") && Present(v) && Group(v, Occurrences(Column(t, "nom_operateur"), v)) !in r
              && 0 <= i < |r|
              ==> Occurrences(Column(t, "nom_operateur"), v) <= r[i].size
    ensures forall i, j :: 0 <= i < j < |r| ==> r[i].key != r[j].key
  {
    TopCounts(t, "nom_operateur", 10)
  }

  /**
   * The key-takeaway note reads the first operator without a guard: it
   * raises an IndexError when the section runs (rows, and a nom_operateur
   * column) but the operators table is empty.
   */
  predicate OperatorsRaise(t: Table) {
    "nom_operateur" in t.cols && |t.rows| > 0 && TopOperators(t) == []
  }

  /** The note raises exactly when no row names an operator. */
  lemma OperatorsRaiseIff(t: Table)
    ensures OperatorsRaise(t) <==> "nom_operateur" in t.cols && |t.rows| > 0 && !AnyPresent(t, "nom_operateur")
  {
  }

  /** A single row without an operator: the section runs and the note raises. */
  lemma OperatorsRaiseWithoutOperator()
    ensures OperatorsRaise(Table(["nom_operateur"], [map["nom_operateur" := Missing]]))
  {
    var t := Table(["nom_operateur"], [map["nom_operateur" := Missing]]);
    OperatorsRaiseIff(t);
    assert Get(t.rows[0], "nom_operateur") == Missing;
  }

  /**
   * The 24/7 pie: "24/7" and "Restricted" counts of access_24_7 (missing
   * counted apart), adding up to the number of rows. The page reads the
   * column without checking it exists.
   */
  function AccessMix(t: Table): (r: seq<Group>)
    requires "access_24_7" in t.cols
    ensures SizeTotal(r) == |t.rows|
    ensures forall g :: g in r ==> g.key in {Str("24/7"), Str("Restricted"), Missing}
    ensures forall g :: g in r && g.key == Str("24/7") ==> g.size == TrueCount(Column(t, "access_24_7"))
    ensures forall g :: g in r && g.key == Str("Restricted") ==> g.size == FalseCount(Column(t, "access_24_7"))
    ensures forall g :: g in r && g.key == Missing ==> g.size == NeitherCount(Column(t, "access_24_7"))
    ensures TrueCount(Column(t, "access_24_7")) > 0 ==> Group(Str("24/7"), TrueCount(Column(t, "access_24_7"))) in r
    ensures FalseCount(Column(t, "access_24_7")) > 0 ==> Group(Str("Restricted"), FalseCount(Column(t, "access_24_7"))) in r
    ensures NeitherCount(Column(t, "access_24_7")) > 0 ==> Group(Missing, NeitherCount(Column(t, "access_24_7"))) in r
    ensures forall i, j :: 0 <= i < j < |r| ==> r[i].key != r[j].key
  {
    LabelCounts(Column(t, "access_24_7"), "24/7", "Restricted")
  }
}
