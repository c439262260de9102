/**
 * The Overview page of the dashboard: loading the cleaned export, the
 * sidebar filters, and the tables behind its metrics, its department bar
 * chart and its AC/DC pie.
 */
module Overview {
  import opened Text
  import opened Values
  import opened Seqs
  import opened Tables
  import opened Groups

  /** The spellings of "true" the pages accept in boolean columns. */
  const TRUTHY: set<string> := {"1", "true", "vrai", "oui", "yes"}

  const BOOL_COLS: seq<string> := ["is_dc", "access_24_7", "est_publique", "reservation"]
  const NUM_COLS: seq<string> := ["puissance_kw", "puissance_nominale", "latitude", "longitude", "code_postal"]

  const COMMISSIONED := "date_mise_en_service"
  const UPDATED := "date_maj"

  /** astype(str).str.strip().str.lower().isin(TRUTHY) on one cell. */
  function Truthy(v: Value): bool {
    Lower(Strip(AsText(v))) in TRUTHY
  }

  /** A text without whitespace is its own strip(). */
  lemma StripNoSpace(s: string)
    requires forall i :: 0 <= i < |s| ==> !IsSpace(s[i])
    ensures Strip(s) == s
  {
    assert TrimStart(s) == s;
  }

  /** A bool keeps its value: True reads as "true", False as "false". */
  lemma TruthyFlag(b: bool)
    ensures Truthy(Flag(b)) == b
  {
    if b {
      TrueIsTruthy();
    } else {
      FalseNotTruthy();
    }
  }

  lemma TrueIsTruthy()
    ensures Truthy(Flag(true))
  {
    assert Strip("True") == "True" by {
      StripNoSpace("True");
    }
    LowerTrue();
  }

  lemma LowerTrue()
    ensures Lower("True") in TRUTHY
  {
    var t := Lower("True");
    assert t[0] == 't' && t[1] == 'r' && t[2] == 'u' && t[3] == 'e';
    assert t == "true";
  }

  lemma FalseNotTruthy()
    ensures !Truthy(Flag(false))
  {
    StripNoSpace("False");
    LowerFalse();
  }

  lemma LowerFalse()
    ensures Lower("False") !in TRUTHY
  {
    assert |Lower("False")| == 5;
  }

  /** A missing cell reads as "nan", which is not a spelling of true. */
  lemma MissingNotTruthy()
    ensures !Truthy(Missing)
  {
    StripNoSpace("nan");
    NanNotTrue();
  }

  lemma NanNotTrue()
    ensures Lower("nan") !in TRUTHY
  {
    var n := Lower("nan");
    assert n != "oui" by { assert n[0] != "oui"[0]; }
    assert n != "yes" by { assert n[0] != "yes"[0]; }
  }

  /** The bool-column conversion of one cell. */
  function AsFlag(v: Value): Value {
    Flag(Truthy(v))
  }

  /** The numeric-column conversion of one cell: pd.to_numeric(errors="coerce"). */
  function AsNumber(v: Value): Value {
    ToNumeric(v)
  }

  /** One row after the columns in names have gone through conv. */
  function ConvertedRow(r: Row, names: set<string>, conv: Value -> Value): (o: Row)
    ensures o.Keys == r.Keys
    ensures forall c :: c in r ==> o[c] == if c in names then conv(r[c]) else r[c]
  {
    map c | c in r :: if c in names then conv(r[c]) else r[c]
  }

  /** Converting one more column. */
  lemma ConvertOneMore(r: Row, s: set<string>, c: string, conv: Value -> Value)
    requires c !in s
    ensures c in r ==> ConvertedRow(r, s, conv)[c := conv(r[c])] == ConvertedRow(r, s + {c}, conv)
    ensures c !in r ==> ConvertedRow(r, s, conv) == ConvertedRow(r, s + {c}, conv)
  {
    var a := ConvertedRow(r, s, conv);
    var b := ConvertedRow(r, s + {c}, conv);
    if c in r {
      assert a[c := conv(r[c])].Keys == b.Keys;
    } else {
      assert a.Keys == b.Keys;
    }
  }

  /**
   * for c in names: if c in df.columns: df[c] = conv(df[c]) -- every listed
   * column that exists is converted cell by cell, nothing else changes.
   */
  method ConvertColumns(df: Table, names: seq<string>, conv: Value -> Value) returns (out: Table)
    requires WF(df) && NoDup(names)
    ensures out.cols == df.cols && |out.rows| == |df.rows| && WF(out)
    ensures forall i :: 0 <= i < |df.rows| ==> out.rows[i] == ConvertedRow(df.rows[i], ColSet(names), conv)
  {
    NoDupPairwise(names);
    out := df;
    for k := 0 to |names|
      invariant out.cols == df.cols && |out.rows| == |df.rows| && WF(out)
      invariant forall i :: 0 <= i < |df.rows| ==> out.rows[i] == ConvertedRow(df.rows[i], ColSet(names[..k]), conv)
    {
      var c := names[k];
      ghost var s := ColSet(names[..k]);
      assert ColSet(names[..k + 1]) == s + {c} by {
        assert names[..k + 1] == names[..k] + [c];
      }
      assert c !in s;
      ghost var before := out;
      if c in out.cols {
        out := WithColumn(out, c, r => conv(Get(r, c)));
        forall i | 0 <= i < |df.rows|
          ensures out.rows[i] == ConvertedRow(df.rows[i], s + {c}, conv)
        {
          assert df.rows[i] in df.rows;
          assert c in df.rows[i];
          assert Get(before.rows[i], c) == df.rows[i][c];
          assert out.rows[i] == ConvertedRow(df.rows[i], s, conv)[c := conv(df.rows[i][c])];
          ConvertOneMore(df.rows[i], s, c, conv);
        }
      } else {
        forall i | 0 <= i < |df.rows|
          ensures out.rows[i] == ConvertedRow(df.rows[i], s + {c}, conv)
        {
          assert df.rows[i] in df.rows;
          ConvertOneMore(df.rows[i], s, c, conv);
        }
      }
    }
    assert names[..|names|] == names;
  }

  /** One row as load_data leaves it. */
  function LoadedRow(r: Row): Row {
    ConvertedRow(ConvertedRow(r, ColSet(BOOL_COLS), AsFlag), ColSet(NUM_COLS), AsNumber)
  }

  lemma BoolColsDistinct()
    ensures NoDup(BOOL_COLS)
  {
    assert BOOL_COLS[1..][1..][1..] == ["reservation"];
  }

  lemma NumColsDistinct()
    ensures NoDup(NUM_COLS)
  {
    assert NUM_COLS[1..][1..][1..][1..] == ["code_postal"];
  }

  /** No column is both a boolean and a numeric one. */
  lemma ColumnListsDisjoint(c: string)
    ensures c in BOOL_COLS ==> c !in NUM_COLS
  {
    if c in BOOL_COLS {
      assert c == "is_dc" || c == "access_24_7" || c == "est_publique" || c == "reservation";
    }
  }

  /**
   * load_data after read_csv: the boolean columns become flags through
   * Truthy, the numeric ones numbers or missing; the date conversion and
   * the category dtype are not modelled.
   */
  method LoadData(raw: Table) returns (df: Table)
    requires WF(raw)
    ensures df.cols == raw.cols && |df.rows| == |raw.rows| && WF(df)
    ensures forall i :: 0 <= i < |raw.rows| ==> df.rows[i] == LoadedRow(raw.rows[i])
  {
    BoolColsDistinct();
    NumColsDistinct();
    var flagged := ConvertColumns(raw, BOOL_COLS, AsFlag);
    df := ConvertColumns(flagged, NUM_COLS, AsNumber);
  }

  /** After loading, the boolean columns hold flags and the numeric ones numbers or missing. */
  lemma LoadedCells(r: Row, c: string)
    requires c in r
    ensures c in BOOL_COLS ==> LoadedRow(r)[c].Flag?
    ensures c in NUM_COLS ==> LoadedRow(r)[c].Num? || LoadedRow(r)[c].Missing?
    ensures c !in BOOL_COLS && c !in NUM_COLS ==> LoadedRow(r)[c] == r[c]
  {
    ColumnListsDisjoint(c);
  }

  /** A loaded cell loads to itself. */
  lemma LoadedCellStable(r: Row, c: string)
    requires c in r
    ensures LoadedRow(LoadedRow(r))[c] == LoadedRow(r)[c]
  {
    var once := LoadedRow(r);
    LoadedCells(r, c);
    LoadedCells(once, c);
    if c in BOOL_COLS {
      TruthyFlag(once[c].b);
    }
  }

  /** Loading an already loaded row changes nothing. */
  lemma LoadIdempotent(r: Row)
    ensures LoadedRow(LoadedRow(r)) == LoadedRow(r)
  {
    var once := LoadedRow(r);
    var twice := LoadedRow(once);
    forall c | c in r ensures twice[c] == once[c] {
      LoadedCellStable(r, c);
    }
    assert twice.Keys == once.Keys;
  }

  /**
   * ensure_date_series: the commissioning dates when that column has a
   * value, else the update dates when that one has, else all missing.
   */
  function EnsureDateSeries(t: Table): (ds: seq<Value>)
    ensures |ds| == |t.rows|
    ensures COMMISSIONED in t.cols && AnyPresent(t, COMMISSIONED) ==> ds == Column(t, COMMISSIONED)
    ensures !(COMMISSIONED in t.cols && AnyPresent(t, COMMISSIONED)) && UPDATED in t.cols && AnyPresent(t, UPDATED)
      ==> ds == Column(t, UPDATED)
    ensures (exists i :: 0 <= i < |ds| && Present(ds[i]))
      <==> (COMMISSIONED in t.cols && AnyPresent(t, COMMISSIONED)) || (UPDATED in t.cols && AnyPresent(t, UPDATED))
  {
    match DateColumn(t)
    case Some(c) => Column(t, c)
    case None => Repeat(Missing, |t.rows|)
  }

  /** The column ensure_date_series reads, if any. */
  function DateColumn(t: Table): Option<string> {
    if COMMISSIONED in t.cols && AnyPresent(t, COMMISSIONED) then Some(COMMISSIONED)
    else if UPDATED in t.cols && AnyPresent(t, UPDATED) then Some(UPDATED)
    else None
  }

  /** The "Current type" radio button. */
  datatype Current = All | Dc | Ac

  /** A closed interval chosen with a slider or a date picker. */
  datatype Range = Range(lo: real, hi: real)

  /**
   * The sidebar choices: selected departments and operators (empty means
   * no restriction), the current type, the 24/7 box, the period (dates on a
   * common numeric time axis) and the power range, when those widgets are
   * shown.
   */
  datatype Selection = Selection(
    depts: seq<Value>, operators: seq<Value>, current: Current, only247: bool,
    period: Option<Range>, power: Option<Range>)

  /** series == b for a bool b: True and False compare equal to 1 and 0. */
  predicate IsBool(v: Value, b: bool) {
    AsReal(v) == Some(if b then 1.0 else 0.0)
  }

  /** Each sidebar criterion holds trivially unless chosen and its column exists. */
  predicate DeptOk(cols: seq<string>, sel: Selection, r: Row) {
    sel.depts != [] && "departement" in cols ==> Get(r, "departement") in sel.depts
  }

  predicate OperatorOk(cols: seq<string>, sel: Selection, r: Row) {
    sel.operators != [] && "nom_operateur" in cols ==> Get(r, "nom_operateur") in sel.operators
  }

  predicate CurrentOk(cols: seq<string>, sel: Selection, r: Row) {
    sel.current != All && "is_dc" in cols ==> IsBool(Get(r, "is_dc"), sel.current == Dc)
  }

  predicate OpenOk(cols: seq<string>, sel: Selection, r: Row) {
    sel.only247 && "access_24_7" in cols ==> Get(r, "access_24_7") == Flag(true)
  }

  /** The department, operator, current-type and 24/7 criteria. */
  predicate Basic(cols: seq<string>, sel: Selection, r: Row) {
    DeptOk(cols, sel, r) && OperatorOk(cols, sel, r) && CurrentOk(cols, sel, r) && OpenOk(cols, sel, r)
  }

  /** The power criterion: both ends included, a missing power fails. */
  predicate InPower(cols: seq<string>, sel: Selection, r: Row) {
    sel.power.Some? && "puissance_kw" in cols
    ==> AtLeast(Get(r, "puissance_kw"), sel.power.value.lo) && AtMost(Get(r, "puissance_kw"), sel.power.value.hi)
  }

  function DeptMask(sel: Selection): Row -> bool {
    r => Get(r, "departement") in sel.depts
  }

  function OperatorMask(sel: Selection): Row -> bool {
    r => Get(r, "nom_operateur") in sel.operators
  }

  function CurrentMask(sel: Selection): Row -> bool {
    r => IsBool(Get(r, "is_dc"), sel.current == Dc)
  }

  function OpenMask(): Row -> bool {
    r => Get(r, "access_24_7") == Flag(true)
  }

  function PeriodMask(c: string, p: Range): Row -> bool {
    r => Between(Get(r, c), p.lo, p.hi)
  }

  function PowerMask(p: Range): Row -> bool {
    r => AtLeast(Get(r, "puissance_kw"), p.lo) && AtMost(Get(r, "puissance_kw"), p.hi)
  }

  /** Some row of t passing the first four criteria has a value in column c. */
  predicate DatedAmong(t: Table, sel: Selection, c: string) {
    exists r :: r in t.rows && Basic(t.cols, sel, r) && Present(Get(r, c))
  }

  /**
   * The date column the period applies to: ensure_date_series of the rows
   * left by the first four criteria, so the update dates stand in when
   * none of those rows has a commissioning date.
   */
  function PeriodColumn(t: Table, sel: Selection): Option<string> {
    if COMMISSIONED in t.cols && DatedAmong(t, sel, COMMISSIONED) then Some(COMMISSIONED)
    else if UPDATED in t.cols && DatedAmong(t, sel, UPDATED) then Some(UPDATED)
    else None
  }

  /** A row sidebar_filters keeps. */
  predicate Shown(t: Table, sel: Selection, r: Row) {
    && Basic(t.cols, sel, r)
    && (sel.period.Some? && PeriodColumn(t, sel).Some?
        ==> Between(Get(r, PeriodColumn(t, sel).value), sel.period.value.lo, sel.period.value.hi))
    && InPower(t.cols, sel, r)
  }

  /** A present cell among rows that are exactly the rows of t passing Basic. */
  lemma AnyPresentAmong(f: Table, t: Table, sel: Selection, c: string)
    requires f.cols == t.cols
    requires forall r :: r in f.rows <==> r in t.rows && Basic(t.cols, sel, r)
    ensures AnyPresent(f, c) <==> DatedAmong(t, sel, c)
  {
    if AnyPresent(f, c) {
      var i :| 0 <= i < |f.rows| && !Get(f.rows[i], c).Missing?;
      assert f.rows[i] in f.rows;
    }
    if DatedAmong(t, sel, c) {
      var r :| r in t.rows && Basic(t.cols, sel, r) && Present(Get(r, c));
      var i :| 0 <= i < |f.rows| && f.rows[i] == r;
    }
  }

  /**
   * sidebar_filters: successive df[mask] selections, each applied only when
   * its widget has a choice and its column exists; the power range includes
   * both ends.
   */
  method SidebarFilters(df: Table, sel: Selection) returns (f: Table)
    ensures f.cols == df.cols
    ensures WF(df) ==> WF(f)
    ensures Subseq(f.rows, df.rows)
    ensures forall r :: r in f.rows <==> r in df.rows && Shown(df, sel, r)
  {
    f := BasicFilters(df, sel);
    f := PeriodFilter(df, sel, f);
    if sel.power.Some? && "puissance_kw" in f.cols {
      FilterStep(df, f, PowerMask(sel.power.value));
      f := Filter(f, PowerMask(sel.power.value));
    }
  }

  /** The period step of sidebar_filters: ensure_date_series of the rows left so far, when it has a value. */
  method PeriodFilter(df: Table, sel: Selection, f0: Table) returns (f: Table)
    requires f0.cols == df.cols && Subseq(f0.rows, df.rows)
    requires forall r :: r in f0.rows <==> r in df.rows && Basic(df.cols, sel, r)
    ensures f.cols == df.cols && (WF(f0) ==> WF(f)) && Subseq(f.rows, df.rows)
    ensures forall r :: r in f.rows <==> (
      && r in df.rows && Basic(df.cols, sel, r)
      && (sel.period.Some? && PeriodColumn(df, sel).Some?
          ==> Between(Get(r, PeriodColumn(df, sel).value), sel.period.value.lo, sel.period.value.hi)))
  {
    f := f0;
    if sel.period.Some? {
      var ds := EnsureDateSeries(f);
      AnyPresentAmong(f, df, sel, COMMISSIONED);
      AnyPresentAmong(f, df, sel, UPDATED);
      assert DateColumn(f) == PeriodColumn(df, sel);
      if exists i :: 0 <= i < |ds| && Present(ds[i]) {
        var c := DateColumn(f).value;
        FilterStep(df, f, PeriodMask(c, sel.period.value));
        f := Filter(f, PeriodMask(c, sel.period.value));
      }
    }
  }

  /** The first four steps of sidebar_filters (and of the Deep dives filters). */
  method BasicFilters(df: Table, sel: Selection) returns (f: Table)
    ensures f.cols == df.cols
    ensures WF(df) ==> WF(f)
    ensures Subseq(f.rows, df.rows)
    ensures forall r :: r in f.rows <==> r in df.rows && Basic(df.cols, sel, r)
  {
    var g := PlaceFilters(df, sel);
    f := KindFilters(df, sel, g);
  }

  /** The department and operator steps. */
  method PlaceFilters(df: Table, sel: Selection) returns (f: Table)
    ensures f.cols == df.cols
    ensures WF(df) ==> WF(f)
    ensures Subseq(f.rows, df.rows)
    ensures forall r :: r in f.rows <==> r in df.rows && DeptOk(df.cols, sel, r) && OperatorOk(df.cols, sel, r)
  {
    f := df;
    SubseqRefl(df.rows);
    if sel.depts != [] && "departement" in f.cols {
      FilterStep(df, f, DeptMask(sel));
      f := Filter(f, DeptMask(sel));
    }
    assert forall r :: r in f.rows <==> r in df.rows && DeptOk(df.cols, sel, r);
    if sel.operators != [] && "nom_operateur" in f.cols {
      FilterStep(df, f, OperatorMask(sel));
      f := Filter(f, OperatorMask(sel));
    }
  }

  /** The current-type and 24/7 steps. */
  method KindFilters(df: Table, sel: Selection, f0: Table) returns (f: Table)
    requires f0.cols == df.cols && Subseq(f0.rows, df.rows)
    requires forall r :: r in f0.rows <==> r in df.rows && DeptOk(df.cols, sel, r) && OperatorOk(df.cols, sel, r)
    ensures f.cols == df.cols
    ensures WF(f0) ==> WF(f)
    ensures Subseq(f.rows, df.rows)
    ensures forall r :: r in f.rows <==> r in df.rows && Basic(df.cols, sel, r)
  {
    f := f0;
    if sel.current != All && "is_dc" in f.cols {
      FilterStep(df, f, CurrentMask(sel));
      f := Filter(f, CurrentMask(sel));
    }
    assert forall r :: r in f.rows <==>
      r in df.rows && DeptOk(df.cols, sel, r) && OperatorOk(df.cols, sel, r) && CurrentOk(df.cols, sel, r);
    if sel.only247 && "access_24_7" in f.cols {
      FilterStep(df, f, OpenMask());
      f := Filter(f, OpenMask());
    }
  }

  /** One df[mask] step of a filter chain keeps the result a subsequence of the start. */
  lemma FilterStep(start: Table, f: Table, p: Row -> bool)
    requires Subseq(f.rows, start.rows)
    ensures Subseq(Where(f.rows, p), start.rows)
  {
    WhereIsSubseq(f.rows, p);
    SubseqTrans(Where(f.rows, p), f.rows, start.rows);
  }

  /**
   * The "unique stations" metric: the number of distinct present addresses,
   * 0 without an address column; never more than the number of points.
   */
  function StationCount(t: Table): (n: nat)
    ensures "adresse_station" in t.cols ==> n == |PresentSet(Column(t, "adresse_station"))|
    ensures n <= |t.rows|
    ensures n == 0 <==> !("adresse_station" in t.cols && AnyPresent(t, "adresse_station"))
    ensures "adresse_station" in t.cols ==>
      forall r :: r in t.rows && Present(Get(r, "adresse_station")) ==> Get(r, "adresse_station") in KeysOf(Column(t, "adresse_station"), true)
  {
    if "adresse_station" in t.cols then
      var vs := Column(t, "adresse_station");
      var ks := KeysOf(vs, true);
      assert |ks| > 0 <==> AnyPresent(t, "adresse_station") by {
        if AnyPresent(t, "adresse_station") {
          var i :| 0 <= i < |t.rows| && !Get(t.rows[i], "adresse_station").Missing?;
          assert vs[i] in ks;
        }
        if |ks| > 0 {
          assert ks[0] in vs;
        }
      }
      KeysCount(vs);
      assert forall r :: r in t.rows ==> Get(r, "adresse_station") in vs by {
        forall r | r in t.rows ensures Get(r, "adresse_station") in vs {
          var i :| 0 <= i < |t.rows| && t.rows[i] == r;
          assert vs[i] == Get(r, "adresse_station");
        }
      }
      |ks|
    else 0
  }

  /** top_departments(df, n): the n departments with the most rows. */
  function TopDepartments(t: Table, n: nat): (r: seq<Group>)
    ensures "departement" !in t.cols || |t.rows| == 0 ==> r == []
    ensures "departement" in t.cols && |t.rows| > 0 ==> |r| == Min(n, |KeysOf(Column(t, "departement"), true)|)
    ensures NonIncreasing(r, SizeOf)
    ensures forall g :: g in r ==> Present(g.key) && g.size == Occurrences(Column(t, "departement"), g.key) && g.size >= 1
    ensures forall v, i ::
              v in Column(t, "departement") && Present(v) && Group(v, Occurrences(Column(t, "departement"), v)) !in r && 0 <= i < |r|
              ==> Occurrences(Column(t, "departement"), v) <= r[i].size
    ensures forall i, j :: 0 <= i < j < |r| ==> r[i].key != r[j].key
  {
    TopCounts(t, "departement", n)
  }

  /**
   * Series.map({True: yes, False: no}) on one cell: the dictionary keys
   * match True/1 and False/0, anything else maps to missing.
   */
  function BoolLabel(v: Value, yes: string, no: string): (l: Value)
    requires yes != no
    ensures l == Str(yes) <==> IsBool(v, true)
    ensures l == Str(no) <==> IsBool(v, false)
    ensures l == Missing <==> !IsBool(v, true) && !IsBool(v, false)
  {
    if IsBool(v, true) then Str(yes) else if IsBool(v, false) then Str(no) else Missing
  }

  function BoolLabels(vs: seq<Value>, yes: string, no: string): (ls: seq<Value>)
    requires yes != no
    ensures |ls| == |vs|
    ensures forall i :: 0 <= i < |vs| ==> ls[i] == BoolLabel(vs[i], yes, no)
  {
    if |vs| == 0 then [] else [BoolLabel(vs[0], yes, no)] + BoolLabels(vs[1..], yes, no)
  }

  /** Cells equal to True. */
  function TrueCount(vs: seq<Value>): nat {
    if |vs| == 0 then 0 else (if IsBool(vs[0], true) then 1 else 0) + TrueCount(vs[1..])
  }

  /** Cells equal to False. */
  function FalseCount(vs: seq<Value>): nat {
    if |vs| == 0 then 0 else (if IsBool(vs[0], false) then 1 else 0) + FalseCount(vs[1..])
  }

  /** Cells equal to neither (missing, or any other value). */
  function NeitherCount(vs: seq<Value>): nat {
    if |vs| == 0 then 0 else (if !IsBool(vs[0], true) && !IsBool(vs[0], false) then 1 else 0) + NeitherCount(vs[1..])
  }

  lemma {:induction false} LabelOccurrences(vs: seq<Value>, yes: string, no: string)
    requires yes != no
    ensures Occurrences(BoolLabels(vs, yes, no), Str(yes)) == TrueCount(vs)
    ensures Occurrences(BoolLabels(vs, yes, no), Str(no)) == FalseCount(vs)
    ensures Occurrences(BoolLabels(vs, yes, no), Missing) == NeitherCount(vs)
    ensures TrueCount(vs) + FalseCount(vs) + NeitherCount(vs) == |vs|
  {
    if |vs| > 0 {
      LabelOccurrences(vs[1..], yes, no);
      assert BoolLabels(vs, yes, no)[1..] == BoolLabels(vs[1..], yes, no);
    }
  }

  /** Every entry of the label counts is a label that occurs. */
  lemma LabelKeys(vs: seq<Value>, yes: string, no: string)
    requires yes != no
    ensures forall g :: g in Tally(BoolLabels(vs, yes, no)) ==>
      (g.key == Str(yes) || g.key == Str(no) || g.key == Missing) && g.size >= 1
  {
    var ls := BoolLabels(vs, yes, no);
    forall g | g in Tally(ls) ensures g.key == Str(yes) || g.key == Str(no) || g.key == Missing {
      var i :| 0 <= i < |ls| && ls[i] == g.key;
      assert ls[i] == BoolLabel(vs[i], yes, no);
    }
  }

  /**
   * map({True: yes, False: no}).value_counts(dropna=False): one entry per
   * label that occurs, largest first; the yes entry counts the true cells,
   * the no entry the false ones, and together with the missing entry they
   * account for every cell.
   */
  function LabelCounts(vs: seq<Value>, yes: string, no: string): (r: seq<Group>)
    requires yes != no
    ensures NonIncreasing(r, SizeOf)
    ensures SizeTotal(r) == |vs|
    ensures forall g :: g in r ==> (g.key == Str(yes) || g.key == Str(no) || g.key == Missing) && g.size >= 1
    ensures forall g :: g in r && g.key == Str(yes) ==> g.size == TrueCount(vs)
    ensures forall g :: g in r && g.key == Str(no) ==> g.size == FalseCount(vs)
    ensures TrueCount(vs) > 0 ==> Group(Str(yes), TrueCount(vs)) in r
    ensures FalseCount(vs) > 0 ==> Group(Str(no), FalseCount(vs)) in r
    ensures forall g :: g in r && g.key == Missing ==> g.size == NeitherCount(vs)
    ensures NeitherCount(vs) > 0 ==> Group(Missing, NeitherCount(vs)) in r
    ensures TrueCount(vs) + FalseCount(vs) + NeitherCount(vs) == |vs|
    ensures forall i, j :: 0 <= i < j < |r| ==> r[i].key != r[j].key
  {
    var ls := BoolLabels(vs, yes, no);
    LabelOccurrences(vs, yes, no);
    TallyOf(ls, Str(yes), TrueCount(vs));
    TallyOf(ls, Str(no), FalseCount(vs));
    TallyOf(ls, Missing, NeitherCount(vs));
    LabelKeys(vs, yes, no);
    Tally(ls)
  }

  /**
   * ac_dc_mix: empty when is_dc is absent or has no value; otherwise the
   * "DC (fast)" / "AC" counts of the rows (missing counted apart), adding
   * up to the number of rows.
   */
  function AcDcMix(t: Table): (r: seq<Group>)
    ensures r == [] <==> !("is_dc" in t.cols && AnyPresent(t, "is_dc"))
    ensures r != [] ==> SizeTotal(r) == |t.rows|
    ensures forall g :: g in r ==> g.key in {Str("DC (fast)"), Str("AC"), Missing}
    ensures forall g :: g in r && g.key == Str("DC (fast)") ==> g.size == TrueCount(Column(t, "is_dc"))
    ensures forall g :: g in r && g.key == Str("AC") ==> g.size == FalseCount(Column(t, "is_dc"))
    ensures forall g :: g in r && g.key == Missing ==> g.size == NeitherCount(Column(t, "is_dc"))
    ensures r != [] && TrueCount(Column(t, "is_dc")) > 0 ==> Group(Str("DC (fast)"), TrueCount(Column(t, "is_dc"))) in r
    ensures r != [] && FalseCount(Column(t, "is_dc")) > 0 ==> Group(Str("AC"), FalseCount(Column(t, "is_dc"))) in r
    ensures r != [] && NeitherCount(Column(t, "is_dc")) > 0 ==> Group(Missing, NeitherCount(Column(t, "is_dc"))) in r
    ensures forall i, j :: 0 <= i < j < |r| ==> r[i].key != r[j].key
  {
    if "is_dc" !in t.cols || !AnyPresent(t, "is_dc") then []
    else
      var r := LabelCounts(Column(t, "is_dc"), "DC (fast)", "AC");
      assert |t.rows| > 0;
      assert SizeTotal(r) > 0;
      r
  }
}
