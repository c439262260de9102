/**
 * utils/prep.py: the second power classifier (categorize_power) and
 * make_tables, which narrows the cleaned table to a commune or postal-code
 * selection, adds power_cat and is_service, and aggregates it into KPI
 * counts, per-place counts, a power histogram and the map table.
 */
module Prep {
  import opened Text
  import opened Values
  import opened Seqs
  import opened Tables
  import opened Groups
  import Cleaning

  /**
   * categorize_power on a cell of the numeric power column: strict upper
   * bounds 7, 22, 50, 150 and 300; a missing cell is "inconnue".
   */
  function CategorizePower(kw: Value): (cat: string)
    ensures kw.Missing? ==> cat == "inconnue"
    ensures cat == "inconnue" <==> AsReal(kw).None?
    ensures cat == "<7 kW" <==> AsReal(kw).Some? && AsReal(kw).value < 7.0
    ensures cat == "AC 7–22" <==> AsReal(kw).Some? && 7.0 <= AsReal(kw).value < 22.0
    ensures cat == "DC 24–49" <==> AsReal(kw).Some? && 22.0 <= AsReal(kw).value < 50.0
    ensures cat == "DC 50–149" <==> AsReal(kw).Some? && 50.0 <= AsReal(kw).value < 150.0
    ensures cat == "HPC 150–299" <==> AsReal(kw).Some? && 150.0 <= AsReal(kw).value < 300.0
    ensures cat == "HPC ≥300" <==> AsReal(kw).Some? && AsReal(kw).value >= 300.0
  {
    match AsReal(kw)
    case None => "inconnue"
    case Some(x) =>
      if x < 7.0 then "<7 kW"
      else if x < 22.0 then "AC 7–22"
      else if x < 50.0 then "DC 24–49"
      else if x < 150.0 then "DC 50–149"
      else if x < 300.0 then "HPC 150–299"
      else "HPC ≥300"
  }

  /**
   * clean_irve's categorie_puissance and categorize_power disagree about
   * the slowest class exactly at 7 kW, and about the 22–50 kW class
   * exactly at 22 kW and strictly between 49 and 50 kW.
   */
  lemma TwoPowerClassifiers(x: real)
    ensures (Cleaning.PowerBin(Num(x)) == "AC_lente") != (CategorizePower(Num(x)) == "<7 kW")
      <==> x == 7.0
    ensures (Cleaning.PowerBin(Num(x)) == "DC_moyenne") != (CategorizePower(Num(x)) == "DC 24–49")
      <==> x == 22.0 || 49.0 < x < 50.0
    ensures Cleaning.PowerBin(Num(x)) == "DC_ultra" <==> CategorizePower(Num(x)) in {"DC 50–149", "HPC 150–299", "HPC ≥300"} && x > 149.0
  {
  }

  // ---------------------------------------------------------------- filters

  /** isin on the commune column: only text cells can equal a selected name. */
  function CommuneMask(communeSel: seq<string>): Row -> bool {
    r => Get(r, "consolidated_commune").Str? && Get(r, "consolidated_commune").s in communeSel
  }

  /** astype(str).isin(...) on the postal-code column. */
  function PostalMask(cpSel: seq<string>): Row -> bool {
    r => AsText(Get(r, "consolidated_code_postal")) in cpSel
  }

  /**
   * The row test the two optional filters amount to: the commune filter when
   * communes are selected and the column exists, the postal-code filter only
   * when no commune is selected.
   */
  predicate PlaceSelected(cols: seq<string>, communeSel: seq<string>, cpSel: seq<string>, r: Row) {
    && (|communeSel| > 0 && "consolidated_commune" in cols ==> CommuneMask(communeSel)(r))
    && (|communeSel| == 0 && |cpSel| > 0 && "consolidated_code_postal" in cols ==> PostalMask(cpSel)(r))
  }

  /** The table after the two optional filters. */
  function Narrowed(df: Table, communeSel: seq<string>, cpSel: seq<string>): (d: Table)
    ensures d.cols == df.cols
    ensures Subseq(d.rows, df.rows)
    ensures forall r :: r in d.rows <==> r in df.rows && PlaceSelected(df.cols, communeSel, cpSel, r)
    ensures WF(df) ==> WF(d)
  {
    var d1 := if |communeSel| > 0 && "consolidated_commune" in df.cols then Filter(df, CommuneMask(communeSel)) else df;
    WhereIsSubseq(df.rows, CommuneMask(communeSel));
    SubseqRefl(df.rows);
    if |communeSel| == 0 && |cpSel| > 0 && "consolidated_code_postal" in df.cols then
      WhereIsSubseq(df.rows, PostalMask(cpSel));
      Filter(d1, PostalMask(cpSel))
    else d1
  }

  /**
   * A non-empty commune selection decides alone: the postal-code selection
   * is ignored, even when the commune column is absent and nothing is filtered.
   */
  lemma CommuneSelectionWins(df: Table, communeSel: seq<string>, cp1: seq<string>, cp2: seq<string>)
    requires |communeSel| > 0
    ensures Narrowed(df, communeSel, cp1) == Narrowed(df, communeSel, cp2)
    ensures "consolidated_commune" !in df.cols ==> Narrowed(df, communeSel, cp1) == df
  {
  }

  /** Without any selection make_tables works on the whole table. */
  lemma NoSelectionKeepsAll(df: Table)
    ensures Narrowed(df, [], []) == df
  {
  }

  // ------------------------------------------------------ derived columns

  /** pcol: puissance_kw when the table has it, puissance_nominale otherwise. */
  function PowerColumn(cols: seq<string>): (pcol: string)
    ensures pcol == "puissance_kw" <==> "puissance_kw" in cols
    ensures pcol != "puissance_kw" ==> pcol == "puissance_nominale"
  {
    if "puissance_kw" in cols then "puissance_kw" else "puissance_nominale"
  }

  /**
   * (today - date_maj).dt.days < 90 on one cell: a missing date is NaT and
   * the comparison is false whatever the clock; otherwise the clock decides,
   * and it comes in as recent.
   */
  predicate UpdatedRecently(v: Value, recent: Value -> bool) {
    !v.Missing? && recent(v)
  }

  /**
   * is_service on one row: fiabilite_estimee lower-cased equals "haute";
   * without that column the recency test on date_maj; without either, false.
   */
  function ServiceFlag(cols: seq<string>, r: Row, recent: Value -> bool): (b: bool)
    ensures "fiabilite_estimee" in cols ==> (b <==> Lower(AsText(Get(r, "fiabilite_estimee"))) == "haute")
    ensures "fiabilite_estimee" !in cols && "date_maj" in cols ==> b == UpdatedRecently(Get(r, "date_maj"), recent)
    ensures "fiabilite_estimee" !in cols && "date_maj" !in cols ==> !b
  {
    if "fiabilite_estimee" in cols then Lower(AsText(Get(r, "fiabilite_estimee"))) == "haute"
    else if "date_maj" in cols then UpdatedRecently(Get(r, "date_maj"), recent)
    else false
  }

  /** A missing reliability reads as "nan" and never counts as in service. */
  lemma MissingReliabilityNotInService(cols: seq<string>, r: Row, recent: Value -> bool)
    requires "fiabilite_estimee" in cols && Get(r, "fiabilite_estimee").Missing?
    ensures !ServiceFlag(cols, r, recent)
  {
    assert Lower("nan")[0] == 'n';
  }

  /** Without a reliability column, a missing update date is never in service, whatever the clock says. */
  lemma MissingDateNotInService(cols: seq<string>, r: Row, recent: Value -> bool)
    requires "fiabilite_estimee" !in cols && "date_maj" in cols && Get(r, "date_maj").Missing?
    ensures !ServiceFlag(cols, r, recent)
  {
  }

  /** One row of the narrowed table once make_tables has derived its columns. */
  function PreparedRow(cols: seq<string>, r: Row, recent: Value -> bool): Row {
    var pcol := PowerColumn(cols);
    var kw := ToNumeric(Get(r, pcol));
    r[pcol := kw]["power_cat" := Str(CategorizePower(kw))]["is_service" := Flag(ServiceFlag(cols, r, recent))]
  }

  /** The table make_tables aggregates, described row by row. */
  function Prepared(df: Table, communeSel: seq<string>, cpSel: seq<string>, recent: Value -> bool): (d: Table)
    requires PowerColumn(df.cols) in df.cols
    ensures d.cols == WithName(WithName(df.cols, "power_cat"), "is_service")
    ensures |d.rows| == |Narrowed(df, communeSel, cpSel).rows| <= |df.rows|
    ensures Runnable(df.cols) ==> GeoReady(d.cols)
    ensures forall i :: 0 <= i < |d.rows| ==> d.rows[i] == PreparedRow(df.cols, Narrowed(df, communeSel, cpSel).rows[i], recent)
  {
    var n := Narrowed(df, communeSel, cpSel);
    SubseqLength(n.rows, df.rows);
    Table(WithName(WithName(df.cols, "power_cat"), "is_service"),
          seq(|n.rows|, i requires 0 <= i < |n.rows| => PreparedRow(df.cols, n.rows[i], recent)))
  }

  // ------------------------------------------------------------------ KPIs

  /** The row tests behind the means make_tables reports. */
  datatype Measure = AllRows | InService | FastDc

  predicate Holds(m: Measure, r: Row, pcol: string) {
    match m
    case AllRows => true
    case InService => Get(r, "is_service") == Flag(true)
    case FastDc => AtLeast(Get(r, pcol), 50.0)
  }

  /** Number of rows passing m (the numerator of the corresponding mean). */
  function MeasureCount(rows: seq<Row>, m: Measure, pcol: string): nat {
    Count(rows, r => Holds(m, r, pcol))
  }

  lemma {:induction false} AllRowsCount(rows: seq<Row>, pcol: string)
    ensures MeasureCount(rows, AllRows, pcol) == |rows|
  {
    WhereAll(rows, r => Holds(AllRows, r, pcol));
  }

  /**
   * The kpis dict as counts: total_points, and the numerators of
   * pct_service and pct_fast_dc (rows in service, rows of at least 50 kW).
   */
  datatype Kpis = Kpis(totalPoints: nat, servicePoints: nat, fastPoints: nat)

  function KpisOf(d: Table, pcol: string): (k: Kpis)
    ensures k.totalPoints == |d.rows|
    ensures k.servicePoints <= k.totalPoints && k.fastPoints <= k.totalPoints
    ensures k.servicePoints == MeasureCount(d.rows, InService, pcol)
    ensures k.fastPoints == MeasureCount(d.rows, FastDc, pcol)
  {
    Kpis(|d.rows|, MeasureCount(d.rows, InService, pcol), MeasureCount(d.rows, FastDc, pcol))
  }

  /** 100 * count / total, guarded to 0.0 for an empty table (rounding not modelled). */
  function Percent(count: nat, total: nat): (p: real)
    ensures total == 0 ==> p == 0.0
    ensures count <= total ==> 0.0 <= p <= 100.0
    ensures 0 < total && count == total ==> p == 100.0
    ensures 0 < total && count == 0 ==> p == 0.0
  {
    if total == 0 then 0.0 else 100.0 * (count as real) / (total as real)
  }

  // ------------------------------------------------------------- by place

  /** group_col: departement_label, then departement, each only if it has a value, then code_postal. */
  function GroupColumn(d: Table): (g: Option<string>)
    ensures g.Some? ==> g.value in d.cols
    ensures g == Some("departement_label") <==> "departement_label" in d.cols && AnyPresent(d, "departement_label")
    ensures g == Some("departement") <==>
      !("departement_label" in d.cols && AnyPresent(d, "departement_label"))
      && "departement" in d.cols && AnyPresent(d, "departement")
    ensures g == Some("code_postal") <==>
      !("departement_label" in d.cols && AnyPresent(d, "departement_label"))
      && !("departement" in d.cols && AnyPresent(d, "departement"))
      && "code_postal" in d.cols
    ensures g.None? ==> "code_postal" !in d.cols
  {
    if "departement_label" in d.cols && AnyPresent(d, "departement_label") then Some("departement_label")
    else if "departement" in d.cols && AnyPresent(d, "departement") then Some("departement")
    else if "code_postal" in d.cols then Some("code_postal")
    else None
  }

  /** Rows of group k passing m. */
  function GroupCount(rows: seq<Row>, g: string, k: Value, m: Measure, pcol: string): nat {
    Count(rows, r => Get(r, g) == k && Holds(m, r, pcol))
  }

  /** One row of by_place, with the numerators of its two percentages. */
  datatype Place = Place(place: Value, points: nat, service: nat, fast: nat)

  function Places(rows: seq<Row>, g: string, keys: seq<Value>, pcol: string): (ps: seq<Place>)
    ensures |ps| == |keys|
    ensures forall i :: 0 <= i < |keys| ==>
      ps[i] == Place(keys[i], GroupCount(rows, g, keys[i], AllRows, pcol), GroupCount(rows, g, keys[i], InService, pcol),
                     GroupCount(rows, g, keys[i], FastDc, pcol))
  {
    if |keys| == 0 then []
    else
      [Place(keys[0], GroupCount(rows, g, keys[0], AllRows, pcol), GroupCount(rows, g, keys[0], InService, pcol),
             GroupCount(rows, g, keys[0], FastDc, pcol))]
      + Places(rows, g, keys[1..], pcol)
  }

  /**
   * by_place: groupby(group_col, dropna=False), one row per distinct value
   * of the grouping column, missing included, each with the number of its
   * rows, of its rows in service and of its rows of at least 50 kW; no rows
   * without a grouping column.
   */
  function ByPlace(d: Table, pcol: string): (ps: seq<Place>)
    ensures GroupColumn(d).None? ==> ps == []
    ensures GroupColumn(d).Some? ==>
      forall i :: 0 <= i < |d.rows| ==> exists j :: 0 <= j < |ps| && ps[j].place == Get(d.rows[i], GroupColumn(d).value)
    ensures GroupColumn(d).Some? ==> forall p :: p in ps ==>
      && (exists i :: 0 <= i < |d.rows| && Get(d.rows[i], GroupColumn(d).value) == p.place)
      && p.points == GroupCount(d.rows, GroupColumn(d).value, p.place, AllRows, pcol) && p.points >= 1
      && p.service == GroupCount(d.rows, GroupColumn(d).value, p.place, InService, pcol)
      && p.fast == GroupCount(d.rows, GroupColumn(d).value, p.place, FastDc, pcol)
    ensures forall i, j :: 0 <= i < j < |ps| ==> ps[i].place != ps[j].place
  {
    match GroupColumn(d)
    case None => []
    case Some(g) =>
      var vs := Column(d, g);
      var keys := Distinct(vs);
      NoDupPairwise(keys);
      var ps := Places(d.rows, g, keys, pcol);
      assert forall i :: 0 <= i < |d.rows| ==> vs[i] in keys;
      PlacesOfPresentKeys(d, g, keys, pcol);
      ps
  }

  /** Every place built from keys of the column is held by some row, and counts its rows. */
  lemma PlacesOfPresentKeys(d: Table, g: string, keys: seq<Value>, pcol: string)
    requires forall k :: k in keys ==> k in Column(d, g)
    ensures forall p :: p in Places(d.rows, g, keys, pcol) ==>
      && (exists i :: 0 <= i < |d.rows| && Get(d.rows[i], g) == p.place)
      && p.points == GroupCount(d.rows, g, p.place, AllRows, pcol) && p.points >= 1
      && p.service == GroupCount(d.rows, g, p.place, InService, pcol)
      && p.fast == GroupCount(d.rows, g, p.place, FastDc, pcol)
  {
    var vs := Column(d, g);
    var ps := Places(d.rows, g, keys, pcol);
    forall p | p in ps
      ensures exists i :: 0 <= i < |d.rows| && Get(d.rows[i], g) == p.place
      ensures p.points >= 1
    {
      var j :| 0 <= j < |ps| && ps[j] == p;
      assert keys[j] in keys;
      var i :| 0 <= i < |vs| && vs[i] == keys[j];
      GroupCountOfMember(d.rows, g, p.place, pcol, i);
    }
  }

  /** A key held by some row has at least that row in its group. */
  lemma {:induction false} GroupCountOfMember(rows: seq<Row>, g: string, k: Value, pcol: string, i: nat)
    requires i < |rows| && Get(rows[i], g) == k
    ensures GroupCount(rows, g, k, AllRows, pcol) >= 1
  {
    if i > 0 {
      GroupCountOfMember(rows[1..], g, k, pcol, i - 1);
    }
  }

  function SumPoints(ps: seq<Place>): nat {
    if |ps| == 0 then 0 else ps[0].points + SumPoints(ps[1..])
  }

  function SumService(ps: seq<Place>): nat {
    if |ps| == 0 then 0 else ps[0].service + SumService(ps[1..])
  }

  function SumFast(ps: seq<Place>): nat {
    if |ps| == 0 then 0 else ps[0].fast + SumFast(ps[1..])
  }

  /** Sum over the keys of the per-group counts of m. */
  function GroupTotal(rows: seq<Row>, g: string, keys: seq<Value>, m: Measure, pcol: string): nat {
    if |keys| == 0 then 0 else GroupCount(rows, g, keys[0], m, pcol) + GroupTotal(rows, g, keys[1..], m, pcol)
  }

  lemma {:induction false} GroupTotalOfNoRows(rows: seq<Row>, g: string, keys: seq<Value>, m: Measure, pcol: string)
    requires |rows| == 0
    ensures GroupTotal(rows, g, keys, m, pcol) == 0
  {
    if |keys| > 0 {
      GroupTotalOfNoRows(rows, g, keys[1..], m, pcol);
    }
  }

  /** Removing the first row takes it out of the count of its own group, once per key equal to it. */
  lemma {:induction false} GroupTotalStep(rows: seq<Row>, g: string, keys: seq<Value>, m: Measure, pcol: string)
    requires |rows| > 0
    ensures GroupTotal(rows, g, keys, m, pcol)
      == (if Holds(m, rows[0], pcol) then Occurrences(keys, Get(rows[0], g)) else 0) + GroupTotal(rows[1..], g, keys, m, pcol)
  {
    if |keys| > 0 {
      GroupTotalStep(rows, g, keys[1..], m, pcol);
    }
  }

  /**
   * Grouping by distinct keys that cover every row partitions the rows:
   * the per-group counts of m add up to the count of m over the table.
   */
  lemma {:induction false} GroupTotalIsCount(rows: seq<Row>, g: string, keys: seq<Value>, m: Measure, pcol: string)
    requires NoDup(keys)
    requires forall r :: r in rows ==> Get(r, g) in keys
    ensures GroupTotal(rows, g, keys, m, pcol) == MeasureCount(rows, m, pcol)
    decreases |rows|
  {
    if |rows| == 0 {
      GroupTotalOfNoRows(rows, g, keys, m, pcol);
    } else {
      GroupTotalStep(rows, g, keys, m, pcol);
      assert rows[0] in rows;
      OccursOnce(keys, Get(rows[0], g));
      assert forall r :: r in rows[1..] ==> r in rows;
      GroupTotalIsCount(rows[1..], g, keys, m, pcol);
    }
  }

  lemma {:induction false} PlacesTotals(rows: seq<Row>, g: string, keys: seq<Value>, pcol: string)
    ensures SumPoints(Places(rows, g, keys, pcol)) == GroupTotal(rows, g, keys, AllRows, pcol)
    ensures SumService(Places(rows, g, keys, pcol)) == GroupTotal(rows, g, keys, InService, pcol)
    ensures SumFast(Places(rows, g, keys, pcol)) == GroupTotal(rows, g, keys, FastDc, pcol)
  {
    if |keys| > 0 {
      var ps := Places(rows, g, keys, pcol);
      assert ps[1..] == Places(rows, g, keys[1..], pcol);
      PlacesTotals(rows, g, keys[1..], pcol);
    }
  }

  /**
   * by_place agrees with the KPIs: its points add up to total_points, and
   * its per-place service and fast counts add up to the table-wide ones.
   */
  lemma ByPlaceMatchesKpis(d: Table, pcol: string)
    requires GroupColumn(d).Some?
    ensures SumPoints(ByPlace(d, pcol)) == KpisOf(d, pcol).totalPoints
    ensures SumService(ByPlace(d, pcol)) == KpisOf(d, pcol).servicePoints
    ensures SumFast(ByPlace(d, pcol)) == KpisOf(d, pcol).fastPoints
  {
    var g := GroupColumn(d).value;
    var col := Column(d, g);
    var keys := Distinct(col);
    forall r | r in d.rows ensures Get(r, g) in keys {
      var i :| 0 <= i < |d.rows| && d.rows[i] == r;
      assert col[i] == Get(r, g);
    }
    PlacesTotals(d.rows, g, keys, pcol);
    GroupTotalIsCount(d.rows, g, keys, AllRows, pcol);
    GroupTotalIsCount(d.rows, g, keys, InService, pcol);
    GroupTotalIsCount(d.rows, g, keys, FastDc, pcol);
    AllRowsCount(d.rows, pcol);
  }

  // ------------------------------------------------------------ power_dist

  const BIN_LABELS: seq<string> := ["<7", "7–22", "22–50", "50–150", "150–300", "≥300"]

  /** pd.cut with bins [-inf, 7, 22, 50, 150, 300, inf]: intervals closed on the right. */
  function BinOf(x: real): (b: nat)
    ensures b < |BIN_LABELS|
    ensures b == 0 <==> x <= 7.0
    ensures b == 1 <==> 7.0 < x <= 22.0
    ensures b == 2 <==> 22.0 < x <= 50.0
    ensures b == 3 <==> 50.0 < x <= 150.0
    ensures b == 4 <==> 150.0 < x <= 300.0
    ensures b == 5 <==> 300.0 < x
  {
    if x <= 7.0 then 0
    else if x <= 22.0 then 1
    else if x <= 50.0 then 2
    else if x <= 150.0 then 3
    else if x <= 300.0 then 4
    else 5
  }

  /**
   * The histogram bins and categorize_power's classes cover the same
   * ranges except for their boundary values, which fall in the lower bin
   * but in the upper class.
   */
  lemma BinsAndClassesDisagreeOnBounds(x: real)
    ensures (BinOf(x) == 0) != (CategorizePower(Num(x)) == "<7 kW") <==> x == 7.0
    ensures (BinOf(x) == 1) != (CategorizePower(Num(x)) == "AC 7–22") <==> x == 7.0 || x == 22.0
    ensures (BinOf(x) == 5) != (CategorizePower(Num(x)) == "HPC ≥300") <==> x == 300.0
  {
  }

  predicate InBin(v: Value, b: nat) {
    v.Num? && BinOf(v.x) == b
  }

  function BinCount(rows: seq<Row>, pcol: string, b: nat): nat {
    Count(rows, r => InBin(Get(r, pcol), b))
  }

  /** Rows with a power value; pd.cut leaves the others out of every bin. */
  function PoweredCount(rows: seq<Row>, pcol: string): nat {
    Count(rows, r => Get(r, pcol).Num?)
  }

  datatype Bin = Bin(interval: string, count: nat)

  /** power_dist: one count per bin, empty bins included, in bin order. */
  function PowerDist(rows: seq<Row>, pcol: string): (bins: seq<Bin>)
    ensures |bins| == |BIN_LABELS|
    ensures forall b :: 0 <= b < |bins| ==> bins[b] == Bin(BIN_LABELS[b], BinCount(rows, pcol, b))
  {
    [Bin(BIN_LABELS[0], BinCount(rows, pcol, 0)), Bin(BIN_LABELS[1], BinCount(rows, pcol, 1)),
     Bin(BIN_LABELS[2], BinCount(rows, pcol, 2)), Bin(BIN_LABELS[3], BinCount(rows, pcol, 3)),
     Bin(BIN_LABELS[4], BinCount(rows, pcol, 4)), Bin(BIN_LABELS[5], BinCount(rows, pcol, 5))]
  }

  function SumCounts(bins: seq<Bin>): nat {
    if |bins| == 0 then 0 else bins[0].count + SumCounts(bins[1..])
  }

  function SixBins(rows: seq<Row>, pcol: string): nat {
    BinCount(rows, pcol, 0) + BinCount(rows, pcol, 1) + BinCount(rows, pcol, 2)
      + BinCount(rows, pcol, 3) + BinCount(rows, pcol, 4) + BinCount(rows, pcol, 5)
  }

  /** Every row with a power value falls in exactly one bin. */
  lemma {:induction false} SixBinsArePowered(rows: seq<Row>, pcol: string)
    ensures SixBins(rows, pcol) == PoweredCount(rows, pcol)
  {
    if |rows| > 0 {
      SixBinsArePowered(rows[1..], pcol);
    }
  }

  lemma SumOfDist(rows: seq<Row>, pcol: string)
    ensures SumCounts(PowerDist(rows, pcol)) == SixBins(rows, pcol)
  {
    var bins := PowerDist(rows, pcol);
    assert SumCounts(bins[5..]) == BinCount(rows, pcol, 5) by {
      assert bins[5..][1..] == [];
    }
    assert SumCounts(bins[4..]) == BinCount(rows, pcol, 4) + SumCounts(bins[5..]) by {
      assert bins[4..][1..] == bins[5..];
    }
    assert SumCounts(bins[3..]) == BinCount(rows, pcol, 3) + SumCounts(bins[4..]) by {
      assert bins[3..][1..] == bins[4..];
    }
    assert SumCounts(bins[2..]) == BinCount(rows, pcol, 2) + SumCounts(bins[3..]) by {
      assert bins[2..][1..] == bins[3..];
    }
    assert SumCounts(bins[1..]) == BinCount(rows, pcol, 1) + SumCounts(bins[2..]) by {
      assert bins[1..][1..] == bins[2..];
    }
  }

  /** The histogram counts add up to the number of rows with a power value. */
  lemma PowerDistCoversPowered(rows: seq<Row>, pcol: string)
    ensures SumCounts(PowerDist(rows, pcol)) == PoweredCount(rows, pcol)
  {
    SumOfDist(rows, pcol);
    SixBinsArePowered(rows, pcol);
  }

  // ------------------------------------------------------------------- geo

  function LatColumn(cols: seq<string>): string {
    if "lat" in cols then "lat" else "consolidated_latitude"
  }

  function LonColumn(cols: seq<string>): string {
    if "lon" in cols then "lon" else "consolidated_longitude"
  }

  function ServiceColumn(cols: seq<string>): string {
    if "fiabilite_estimee" in cols then "fiabilite_estimee" else "is_service"
  }

  function PlaceColumn(cols: seq<string>): string {
    if "consolidated_commune" in cols then "consolidated_commune" else "consolidated_code_postal"
  }

  /** The columns geo selects all exist (pandas raises KeyError otherwise). */
  predicate GeoReady(cols: seq<string>) {
    && LatColumn(cols) in cols && LonColumn(cols) in cols && PowerColumn(cols) in cols
    && "power_cat" in cols && ServiceColumn(cols) in cols && "nom_operateur" in cols && PlaceColumn(cols) in cols
  }

  /** Both coordinates present (dropna(subset=[latcol, loncol])). */
  function LocatedMask(cols: seq<string>): Row -> bool {
    r => !Get(r, LatColumn(cols)).Missing? && !Get(r, LonColumn(cols)).Missing?
  }

  function GeoColumns(cols: seq<string>): seq<string> {
    ["lat", "lon", "puissance_kw", "power_cat", ServiceColumn(cols), "nom_operateur", PlaceColumn(cols)]
  }

  /** One map row: the selected cells, with the coordinate and power columns renamed. */
  function GeoRow(cols: seq<string>, r: Row): Row {
    map["puissance_kw" := Get(r, PowerColumn(cols)), "power_cat" := Get(r, "power_cat"),
        ServiceColumn(cols) := Get(r, ServiceColumn(cols)), "nom_operateur" := Get(r, "nom_operateur"),
        PlaceColumn(cols) := Get(r, PlaceColumn(cols)),
        "lat" := Get(r, LatColumn(cols)), "lon" := Get(r, LonColumn(cols))]
  }

  lemma GeoColumnSet(cols: seq<string>)
    ensures ColSet(GeoColumns(cols))
      == {"puissance_kw", "power_cat", ServiceColumn(cols), "nom_operateur", PlaceColumn(cols), "lat", "lon"}
  {
    var c := GeoColumns(cols);
    forall x ensures x in ColSet(c) <==> x in {"puissance_kw", "power_cat", ServiceColumn(cols), "nom_operateur", PlaceColumn(cols), "lat", "lon"} {
      assert x in c <==> x == c[0] || x == c[1] || x == c[2] || x == c[3] || x == c[4] || x == c[5] || x == c[6];
    }
  }

  /** A map row has exactly the map columns, and its coordinates are the row's. */
  lemma GeoRowShape(cols: seq<string>, r: Row)
    ensures GeoRow(cols, r).Keys == ColSet(GeoColumns(cols))
    ensures GeoRow(cols, r)["lat"] == Get(r, LatColumn(cols))
    ensures GeoRow(cols, r)["lon"] == Get(r, LonColumn(cols))
  {
    GeoColumnSet(cols);
    GeoRowKeys(cols, r);
    assert "lat" != "lon";
  }

  lemma GeoRowKeys(cols: seq<string>, r: Row)
    ensures GeoRow(cols, r).Keys
      == {"puissance_kw", "power_cat", ServiceColumn(cols), "nom_operateur", PlaceColumn(cols), "lat", "lon"}
  {
  }

  /** geo: the rows with both coordinates, projected onto the map columns. */
  function Geo(d: Table): (g: Table)
    requires GeoReady(d.cols)
    ensures g.cols == GeoColumns(d.cols) && NoDup(g.cols)
    ensures |g.rows| == Count(d.rows, LocatedMask(d.cols))
    ensures forall o: Row :: o in g.rows <==> exists r :: r in d.rows && LocatedMask(d.cols)(r) && o == GeoRow(d.cols, r)
    ensures forall o: Row :: o in g.rows ==> o.Keys == ColSet(g.cols)
    ensures forall o: Row :: o in g.rows ==> !o["lat"].Missing? && !o["lon"].Missing?
  {
    var kept := Where(d.rows, LocatedMask(d.cols));
    var rows := seq(|kept|, i requires 0 <= i < |kept| => GeoRow(d.cols, kept[i]));
    forall o | o in rows
      ensures exists r :: r in kept && o == GeoRow(d.cols, r)
      ensures o.Keys == ColSet(GeoColumns(d.cols)) && !o["lat"].Missing? && !o["lon"].Missing?
    {
      var i :| 0 <= i < |kept| && rows[i] == o;
      GeoRowShape(d.cols, kept[i]);
    }
    forall r | r in kept ensures GeoRow(d.cols, r) in rows {
      var i :| 0 <= i < |kept| && kept[i] == r;
      assert rows[i] == GeoRow(d.cols, r);
    }
    GeoColumnsDistinct(d.cols);
    Table(GeoColumns(d.cols), rows)
  }

  lemma GeoColumnsDistinct(cols: seq<string>)
    ensures NoDup(GeoColumns(cols))
  {
    var c := GeoColumns(cols);
    NoDupPairwise(c);
  }

  // ----------------------------------------------------------- make_tables

  /** The four results of make_tables. */
  datatype Output = Output(kpis: Kpis, byPlace: seq<Place>, powerDist: seq<Bin>, geo: Table)

  /** The columns make_tables reads all exist (pandas raises KeyError otherwise). */
  predicate Runnable(cols: seq<string>) {
    && PowerColumn(cols) in cols
    && LatColumn(cols) in cols && LonColumn(cols) in cols
    && "nom_operateur" in cols && PlaceColumn(cols) in cols
  }

  function Summarize(d: Table, pcol: string): Output
    requires GeoReady(d.cols)
  {
    Output(KpisOf(d, pcol), ByPlace(d, pcol), PowerDist(d.rows, pcol), Geo(d))
  }

  /** The two optional filters of make_tables, each reassigning the table. */
  method Narrow(df: Table, communeSel: seq<string>, cpSel: seq<string>) returns (d: Table)
    ensures d == Narrowed(df, communeSel, cpSel)
  {
    d := df;
    if |communeSel| > 0 && "consolidated_commune" in d.cols {
      d := Filter(d, CommuneMask(communeSel));
    }
    if |communeSel| == 0 && |cpSel| > 0 && "consolidated_code_postal" in d.cols {
      d := Filter(d, PostalMask(cpSel));
    }
  }

  /** The three column assignments of make_tables, on one row. */
  lemma DerivedRow(cols: seq<string>, r: Row, recent: Value -> bool)
    ensures var pcol := PowerColumn(cols);
      var r1 := r[pcol := ToNumeric(Get(r, pcol))];
      var r2 := r1["power_cat" := Str(CategorizePower(Get(r1, pcol)))];
      var service :=
        if "fiabilite_estimee" in cols then Lower(AsText(Get(r2, "fiabilite_estimee"))) == "haute"
        else if "date_maj" in cols then UpdatedRecently(Get(r2, "date_maj"), recent)
        else false;
      r2["is_service" := Flag(service)] == PreparedRow(cols, r, recent)
  {
    var pcol := PowerColumn(cols);
    var kw := ToNumeric(Get(r, pcol));
    var r1 := r[pcol := kw];
    var r2 := r1["power_cat" := Str(CategorizePower(kw))];
    assert Get(r1, pcol) == kw;
    assert |"fiabilite_estimee"| != |pcol| && |"fiabilite_estimee"| != |"power_cat"|;
    assert |"date_maj"| != |pcol| && |"date_maj"| != |"power_cat"|;
    assert Get(r2, "fiabilite_estimee") == Get(r, "fiabilite_estimee");
    assert Get(r2, "date_maj") == Get(r, "date_maj");
  }

  /** pd.to_numeric on pcol, then power_cat, then is_service. */
  method Derive(n: Table, recent: Value -> bool) returns (d: Table)
    requires PowerColumn(n.cols) in n.cols
    ensures d.cols == WithName(WithName(n.cols, "power_cat"), "is_service")
    ensures |d.rows| == |n.rows|
    ensures forall i :: 0 <= i < |n.rows| ==> d.rows[i] == PreparedRow(n.cols, n.rows[i], recent)
  {
    var pcol := PowerColumn(n.cols);
    d := WithColumn(n, pcol, r => ToNumeric(Get(r, pcol)));
    ghost var d1 := d;
    d := WithColumn(d, "power_cat", r => Str(CategorizePower(Get(r, pcol))));
    ghost var d2 := d;
    assert "fiabilite_estimee" in d.cols <==> "fiabilite_estimee" in n.cols;
    assert "date_maj" in d.cols <==> "date_maj" in n.cols;
    if "fiabilite_estimee" in d.cols {
      d := WithColumn(d, "is_service", r => Flag(Lower(AsText(Get(r, "fiabilite_estimee"))) == "haute"));
    } else if "date_maj" in d.cols {
      d := WithColumn(d, "is_service", r => Flag(UpdatedRecently(Get(r, "date_maj"), recent)));
    } else {
      d := SetColumn(d, "is_service", Repeat(Flag(false), |d.rows|));
    }
    forall i | 0 <= i < |n.rows| ensures d.rows[i] == PreparedRow(n.cols, n.rows[i], recent) {
      DerivedRow(n.cols, n.rows[i], recent);
      assert d1.rows[i] == n.rows[i][pcol := ToNumeric(Get(n.rows[i], pcol))];
      assert d2.rows[i] == d1.rows[i]["power_cat" := Str(CategorizePower(Get(d1.rows[i], pcol)))];
    }
  }

  /**
   * make_tables: narrows the table, converts the power column, adds
   * power_cat and is_service, then aggregates.
   */
  method MakeTables(df: Table, communeSel: seq<string>, cpSel: seq<string>, recent: Value -> bool)
    returns (out: Output)
    requires Runnable(df.cols)
    ensures out == Summarize(Prepared(df, communeSel, cpSel, recent), PowerColumn(df.cols))
  {
    var d := Narrow(df, communeSel, cpSel);
    var pcol := PowerColumn(d.cols);
    d := Derive(d, recent);
    ghost var spec := Prepared(df, communeSel, cpSel, recent);
    assert d.rows == spec.rows;
    out := Output(KpisOf(d, pcol), ByPlace(d, pcol), PowerDist(d.rows, pcol), Geo(d));
  }
}
