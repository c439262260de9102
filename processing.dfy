/**
 * sections/data_processing.py: the row pipeline of the processing page.
 * The raw table gets a postal code extracted from adresse_station and a
 * departement derived from it, goes through clean_irve, and then loses the
 * rows without a postal code, the rows above 400 kW (or without a power)
 * and the rows outside the mainland bounding box.
 */
module Processing {
  import opened Text
  import opened Values
  import opened Seqs
  import opened Tables
  import opened Columns
  import Geo
  import Cleaning

  // ------------------------------------------------------ steps 2 and 3

  /** df_raw["adresse_station"].apply(extract_code_postal), one cell. */
  function PostalCodeCell(adresse: Value): (cp: Value)
    ensures cp.Missing? || (cp.Str? && |cp.s| == 5 && AllDigits(cp.s))
  {
    var code := Geo.ExtractCodePostal(adresse);
    if code.None? then Missing
    else
      Geo.ResultShape(adresse);
      Str(code.value)
  }

  /** A raw row once code_postal and departement are assigned. */
  function EnrichedRow(r: Row): Row {
    var cp := PostalCodeCell(Get(r, "adresse_station"));
    r["code_postal" := cp]["departement" := Cleaning.DeptFromCp(cp)]
  }

  /** The raw table after steps 2 and 3, row by row. */
  function Enriched(raw: Table): (e: Table)
    ensures e.cols == WithName(WithName(raw.cols, "code_postal"), "departement")
    ensures |e.rows| == |raw.rows|
    ensures forall i :: 0 <= i < |raw.rows| ==> e.rows[i] == EnrichedRow(raw.rows[i])
  {
    Table(WithName(WithName(raw.cols, "code_postal"), "departement"),
          seq(|raw.rows|, i requires 0 <= i < |raw.rows| => EnrichedRow(raw.rows[i])))
  }

  /**
   * Steps 2 and 3 on df_raw: code_postal is assigned in place, then
   * add_departement_from_cp_simple assigns departement on the same frame.
   */
  method ExtractPostalCodes(raw: Table) returns (e: Table)
    requires WF(raw) && "adresse_station" in raw.cols
    ensures e == Enriched(raw) && WF(e)
  {
    var frame := new Frame(raw);
    frame.Assign("code_postal", MapRows(frame.Snapshot(), r => PostalCodeCell(Get(r, "adresse_station"))));
    ghost var withCp := frame.Snapshot();
    var same := Cleaning.AddDepartementFromCpSimple(frame, "code_postal");
    e := same.Snapshot();
    assert "code_postal" in withCp.cols;
    forall i | 0 <= i < |raw.rows| ensures e.rows[i] == EnrichedRow(raw.rows[i]) {
      assert withCp.rows[i] == raw.rows[i]["code_postal" := PostalCodeCell(Get(raw.rows[i], "adresse_station"))];
    }
    assert e.cols == Enriched(raw).cols;
    assert e.rows == Enriched(raw).rows;
  }

  // -------------------------------------------------------- row filters

  /** dropna(subset=[c]) as a mask. */
  function HasValue(c: string): Row -> bool {
    r => !Get(r, c).Missing?
  }

  /** df["puissance_kw"] <= 400: a missing power fails the comparison. */
  function PowerAtMost400(): Row -> bool {
    r => AtMost(Get(r, "puissance_kw"), 400.0)
  }

  /** df["puissance_kw"] > 400: the rows the warning counts. */
  function PowerAbove400(): Row -> bool {
    r => Above(Get(r, "puissance_kw"), 400.0)
  }

  /** A power cell that does not compare as a number. */
  function PowerMissing(): Row -> bool {
    r => AsReal(Get(r, "puissance_kw")).None?
  }

  /** The mainland bounding box, both ends included; a missing coordinate fails it. */
  predicate InMainland(r: Row) {
    Between(Get(r, "latitude"), -22.0, 52.0) && Between(Get(r, "longitude"), -63.0, 55.0)
  }

  function MainlandMask(): Row -> bool {
    r => InMainland(r)
  }

  function OutsideMask(): Row -> bool {
    r => !InMainland(r)
  }

  predicate HasCoordinateColumns(cols: seq<string>) {
    "latitude" in cols && "longitude" in cols
  }

  /** Step 5: rows without a postal code are dropped. */
  function PostalStage(t: Table): Table {
    Filter(t, HasValue("code_postal"))
  }

  /** The power step, skipped when there is no puissance_kw column. */
  function PowerStage(t: Table): Table {
    if "puissance_kw" in t.cols then Filter(t, PowerAtMost400()) else t
  }

  /** The coordinate step, skipped unless both coordinate columns exist. */
  function GeoStage(t: Table): Table {
    if HasCoordinateColumns(t.cols) then Filter(t, MainlandMask()) else t
  }

  /** What the page reports about the three filters. */
  datatype Report = Report(removedNoPostalCode: nat, powerOutliers: Option<nat>, geoOutliers: Option<nat>,
                           mapSample: Option<nat>)

  /** The tests a cleaned row has to pass to reach the final table. */
  predicate Kept(cols: seq<string>, r: Row) {
    && HasValue("code_postal")(r)
    && ("puissance_kw" in cols ==> PowerAtMost400()(r))
    && (HasCoordinateColumns(cols) ==> InMainland(r))
  }

  /** The final table of the page, stage by stage. */
  function Filtered(t: Table): Table {
    GeoStage(PowerStage(PostalStage(t)))
  }

  /** Rows that have both coordinates (the population of the map sample). */
  function Located(t: Table): nat {
    Count(t.rows, HasBothCoordinates())
  }

  /** dropna on latitude and longitude as a mask. */
  function HasBothCoordinates(): Row -> bool {
    r => !Get(r, "latitude").Missing? && !Get(r, "longitude").Missing?
  }

  /**
   * The size of the map sample as written: min(5000, len(df_clean)), where
   * every row of df_clean counts, including rows the dropna removes.
   */
  function MapSampleAsWritten(t: Table): (n: nat)
    ensures n <= 5000 && n <= |t.rows|
    ensures n == 5000 || n == |t.rows|
  {
    if |t.rows| < 5000 then |t.rows| else 5000
  }

  /**
   * The corrected size of the map sample, drawn without replacement from
   * the rows with both coordinates: at most 5000, and never more than there are.
   */
  function MapSample(t: Table): (n: nat)
    ensures n <= 5000 && n <= Located(t)
    ensures n == 5000 || n == Located(t)
  {
    if Located(t) < 5000 then Located(t) else 5000
  }

  /**
   * The map call at data_processing.py:166 raises: the coordinate step runs
   * and the requested sample is larger than the rows left by dropna.
   */
  predicate SampleRaises(t: Table) {
    var w := PowerStage(PostalStage(t));
    HasCoordinateColumns(w.cols) && MapSampleAsWritten(w) > Located(w)
  }

  function ReportOf(t: Table): Report {
    var p := PostalStage(t);
    var w := PowerStage(p);
    Report(|t.rows| - |p.rows|,
           if "puissance_kw" in p.cols then Some(Count(p.rows, PowerAbove400())) else None,
           if HasCoordinateColumns(w.cols) then Some(Count(w.rows, OutsideMask())) else None,
           if HasCoordinateColumns(w.cols) then Some(MapSampleAsWritten(w)) else None)
  }

  /**
   * Steps 5 to 7: each filter reassigns df_clean, and each count is taken
   * on the table as the previous step left it. Nothing is produced when the
   * table has no rows (the share of removed rows divides by zero) or when
   * the map sample raises, before the coordinate filter is applied.
   */
  method FilterRows(df: Table) returns (out: Option<Table>, report: Option<Report>)
    ensures report.None? <==> |df.rows| == 0
    ensures report.Some? ==> report.value == ReportOf(df)
    ensures out.None? <==> |df.rows| == 0 || SampleRaises(df)
    ensures out.Some? ==> out.value == Filtered(df) && out.value.cols == df.cols
    ensures out.Some? ==> (WF(df) ==> WF(out.value)) && Subseq(out.value.rows, df.rows)
    ensures out.Some? ==> forall r :: r in out.value.rows <==> r in df.rows && Kept(df.cols, r)
  {
    var t := df;
    var before := |t.rows|;
    t := Filter(t, HasValue("code_postal"));
    var after := |t.rows|;
    var removed := before - after;
    if before == 0 {
      out, report := None, None;
      return;
    }
    assert t == PostalStage(df);

    var powerOutliers: Option<nat> := None;
    if "puissance_kw" in t.cols {
      powerOutliers := Some(Count(t.rows, PowerAbove400()));
      t := Filter(t, PowerAtMost400());
    }
    assert t == PowerStage(PostalStage(df));

    var geoOutliers: Option<nat> := None;
    var mapSample: Option<nat> := None;
    out := Some(t);
    if "latitude" in t.cols && "longitude" in t.cols {
      geoOutliers := Some(Count(t.rows, OutsideMask()));
      var size := MapSampleAsWritten(t);
      mapSample := Some(size);
      if size > Located(t) {
        out := None;
      } else {
        out := Some(Filter(t, MainlandMask()));
      }
    }
    FiltersOnlyDelete(df);
    FilteredExactly(df);
    report := Some(Report(removed, powerOutliers, geoOutliers, mapSample));
  }

  // ------------------------------------------------------------ findings

  /**
   * A table with one row that has a postal code and no latitude: the map
   * asks for one row out of the zero rows with both coordinates, which
   * pandas refuses (a sample without replacement larger than its population).
   */
  lemma MapSampleAsWrittenTooLarge()
    ensures var t := Table(["code_postal", "latitude", "longitude"],
                           [map["code_postal" := Str("75010"), "latitude" := Missing, "longitude" := Num(2.0)]]);
      SampleRaises(t) && MapSample(PowerStage(PostalStage(t))) == 0
  {
    var r := map["code_postal" := Str("75010"), "latitude" := Missing, "longitude" := Num(2.0)];
    var t := Table(["code_postal", "latitude", "longitude"], [r]);
    assert [r][1..] == [];
    assert Get(r, "code_postal") == Str("75010");
    assert PostalStage(t).rows == [r];
    assert PowerStage(PostalStage(t)) == PostalStage(t);
    assert Get(r, "latitude") == Missing;
  }

  /**
   * The correction changes nothing where the written code succeeds: when
   * the written size fits the located rows, both sizes agree.
   */
  lemma MapSampleCorrectsOnlyFailures(t: Table)
    ensures MapSampleAsWritten(t) <= Located(t) ==> MapSample(t) == MapSampleAsWritten(t)
    ensures MapSampleAsWritten(t) > Located(t) ==> MapSample(t) < MapSampleAsWritten(t)
  {
    WhereIsSubseq(t.rows, HasBothCoordinates());
    SubseqLength(Where(t.rows, HasBothCoordinates()), t.rows);
  }

  // -------------------------------------------------------- properties

  /** Every filter only deletes rows: the survivors keep their order, the columns stay. */
  lemma FiltersOnlyDelete(t: Table)
    ensures Filtered(t).cols == t.cols
    ensures Subseq(PostalStage(t).rows, t.rows)
    ensures Subseq(PowerStage(PostalStage(t)).rows, PostalStage(t).rows)
    ensures Subseq(Filtered(t).rows, PowerStage(PostalStage(t)).rows)
    ensures Subseq(Filtered(t).rows, t.rows)
  {
    var p := PostalStage(t);
    var w := PowerStage(p);
    var g := GeoStage(w);
    WhereIsSubseq(t.rows, HasValue("code_postal"));
    WhereIsSubseq(p.rows, PowerAtMost400());
    WhereIsSubseq(w.rows, MainlandMask());
    SubseqRefl(p.rows);
    SubseqRefl(w.rows);
    SubseqTrans(w.rows, p.rows, t.rows);
    SubseqTrans(g.rows, w.rows, t.rows);
  }

  /** After step 5 every row has a postal code, and the report counts exactly the rows dropped. */
  lemma PostalDropCounted(t: Table)
    ensures forall r :: r in PostalStage(t).rows ==> !Get(r, "code_postal").Missing?
    ensures ReportOf(t).removedNoPostalCode == Count(t.rows, r => Get(r, "code_postal").Missing?)
    ensures |PostalStage(t).rows| + ReportOf(t).removedNoPostalCode == |t.rows|
  {
    WhereSplit(t.rows, HasValue("code_postal"), r => Get(r, "code_postal").Missing?);
  }

  /**
   * The power step keeps the rows of at most 400 kW and nothing else, so it
   * also drops rows without a power; the warning counts only the rows above
   * 400 kW, so the rows dropped without being counted are the powerless ones.
   */
  lemma PowerStepAccounting(t: Table)
    requires "puissance_kw" in t.cols
    ensures forall r :: r in PowerStage(t).rows <==> r in t.rows && AtMost(Get(r, "puissance_kw"), 400.0)
    ensures |t.rows| == |PowerStage(t).rows| + Count(t.rows, PowerAbove400()) + Count(t.rows, PowerMissing())
  {
    var notKept: Row -> bool := r => !AtMost(Get(r, "puissance_kw"), 400.0);
    WhereSplit(t.rows, PowerAtMost400(), notKept);
    CountUnion(t.rows, notKept, PowerAbove400(), PowerMissing());
  }

  /** Without a puissance_kw column the power step changes nothing and reports nothing. */
  lemma PowerStepSkipped(t: Table)
    requires "puissance_kw" !in PostalStage(t).cols
    ensures PowerStage(PostalStage(t)) == PostalStage(t)
    ensures ReportOf(t).powerOutliers.None?
  {
  }

  /**
   * The coordinate step keeps the rows inside the box, both ends included,
   * and the rows it drops are exactly the outliers it reports, counted after
   * the power step: no row is counted by both steps.
   */
  lemma GeoStepAccounting(t: Table)
    requires "puissance_kw" in t.cols && HasCoordinateColumns(t.cols)
    ensures var w := PowerStage(PostalStage(t));
      && ReportOf(t).geoOutliers == Some(Count(w.rows, OutsideMask()))
      && |w.rows| == |Filtered(t).rows| + ReportOf(t).geoOutliers.value
      && forall r :: r in w.rows && !InMainland(r) ==> AtMost(Get(r, "puissance_kw"), 400.0)
  {
    var w := PowerStage(PostalStage(t));
    WhereSplit(w.rows, MainlandMask(), OutsideMask());
  }

  /** A row with a missing coordinate fails the box and is dropped. */
  lemma MissingCoordinateDropped(t: Table, r: Row)
    requires HasCoordinateColumns(t.cols)
    requires Get(r, "latitude").Missing? || Get(r, "longitude").Missing?
    ensures r !in Filtered(t).rows
  {
  }

  /**
   * Every row with a postal code is counted once: as a power outlier, as a
   * row without power, as a coordinate outlier, or as a row of the final table.
   */
  lemma EveryRowAccountedFor(t: Table)
    requires "puissance_kw" in t.cols && HasCoordinateColumns(t.cols)
    ensures |PostalStage(t).rows|
      == ReportOf(t).powerOutliers.value + Count(PostalStage(t).rows, PowerMissing())
         + ReportOf(t).geoOutliers.value + |Filtered(t).rows|
  {
    PowerStepAccounting(PostalStage(t));
    GeoStepAccounting(t);
  }

  /** The rows that reach the final table are exactly the cleaned rows passing all three tests. */
  lemma FilteredExactly(t: Table)
    ensures forall r :: r in Filtered(t).rows <==> r in t.rows && Kept(t.cols, r)
  {
  }

  // ---------------------------------------------------------- the page

  /** A listed, undropped raw column survives clean_irve, as a front column or after them. */
  lemma ListedColumnKept(p: set<string>, c: string)
    requires c in p && c in COLS && c !in Cleaning.DROPPED
    ensures c in Cleaning.OutputColumns(p)
  {
    var s := (ColSet(COLS) * p + Cleaning.DerivedColumns(p)) - Cleaning.DROPPED;
    assert c in s;
    if c !in FRONT {
      assert c in s - ColSet(FRONT);
      assert c in KeepIn(COLS, s - ColSet(FRONT));
    }
  }

  /** adresse_station survives clean_irve. */
  lemma AddressKept(p: set<string>)
    requires "adresse_station" in p
    ensures "adresse_station" in Cleaning.OutputColumns(p)
  {
    assert COLS[3] == "adresse_station";
    ListedColumnKept(p, "adresse_station");
  }

  /** The misspelt consolidated_lagitude survives clean_irve: it is listed and never dropped. */
  lemma LagitudeKept(p: set<string>)
    requires "consolidated_lagitude" in p
    ensures "consolidated_lagitude" in Cleaning.OutputColumns(p)
  {
    assert COLS[14] == "consolidated_lagitude";
    ListedColumnKept(p, "consolidated_lagitude");
  }

  /** code_postal survives clean_irve. */
  lemma PostalCodeKept(p: set<string>)
    requires "code_postal" in p
    ensures "code_postal" in Cleaning.OutputColumns(p)
  {
    assert COLS[4] == "code_postal";
    ListedColumnKept(p, "code_postal");
  }

  /** departement survives clean_irve. */
  lemma DepartementKept(p: set<string>)
    requires "departement" in p
    ensures "departement" in Cleaning.OutputColumns(p)
  {
    assert COLS[|COLS| - 1] == "departement";
    ListedColumnKept(p, "departement");
  }

  /** clean_irve copies these three columns unchanged. */
  lemma AddressCellsCopied(p: set<string>, r: Row)
    ensures Cleaning.CleanedCell(p, r, "adresse_station") == Get(r, "adresse_station")
    ensures Cleaning.CleanedCell(p, r, "code_postal") == Get(r, "code_postal")
    ensures Cleaning.CleanedCell(p, r, "departement") == Get(r, "departement")
  {
  }

  /**
   * In a row of the page's tables the postal code is the one extracted from
   * the row's own address, and the departement is derived from that code.
   */
  predicate Traced(r: Row) {
    && Get(r, "code_postal") == PostalCodeCell(Get(r, "adresse_station"))
    && Get(r, "departement") == Cleaning.DeptFromCp(Get(r, "code_postal"))
  }

  /** One cleaned row, from the enriched row er of raw row rr, is traced. */
  lemma CleanedRowTraced(p: set<string>, rr: Row, r: Row)
    requires "adresse_station" in r && r["adresse_station"] == Cleaning.CleanedCell(p, EnrichedRow(rr), "adresse_station")
    requires "code_postal" in r && r["code_postal"] == Cleaning.CleanedCell(p, EnrichedRow(rr), "code_postal")
    requires "departement" in r && r["departement"] == Cleaning.CleanedCell(p, EnrichedRow(rr), "departement")
    ensures Traced(r)
  {
    AddressCellsCopied(p, EnrichedRow(rr));
  }

  lemma CleanedRowsTraced(raw: Table, cleaned: Table)
    requires "adresse_station" in raw.cols
    requires cleaned.cols == Cleaning.OutputColumns(ColSet(Enriched(raw).cols))
    requires Cleaning.CellsCleaned(Enriched(raw), cleaned)
    ensures forall r :: r in cleaned.rows ==> Traced(r)
  {
    var e := Enriched(raw);
    var p := ColSet(e.cols);
    assert "adresse_station" in e.cols && "code_postal" in e.cols && "departement" in e.cols;
    assert "adresse_station" in p && "code_postal" in p && "departement" in p;
    AddressKept(p);
    PostalCodeKept(p);
    DepartementKept(p);
    forall i | 0 <= i < |cleaned.rows| ensures Traced(cleaned.rows[i]) {
      assert e.rows[i] == EnrichedRow(raw.rows[i]);
      CleanedRowTraced(p, raw.rows[i], cleaned.rows[i]);
    }
  }

  /** The preview df_raw[date_cols] needs both date columns. */
  predicate DatesPresent(cols: seq<string>) {
    "date_maj" in cols && "date_mise_en_service" in cols
  }

  /**
   * The processing page: the date preview, steps 2 and 3 on df_raw,
   * clean_irve, then the three filters of steps 5 to 7. Without one of the
   * two date columns the page stops at the preview, and without
   * adresse_station at step 2 (both KeyErrors). An empty table stops it at
   * step 5 (a division by zero), and a map sample larger than its
   * population at step 7, after the three counts are shown.
   */
  method Render(raw: Table) returns (df: Option<Table>, report: Option<Report>, ghost cleaned: Table)
    requires WF(raw)
    ensures !DatesPresent(raw.cols) ==> df.None? && report.None?
    ensures "adresse_station" !in raw.cols ==> df.None? && report.None?
    ensures DatesPresent(raw.cols) && "adresse_station" in raw.cols ==>
      && WF(cleaned) && cleaned.cols == Cleaning.OutputColumns(ColSet(Enriched(raw).cols))
      && Cleaning.CellsCleaned(Enriched(raw), cleaned)
      && |cleaned.rows| == |raw.rows|
      && (report.None? <==> |raw.rows| == 0)
      && (report.Some? ==> report.value == ReportOf(cleaned))
      && (df.None? <==> |raw.rows| == 0 || SampleRaises(cleaned))
    ensures df.Some? ==> df.value == Filtered(cleaned) && WF(df.value)
    ensures df.Some? ==> forall r :: r in df.value.rows ==> Traced(r) && Get(r, "code_postal").Str?
  {
    cleaned := raw;
    if !DatesPresent(raw.cols) || "adresse_station" !in raw.cols {
      df, report := None, None;
      return;
    }
    var e := ExtractPostalCodes(raw);
    var c := Cleaning.CleanIrve(e);
    cleaned := c;
    CleanedRowsTraced(raw, cleaned);
    df, report := FilterRows(c);
    if df.Some? {
      forall r | r in df.value.rows ensures Traced(r) && Get(r, "code_postal").Str? {
        assert r in cleaned.rows;
      }
    }
  }
}
