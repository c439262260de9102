/**
 * utils/cleaning.py: postal code and department extraction, and clean_irve,
 * which keeps the useful columns, consolidates coordinates, derives power,
 * AC/DC, 24/7, public-access and status columns, then drops and reorders.
 */
module Cleaning {
  import opened Text
  import opened Values
  import opened Seqs
  import opened Tables
  import Geo
  import opened Columns

  /** extract_code_postal of utils/cleaning.py: the same scan as utils/geo.py. */
  function ExtractCodePostal(adresse: Value): (r: Option<string>)
    ensures r == Geo.ExtractCodePostal(adresse)
  {
    if adresse.Missing? then None else Geo.PostalCodeIn(AsText(adresse))
  }

  // ---------------------------------------------------------------------------
  // Department from postal code
  // ---------------------------------------------------------------------------

  /** str.extract(r"^(\d{2})") on the text of a postal-code cell. */
  function DeptFromCp(cp: Value): Value {
    var s := AsText(cp);
    if |s| >= 2 && IsDigit(s[0]) && IsDigit(s[1]) then Str(s[..2]) else Missing
  }

  /** A department is the two leading digits of the code's text, and missing exactly when there are none. */
  lemma DeptShape(cp: Value)
    ensures DeptFromCp(cp).Str? ==> |DeptFromCp(cp).s| == 2 && AllDigits(DeptFromCp(cp).s) && DeptFromCp(cp).s <= AsText(cp)
    ensures DeptFromCp(cp).Missing? <==> !(|AsText(cp)| >= 2 && IsDigit(AsText(cp)[0]) && IsDigit(AsText(cp)[1]))
  {
  }

  /** The derivation is naive: Corsica's 2A and 2B never come out of it. */
  lemma DeptNeverCorsican(cp: Value)
    ensures DeptFromCp(cp) != Str("2A") && DeptFromCp(cp) != Str("2B")
  {
    if DeptFromCp(cp).Str? {
      assert IsDigit(DeptFromCp(cp).s[1]);
    }
  }

  /** An extracted postal code yields its first two digits. */
  lemma DeptOfExtractedCode(adresse: Value)
    requires ExtractCodePostal(adresse).Some?
    ensures DeptFromCp(FromOption(ExtractCodePostal(adresse))) == Str(ExtractCodePostal(adresse).value[..2])
  {
    Geo.ResultShape(adresse);
  }

  /** A row whose address had no postal code gets no department. */
  lemma {:induction false} DeptOfNoCode(adresse: Value)
    requires ExtractCodePostal(adresse).None?
    ensures DeptFromCp(FromOption(ExtractCodePostal(adresse))).Missing?
  {
    assert AsText(Missing) == "nan";
    assert !IsDigit('n');
  }

  /**
   * add_departement_from_cp_simple: assigns df["departement"] on the
   * caller's frame and returns that same frame.
   */
  method AddDepartementFromCpSimple(df: Frame, cpCol: string) returns (r: Frame)
    modifies df
    ensures r == df
    ensures df.Snapshot() == SetColumn(old(df.Snapshot()), "departement",
      if cpCol in old(df.cols) then MapRows(old(df.Snapshot()), row => DeptFromCp(Get(row, cpCol)))
      else Repeat(Missing, |old(df.rows)|))
  {
    if cpCol in df.cols {
      df.Assign("departement", MapRows(df.Snapshot(), row => DeptFromCp(Get(row, cpCol))));
    } else {
      df.Assign("departement", Repeat(Missing, |df.rows|));
    }
    r := df;
  }

  // ---------------------------------------------------------------------------
  // Field rules of clean_irve
  // ---------------------------------------------------------------------------

  /** pd.to_numeric(errors="coerce").clip(lower=0) on one cell. */
  function PowerKw(nominale: Value): (kw: Numeric)
    ensures kw.Missing? <==> ToNumeric(nominale).Missing?
    ensures kw.Num? ==> kw.x >= 0.0
    ensures kw.Num? && ToNumeric(nominale).x >= 0.0 ==> kw == ToNumeric(nominale)
    ensures kw.Num? && ToNumeric(nominale).x < 0.0 ==> kw.x == 0.0
  {
    match ToNumeric(nominale)
    case Missing => Missing
    case Num(x) => Num(if x < 0.0 then 0.0 else x)
  }

  /**
   * The _bin helper of clean_irve, applied to the numeric puissance_kw
   * column: inclusive upper bounds 7, 22, 49 and 149.
   */
  function PowerBin(kw: Value): (tag: string)
    ensures tag == "inconnu" <==> !kw.Num?
    ensures tag == "AC_lente" <==> kw.Num? && kw.x <= 7.0
    ensures tag == "AC_standard" <==> kw.Num? && 7.0 < kw.x <= 22.0
    ensures tag == "DC_moyenne" <==> kw.Num? && 22.0 < kw.x <= 49.0
    ensures tag == "DC_rapide" <==> kw.Num? && 49.0 < kw.x <= 149.0
    ensures tag == "DC_ultra" <==> kw.Num? && kw.x > 149.0
  {
    if !kw.Num? then "inconnu"
    else if kw.x <= 7.0 then "AC_lente"
    else if kw.x <= 22.0 then "AC_standard"
    else if kw.x <= 49.0 then "DC_moyenne"
    else if kw.x <= 149.0 then "DC_rapide"
    else "DC_ultra"
  }

  const DC_WORDS: seq<string> := ["dc", "ccs", "combo", "chademo"]

  /**
   * str.contains("DC|CCS|Combo|CHAdeMO", case=False, na=False): only text
   * cells can match; any other cell gives false.
   */
  predicate ConnectorIsDc(connecteur: Value) {
    connecteur.Str? && ContainsAny(Lower(connecteur.s), DC_WORDS)
  }

  const ALWAYS_OPEN_WORDS: seq<string> := ["24/7", "24h", "24 h", "24 heures"]

  /** The 24/7 rule on the lower-cased text of horaires. */
  predicate AlwaysOpen(horaires: Value) {
    ContainsAny(Lower(AsText(horaires)), ALWAYS_OPEN_WORDS)
  }

  const PUBLIC_WORDS: seq<string> := ["public", "libre acc\U{00E8}s", "libre acces"]

  /** The public-access rule on accessibilite + " " + conditions_acces, lower-cased. */
  predicate IsPublic(accessibilite: string, conditions: string) {
    ContainsAny(Lower(accessibilite + " " + conditions), PUBLIC_WORDS)
  }

  const EN_SERVICE_WORDS: seq<string> := ["en service", "disponible", "op\U{00E9}ration", "operation"]
  const HORS_SERVICE_WORDS: seq<string> := ["hors service", "panne", "indisponible"]

  /**
   * The np.select of utils/cleaning.py:118-126 as written: the first group
   * whose keywords occur in the lower-cased status decides.
   */
  function StatutAsWritten(s: string): (tag: string)
    ensures tag == "en_service" <==> ContainsAny(s, EN_SERVICE_WORDS)
    ensures tag == "hors_service" <==> !ContainsAny(s, EN_SERVICE_WORDS) && ContainsAny(s, HORS_SERVICE_WORDS)
    ensures tag == "maintenance" <==>
      !ContainsAny(s, EN_SERVICE_WORDS) && !ContainsAny(s, HORS_SERVICE_WORDS) && Contains(s, "maintenance")
    ensures tag == "inconnu" <==>
      !ContainsAny(s, EN_SERVICE_WORDS) && !ContainsAny(s, HORS_SERVICE_WORDS) && !Contains(s, "maintenance")
  {
    if ContainsAny(s, EN_SERVICE_WORDS) then "en_service"
    else if ContainsAny(s, HORS_SERVICE_WORDS) then "hors_service"
    else if Contains(s, "maintenance") then "maintenance"
    else "inconnu"
  }

  /** Every occurrence of "indisponible" carries an occurrence of "disponible". */
  lemma IndisponibleHasDisponible(s: string)
    requires Contains(s, "indisponible")
    ensures ContainsAny(s, EN_SERVICE_WORDS)
  {
    ContainsTail(s, "indisponible", 2);
    assert "indisponible"[2..] == "disponible";
    assert Contains(s, EN_SERVICE_WORDS[1]);
  }

  /**
   * As written, the keyword "indisponible" never yields hors_service: any
   * status containing it is classified en_service.
   */
  lemma IndisponibleClassifiedInService(s: string)
    requires Contains(s, "indisponible")
    ensures StatutAsWritten(s) == "en_service"
  {
    IndisponibleHasDisponible(s);
  }

  /** The status text "indisponible" as the source maps it. */
  lemma IndisponibleExample()
    ensures StatutAsWritten("indisponible") == "en_service"
  {
    var s := "indisponible";
    assert "indisponible" <= s[0..];
    IndisponibleClassifiedInService(s);
  }

  /**
   * The evidently intended mapping: an unavailable point is out of service;
   * every other status is mapped as written.
   */
  function StatutNormalise(s: string): (tag: string)
    ensures Contains(s, "indisponible") ==> tag == "hors_service"
    ensures !Contains(s, "indisponible") ==> tag == StatutAsWritten(s)
    ensures tag in {"en_service", "hors_service", "maintenance", "inconnu"}
  {
    if Contains(s, "indisponible") then "hors_service" else StatutAsWritten(s)
  }

  /** The corrected mapping differs from the written one exactly on statuses containing "indisponible". */
  lemma StatutCorrectionIsLocal(s: string)
    ensures StatutNormalise(s) != StatutAsWritten(s) <==> Contains(s, "indisponible")
  {
    if Contains(s, "indisponible") {
      IndisponibleClassifiedInService(s);
    }
  }

  /** With the correction, every keyword group decides some status. */
  lemma StatutGroupsReachable()
    ensures StatutNormalise("indisponible") == "hors_service"
    ensures StatutNormalise("panne") == "hors_service"
    ensures StatutNormalise("en service") == "en_service"
  {
    assert "indisponible" <= "indisponible"[0..];
    var p := "panne";
    assert HORS_SERVICE_WORDS[1] <= p[0..];
    assert !Contains(p, "indisponible");
    forall k | 0 <= k < |EN_SERVICE_WORDS| ensures !Contains(p, EN_SERVICE_WORDS[k]) {
    }
    var e := "en service";
    assert EN_SERVICE_WORDS[0] <= e[0..];
    assert !Contains(e, "indisponible");
  }

  // ---------------------------------------------------------------------------
  // The output of clean_irve, column by column
  // ---------------------------------------------------------------------------

  /** The source column of the status: etat_pdc when it exists, else statut_pdc. */
  function StatutSource(p: set<string>): string {
    if "etat_pdc" in p then "etat_pdc" else "statut_pdc"
  }

  /** astype(str) of a column, or the empty string when the column is absent. */
  function TextOr(p: set<string>, r: Row, c: string): string {
    if c in p then AsText(Get(r, c)) else ""
  }

  /** to_numeric(v).fillna(to_numeric(fallback)): the consolidation of one coordinate cell. */
  function FillCoord(v: Value, fallback: Value): (r: Numeric)
    ensures ToNumeric(v).Num? ==> r == ToNumeric(v)
    ensures ToNumeric(v).Missing? ==> r == ToNumeric(fallback)
  {
    FillNa(ToNumeric(v), ToNumeric(fallback))
  }

  function Longitude(p: set<string>, r: Row): Value {
    if "consolidated_longitude" in p
    then FillCoord(Get(r, "longitude"), Get(r, "consolidated_longitude"))
    else Get(r, "longitude")
  }

  /** The latitude after the consolidated_latitude step. */
  function LatitudeFirstPass(p: set<string>, r: Row): Value {
    if "consolidated_latitude" in p
    then FillCoord(Get(r, "latitude"), Get(r, "consolidated_latitude"))
    else Get(r, "latitude")
  }

  /** The latitude after both consolidation steps, the misspelt column last. */
  function Latitude(p: set<string>, r: Row): Value {
    if "consolidated_lagitude" in p
    then FillCoord(LatitudeFirstPass(p, r), Get(r, "consolidated_lagitude"))
    else LatitudeFirstPass(p, r)
  }

  /** The AC/DC rule: the connector text when that column exists, else power of at least 24 kW. */
  predicate IsDc(p: set<string>, r: Row) {
    if "connecteur" in p then ConnectorIsDc(Get(r, "connecteur"))
    else AtLeast(PowerKw(Get(r, "puissance_nominale")), 24.0)
  }

  /** A parseable primary coordinate is never overwritten; a consolidated column only fills a gap. */
  lemma LongitudeConsolidated(p: set<string>, r: Row)
    requires "consolidated_longitude" in p
    ensures ToNumeric(Get(r, "longitude")).Num? ==> Longitude(p, r) == ToNumeric(Get(r, "longitude"))
    ensures ToNumeric(Get(r, "longitude")).Missing? ==> Longitude(p, r) == ToNumeric(Get(r, "consolidated_longitude"))
  {
  }

  /**
   * The latitude: the primary value when it parses, else consolidated_latitude
   * when that column exists and parses, else consolidated_lagitude.
   */
  lemma LatitudeConsolidated(p: set<string>, r: Row)
    requires "consolidated_latitude" in p || "consolidated_lagitude" in p
    ensures ToNumeric(Get(r, "latitude")).Num? ==> Latitude(p, r) == ToNumeric(Get(r, "latitude"))
    ensures ToNumeric(Get(r, "latitude")).Missing? && "consolidated_latitude" in p
      && ToNumeric(Get(r, "consolidated_latitude")).Num?
      ==> Latitude(p, r) == ToNumeric(Get(r, "consolidated_latitude"))
    ensures ToNumeric(Get(r, "latitude")).Missing? && "consolidated_lagitude" in p
      && !("consolidated_latitude" in p && ToNumeric(Get(r, "consolidated_latitude")).Num?)
      ==> Latitude(p, r) == ToNumeric(Get(r, "consolidated_lagitude"))
  {
    var first := LatitudeFirstPass(p, r);
    var lat := ToNumeric(Get(r, "latitude"));
    if lat.Num? {
      assert ToNumeric(first) == lat;
    } else if "consolidated_latitude" in p {
      assert first == ToNumeric(Get(r, "consolidated_latitude"));
      assert ToNumeric(first) == first;
    } else {
      assert ToNumeric(first) == lat;
    }
  }

  /**
   * The AC/DC rule: with a connecteur column only its text decides (a
   * missing cell gives false); without it, a clipped power of at least 24 kW.
   */
  lemma DcRule(p: set<string>, r: Row)
    ensures "connecteur" in p ==>
      (IsDc(p, r) <==> Get(r, "connecteur").Str? && ContainsAny(Lower(Get(r, "connecteur").s), DC_WORDS))
    ensures "connecteur" !in p ==>
      (IsDc(p, r) <==> PowerKw(Get(r, "puissance_nominale")).Num? && PowerKw(Get(r, "puissance_nominale")).x >= 24.0)
  {
  }

  /** A combined-charging connector counts as DC, a missing connector cell does not. */
  lemma ConnectorExamples()
    ensures ConnectorIsDc(Str("CCS"))
    ensures !ConnectorIsDc(Missing)
  {
    assert Lower("CCS") == "ccs";
    assert "ccs" <= Lower("CCS")[0..];
    assert Contains(Lower("CCS"), DC_WORDS[1]);
  }

  /** "24h/24" counts as always open; "8h" does not. */
  lemma AlwaysOpenExamples()
    ensures AlwaysOpen(Str("24h/24"))
    ensures !AlwaysOpen(Str("8h"))
  {
    assert Lower("24h/24") == "24h/24";
    assert "24h" <= Lower("24h/24")[0..];
    assert Contains(Lower("24h/24"), ALWAYS_OPEN_WORDS[1]);
    assert Lower("8h") == "8h";
    forall k | 0 <= k < |ALWAYS_OPEN_WORDS| ensures !Contains("8h", ALWAYS_OPEN_WORDS[k]) {
      if Contains("8h", ALWAYS_OPEN_WORDS[k]) {
        ContainsChars("8h", ALWAYS_OPEN_WORDS[k]);
        assert false;
      }
    }
  }

  /** "Accès public" is public whatever the access conditions say. */
  lemma PublicExample(conditions: string)
    ensures IsPublic("public", conditions)
  {
    var t := Lower("public" + " " + conditions);
    assert t[..6] == Lower("public") == "public";
    assert "public" <= t[0..];
    assert Contains(t, PUBLIC_WORDS[0]);
  }

  /**
   * The value clean_irve leaves in column c of the row that came from raw
   * row r, where p is the set of raw column names.
   */
  function CleanedCell(p: set<string>, r: Row, c: string): Value {
    if c == "longitude" then Longitude(p, r)
    else if c == "latitude" then Latitude(p, r)
    else if c == "puissance_kw" then PowerKw(Get(r, "puissance_nominale"))
    else if c == "categorie_puissance" then Str(PowerBin(PowerKw(Get(r, "puissance_nominale"))))
    else if c == "is_dc" then Flag(IsDc(p, r))
    else if c == "access_24_7" then Flag("horaires" in p && AlwaysOpen(Get(r, "horaires")))
    else if c == "est_publique" then Flag(IsPublic(TextOr(p, r, "accessibilite"), TextOr(p, r, "conditions_acces")))
    else if c == "statut_normalise" then Str(StatutAsWritten(Lower(AsText(Get(r, StatutSource(p))))))
    else Get(r, c)
  }

  /** Coordinates created by the consolidation steps when they did not exist. */
  function CoordinateColumns(p: set<string>): set<string> {
    (if "consolidated_longitude" in p then {"longitude"} else {})
    + (if "consolidated_latitude" in p || "consolidated_lagitude" in p then {"latitude"} else {})
  }

  /** Power and its category. */
  function PowerColumns(p: set<string>): set<string> {
    if "puissance_nominale" in p then {"puissance_kw", "categorie_puissance"} else {}
  }

  /** The AC/DC flag. */
  function DcColumns(p: set<string>): set<string> {
    if "connecteur" in p || "puissance_nominale" in p then {"is_dc"} else {}
  }

  function StatusColumns(p: set<string>): set<string> {
    if "etat_pdc" in p || "statut_pdc" in p then {"statut_normalise"} else {}
  }

  /** The derived columns clean_irve creates, given the raw columns p, step by step. */
  function DerivedColumns(p: set<string>): set<string> {
    CoordinateColumns(p) + PowerColumns(p) + DcColumns(p) + {"access_24_7"} + {"est_publique"} + StatusColumns(p)
  }

  const DROPPED: set<string> := {"code_insee_commune", "consolidated_latitude", "consolidated_longitude"}

  /** The front columns in their listed order, then the others in their listed order. */
  function OutputColumns(p: set<string>): seq<string> {
    Reordered(COLS, FRONT, p)
  }

  // ---------------------------------------------------------------------------
  // Facts about the column lists
  // ---------------------------------------------------------------------------

  /** Every derived column is a front column, and no dropped column is. */
  lemma FrontFacts(p: set<string>)
    ensures forall c :: c in DerivedColumns(p) ==> c in FRONT
  {
  }

  // ---------------------------------------------------------------------------
  // clean_irve, step by step
  // ---------------------------------------------------------------------------

  /** The names in cols are exactly those of s. */
  ghost predicate ColumnsAre(cols: seq<string>, s: set<string>) {
    forall c :: c in cols <==> c in s
  }

  /** after is before with the names of added appended (those not already there), and nothing else. */
  ghost predicate Extends(before: seq<string>, after: seq<string>, added: set<string>) {
    && before <= after
    && (forall k :: |before| <= k < |after| ==> after[k] in added)
    && (forall c :: c in after <==> c in before || c in added)
  }

  lemma ExtendsTrans(a: seq<string>, b: seq<string>, c: seq<string>, x: set<string>, y: set<string>)
    requires Extends(a, b, x) && Extends(b, c, y)
    ensures Extends(a, c, x + y)
  {
    forall k | |a| <= k < |c| ensures c[k] in x + y {
      if k < |b| {
        assert c[k] == b[k];
      }
    }
  }

  // Each step on one row, where p is the set of raw column names.

  /** Step 2 for one coordinate: filled from its consolidated column when that column exists. */
  function FillRow(p: set<string>, r: Row, target: string, fallback: string): Row {
    if fallback in p then r[target := FillCoord(Get(r, target), Get(r, fallback))] else r
  }

  /** Step 2: longitude, then latitude from consolidated_latitude, then from consolidated_lagitude. */
  function ConsolidateRow(p: set<string>, r: Row): Row {
    var r1 := FillRow(p, r, "longitude", "consolidated_longitude");
    var r2 := FillRow(p, r1, "latitude", "consolidated_latitude");
    FillRow(p, r2, "latitude", "consolidated_lagitude")
  }

  /** Step 3: the clipped power and its category. */
  function PowerRow(p: set<string>, r: Row): Row {
    if "puissance_nominale" in p then
      var kw := PowerKw(Get(r, "puissance_nominale"));
      r["puissance_kw" := kw]["categorie_puissance" := Str(PowerBin(kw))]
    else r
  }

  /** Step 4: the connector rule, else the power rule on puissance_kw. */
  function DcRow(p: set<string>, r: Row): Row {
    if "connecteur" in p then r["is_dc" := Flag(ConnectorIsDc(Get(r, "connecteur")))]
    else if "puissance_nominale" in p then r["is_dc" := Flag(AtLeast(Get(r, "puissance_kw"), 24.0))]
    else r
  }

  /** Step 5. */
  function AlwaysOpenRow(p: set<string>, r: Row): Row {
    r["access_24_7" := Flag("horaires" in p && AlwaysOpen(Get(r, "horaires")))]
  }

  /** Step 6. */
  function PublicRow(p: set<string>, r: Row): Row {
    r["est_publique" := Flag(IsPublic(TextOr(p, r, "accessibilite"), TextOr(p, r, "conditions_acces")))]
  }

  /** Step 7. */
  function StatusRow(p: set<string>, r: Row): Row {
    if "etat_pdc" in p || "statut_pdc" in p
    then r["statut_normalise" := Str(StatutAsWritten(Lower(AsText(Get(r, StatutSource(p))))))]
    else r
  }

  /** Steps 2 to 7 on one row. */
  function DeriveRow(p: set<string>, r: Row): Row {
    StatusRow(p, PublicRow(p, AlwaysOpenRow(p, DcRow(p, PowerRow(p, ConsolidateRow(p, r))))))
  }

  /**
   * The columns kept by step 1 as far as the derivations care: a subset of
   * the raw ones that holds every source column present and none of the
   * computed ones.
   */
  ghost predicate KeptSet(k: set<string>, p: set<string>) {
    && (forall c :: c in k ==> c in p)
    && (forall c :: c in SOURCE_NAMES && c in p ==> c in k)
    && (forall c :: c in COMPUTED_NAMES ==> c !in k)
  }

  /** What step 1 keeps, for a list holding every source column and no computed one. */
  lemma KeptByStepOne(listed: seq<string>, p: set<string>)
    requires forall c :: c in SOURCE_NAMES ==> c in listed
    requires forall c :: c in COMPUTED_NAMES ==> c !in listed
    ensures KeptSet(ColSet(KeepIn(listed, p)), p)
    ensures SourcesPresent(KeepIn(listed, p), p) && NoneComputed(KeepIn(listed, p))
  {
  }

  /** A source column reads the same after step 1 as in the raw row. */
  lemma KeptCell(p: set<string>, r: Row, k: set<string>, c: string)
    requires r.Keys == p && KeptSet(k, p)
    requires c in SOURCE_NAMES
    ensures Get(Pick(r, k), c) == Get(r, c)
  {
  }

  // Each step leaves alone every column it does not compute.

  lemma ConsolidateKeeps(p: set<string>, m: Row, c: string)
    requires c != "longitude" && c != "latitude"
    ensures Get(ConsolidateRow(p, m), c) == Get(m, c)
  {
  }

  lemma PowerKeeps(p: set<string>, m: Row, c: string)
    requires c != "puissance_kw" && c != "categorie_puissance"
    ensures Get(PowerRow(p, m), c) == Get(m, c)
  {
  }

  lemma DcKeeps(p: set<string>, m: Row, c: string)
    requires c != "is_dc"
    ensures Get(DcRow(p, m), c) == Get(m, c)
  {
  }

  lemma AlwaysOpenKeeps(p: set<string>, m: Row, c: string)
    requires c != "access_24_7"
    ensures Get(AlwaysOpenRow(p, m), c) == Get(m, c)
  {
  }

  lemma PublicKeeps(p: set<string>, m: Row, c: string)
    requires c != "est_publique"
    ensures Get(PublicRow(p, m), c) == Get(m, c)
  {
  }

  lemma StatusKeeps(p: set<string>, m: Row, c: string)
    requires c != "statut_normalise"
    ensures Get(StatusRow(p, m), c) == Get(m, c)
  {
  }

  /** Steps 3 to 7 leave a column none of them computes as step 2 left it. */
  lemma LaterStepsKeep(p: set<string>, m: Row, c: string)
    requires c != "puissance_kw" && c != "categorie_puissance" && c != "is_dc"
    requires c != "access_24_7" && c != "est_publique" && c != "statut_normalise"
    ensures Get(DeriveRow(p, m), c) == Get(ConsolidateRow(p, m), c)
  {
    var r2 := ConsolidateRow(p, m);
    var r3 := PowerRow(p, r2);
    var r4 := DcRow(p, r3);
    var r5 := AlwaysOpenRow(p, r4);
    var r6 := PublicRow(p, r5);
    PowerKeeps(p, r2, c);
    DcKeeps(p, r3, c);
    AlwaysOpenKeeps(p, r4, c);
    PublicKeeps(p, r5, c);
    StatusKeeps(p, r6, c);
  }

  /** Steps 2 to 7 leave the longitude of Longitude. */
  lemma LongitudeOfRow(p: set<string>, r: Row, k: set<string>)
    requires r.Keys == p && KeptSet(k, p)
    ensures Get(DeriveRow(p, Pick(r, k)), "longitude") == Longitude(p, r)
  {
    var m := Pick(r, k);
    LaterStepsKeep(p, m, "longitude");
    KeptCell(p, r, k, "longitude");
    KeptCell(p, r, k, "consolidated_longitude");
    var r1 := FillRow(p, m, "longitude", "consolidated_longitude");
    assert Get(r1, "longitude") == Longitude(p, r);
  }

  /** Steps 2 to 7 leave the latitude of Latitude. */
  lemma LatitudeOfRow(p: set<string>, r: Row, k: set<string>)
    requires r.Keys == p && KeptSet(k, p)
    ensures Get(DeriveRow(p, Pick(r, k)), "latitude") == Latitude(p, r)
  {
    var m := Pick(r, k);
    LaterStepsKeep(p, m, "latitude");
    KeptCell(p, r, k, "latitude");
    KeptCell(p, r, k, "consolidated_latitude");
    KeptCell(p, r, k, "consolidated_lagitude");
    var r1 := FillRow(p, m, "longitude", "consolidated_longitude");
    assert Get(r1, "latitude") == Get(r, "latitude");
    assert Get(r1, "consolidated_latitude") == Get(r, "consolidated_latitude");
    assert Get(r1, "consolidated_lagitude") == Get(r, "consolidated_lagitude");
    var r2 := FillRow(p, r1, "latitude", "consolidated_latitude");
    assert Get(r2, "latitude") == LatitudeFirstPass(p, r);
    assert Get(r2, "consolidated_lagitude") == Get(r, "consolidated_lagitude");
  }

  /** Steps 3 to 7 leave the power columns of PowerKw and PowerBin when puissance_nominale exists. */
  lemma PowerOfRow(p: set<string>, r: Row, k: set<string>)
    requires r.Keys == p && KeptSet(k, p)
    ensures "puissance_nominale" in p ==>
      && Get(DeriveRow(p, Pick(r, k)), "puissance_kw") == PowerKw(Get(r, "puissance_nominale"))
      && Get(DeriveRow(p, Pick(r, k)), "categorie_puissance") == Str(PowerBin(PowerKw(Get(r, "puissance_nominale"))))
  {
    var m := Pick(r, k);
    var r2 := ConsolidateRow(p, m);
    var r3 := PowerRow(p, r2);
    var r4 := DcRow(p, r3);
    var r5 := AlwaysOpenRow(p, r4);
    var r6 := PublicRow(p, r5);
    KeptCell(p, r, k, "puissance_nominale");
    ConsolidateKeeps(p, m, "puissance_nominale");
    forall c | c == "puissance_kw" || c == "categorie_puissance"
      ensures Get(DeriveRow(p, m), c) == Get(r3, c)
    {
      DcKeeps(p, r3, c);
      AlwaysOpenKeeps(p, r4, c);
      PublicKeeps(p, r5, c);
      StatusKeeps(p, r6, c);
    }
  }

  /** Steps 4 to 7 leave is_dc of IsDc. */
  lemma DcOfRow(p: set<string>, r: Row, k: set<string>)
    requires r.Keys == p && KeptSet(k, p)
    ensures "connecteur" in p || "puissance_nominale" in p ==>
      Get(DeriveRow(p, Pick(r, k)), "is_dc") == Flag(IsDc(p, r))
  {
    var m := Pick(r, k);
    var r2 := ConsolidateRow(p, m);
    var r3 := PowerRow(p, r2);
    var r4 := DcRow(p, r3);
    var r5 := AlwaysOpenRow(p, r4);
    var r6 := PublicRow(p, r5);
    AlwaysOpenKeeps(p, r4, "is_dc");
    PublicKeeps(p, r5, "is_dc");
    StatusKeeps(p, r6, "is_dc");
    KeptCell(p, r, k, "connecteur");
    ConsolidateKeeps(p, m, "connecteur");
    PowerKeeps(p, r2, "connecteur");
    PowerOfRow(p, r, k);
    if "puissance_nominale" in p {
      KeptCell(p, r, k, "puissance_nominale");
      ConsolidateKeeps(p, m, "puissance_nominale");
    }
  }

  /** Steps 5 to 7 leave access_24_7 of AlwaysOpen. */
  lemma AlwaysOpenOfRow(p: set<string>, r: Row, k: set<string>)
    requires r.Keys == p && KeptSet(k, p)
    ensures Get(DeriveRow(p, Pick(r, k)), "access_24_7") == Flag("horaires" in p && AlwaysOpen(Get(r, "horaires")))
  {
    var m := Pick(r, k);
    var r2 := ConsolidateRow(p, m);
    var r3 := PowerRow(p, r2);
    var r4 := DcRow(p, r3);
    var r5 := AlwaysOpenRow(p, r4);
    var r6 := PublicRow(p, r5);
    KeptCell(p, r, k, "horaires");
    ConsolidateKeeps(p, m, "horaires");
    PowerKeeps(p, r2, "horaires");
    DcKeeps(p, r3, "horaires");
    PublicKeeps(p, r5, "access_24_7");
    StatusKeeps(p, r6, "access_24_7");
  }

  /** Steps 6 and 7 leave est_publique of IsPublic. */
  lemma PublicOfRow(p: set<string>, r: Row, k: set<string>)
    requires r.Keys == p && KeptSet(k, p)
    ensures Get(DeriveRow(p, Pick(r, k)), "est_publique") ==
      Flag(IsPublic(TextOr(p, r, "accessibilite"), TextOr(p, r, "conditions_acces")))
  {
    var m := Pick(r, k);
    var r2 := ConsolidateRow(p, m);
    var r3 := PowerRow(p, r2);
    var r4 := DcRow(p, r3);
    var r5 := AlwaysOpenRow(p, r4);
    var r6 := PublicRow(p, r5);
    forall c | c == "accessibilite" || c == "conditions_acces" ensures Get(r5, c) == Get(r, c) {
      KeptCell(p, r, k, c);
      ConsolidateKeeps(p, m, c);
      PowerKeeps(p, r2, c);
      DcKeeps(p, r3, c);
      AlwaysOpenKeeps(p, r4, c);
    }
    assert TextOr(p, r5, "accessibilite") == TextOr(p, r, "accessibilite");
    assert TextOr(p, r5, "conditions_acces") == TextOr(p, r, "conditions_acces");
    StatusKeeps(p, r6, "est_publique");
  }

  /** Step 7 leaves statut_normalise of StatutAsWritten when a status column exists. */
  lemma StatusOfRow(p: set<string>, r: Row, k: set<string>)
    requires r.Keys == p && KeptSet(k, p)
    ensures "etat_pdc" in p || "statut_pdc" in p ==>
      Get(DeriveRow(p, Pick(r, k)), "statut_normalise") == Str(StatutAsWritten(Lower(AsText(Get(r, StatutSource(p))))))
  {
    var m := Pick(r, k);
    var r2 := ConsolidateRow(p, m);
    var r3 := PowerRow(p, r2);
    var r4 := DcRow(p, r3);
    var r5 := AlwaysOpenRow(p, r4);
    var c := StatutSource(p);
    KeptCell(p, r, k, c);
    ConsolidateKeeps(p, m, c);
    PowerKeeps(p, r2, c);
    DcKeeps(p, r3, c);
    AlwaysOpenKeeps(p, r4, c);
    PublicKeeps(p, r5, c);
  }

  /**
   * The cleaned status of a point whose status text mentions "indisponible"
   * is en_service, as the written np.select decides.
   */
  lemma UnavailableRowInService(p: set<string>, r: Row, k: set<string>)
    requires r.Keys == p && KeptSet(k, p)
    requires "etat_pdc" in p || "statut_pdc" in p
    requires Contains(Lower(AsText(Get(r, StatutSource(p)))), "indisponible")
    ensures Get(DeriveRow(p, Pick(r, k)), "statut_normalise") == Str("en_service")
  {
    StatusOfRow(p, r, k);
    IndisponibleClassifiedInService(Lower(AsText(Get(r, StatutSource(p)))));
  }

  /** A kept column clean_irve does not compute keeps its raw cell. */
  lemma CopiedOfRow(p: set<string>, r: Row, k: set<string>, c: string)
    requires c in k && c !in DERIVED_NAMES
    ensures Get(DeriveRow(p, Pick(r, k)), c) == Get(r, c)
  {
    var m := Pick(r, k);
    LaterStepsKeep(p, m, c);
    ConsolidateKeeps(p, m, c);
  }

  /**
   * Every column left after steps 2 to 7 holds the value CleanedCell
   * prescribes: the independent, column-by-column account of clean_irve.
   */
  lemma DeriveRowIsCleaned(p: set<string>, r: Row, k: set<string>, c: string)
    requires r.Keys == p && KeptSet(k, p)
    requires c in k || c in DerivedColumns(p)
    ensures Get(DeriveRow(p, Pick(r, k)), c) == CleanedCell(p, r, c)
  {
    if c == "longitude" || c == "latitude" {
      CoordinateCellIsCleaned(p, r, k, c);
    } else if c == "puissance_kw" || c == "categorie_puissance" {
      PowerCellIsCleaned(p, r, k, c);
    } else {
      FlagCellIsCleaned(p, r, k, c);
    }
  }

  lemma CoordinateCellIsCleaned(p: set<string>, r: Row, k: set<string>, c: string)
    requires r.Keys == p && KeptSet(k, p)
    requires c == "longitude" || c == "latitude"
    ensures Get(DeriveRow(p, Pick(r, k)), c) == CleanedCell(p, r, c)
  {
    if c == "longitude" {
      LongitudeOfRow(p, r, k);
    } else {
      LatitudeOfRow(p, r, k);
    }
  }

  lemma PowerCellIsCleaned(p: set<string>, r: Row, k: set<string>, c: string)
    requires r.Keys == p && KeptSet(k, p)
    requires c in k || c in DerivedColumns(p)
    requires c == "puissance_kw" || c == "categorie_puissance"
    ensures Get(DeriveRow(p, Pick(r, k)), c) == CleanedCell(p, r, c)
  {
    assert c !in k by {
      assert c in COMPUTED_NAMES;
    }
    PowerNeedsNominal(p, c);
    PowerOfRow(p, r, k);
  }

  /** Only a nominal power column gives the power columns. */
  lemma PowerNeedsNominal(p: set<string>, c: string)
    requires c in DerivedColumns(p)
    requires c == "puissance_kw" || c == "categorie_puissance"
    ensures "puissance_nominale" in p
  {
    assert c !in CoordinateColumns(p) && c !in DcColumns(p) && c !in StatusColumns(p);
    assert c != "access_24_7" && c != "est_publique";
  }

  /** The flags, the status and the copied columns. */
  lemma FlagCellIsCleaned(p: set<string>, r: Row, k: set<string>, c: string)
    requires r.Keys == p && KeptSet(k, p)
    requires c in k || c in DerivedColumns(p)
    requires c != "longitude" && c != "latitude" && c != "puissance_kw" && c != "categorie_puissance"
    ensures Get(DeriveRow(p, Pick(r, k)), c) == CleanedCell(p, r, c)
  {
    if c == "is_dc" {
      DcOfRow(p, r, k);
    } else if c == "access_24_7" {
      AlwaysOpenOfRow(p, r, k);
    } else if c == "est_publique" {
      PublicOfRow(p, r, k);
    } else if c == "statut_normalise" {
      StatusOfRow(p, r, k);
    } else {
      CopiedOfRow(p, r, k, c);
    }
  }

  // The steps on the whole table.

  /** Every source column other than the coordinates exists in cols exactly when it exists in the raw file. */
  ghost predicate SourcesPresent(cols: seq<string>, p: set<string>) {
    forall c :: c in SOURCE_NAMES && c != "latitude" && c != "longitude" ==> (c in cols <==> c in p)
  }

  /** None of the columns clean_irve computes exists yet. */
  ghost predicate NoneComputed(cols: seq<string>) {
    forall c :: c in COMPUTED_NAMES ==> c !in cols
  }

  /** A step that only adds columns outside the sources keeps SourcesPresent. */
  lemma SourcesKept(before: seq<string>, after: seq<string>, added: set<string>, p: set<string>)
    requires SourcesPresent(before, p) && Extends(before, after, added)
    requires forall c :: c in added ==> c in DERIVED_NAMES
    ensures SourcesPresent(after, p)
  {
  }


  /**
   * df[target] = to_numeric(df[target]) (or NaN when absent), then
   * df[target] = df[target].fillna(to_numeric(df[fallback])).
   */
  method FillCoordinate(df: Table, target: string, fallback: string) returns (out: Table)
    requires WF(df) && target != fallback
    ensures WF(out) && |out.rows| == |df.rows|
    ensures out.cols == if target in df.cols then df.cols else df.cols + [target]
    ensures forall i :: 0 <= i < |df.rows| ==>
      out.rows[i] == df.rows[i][target := FillCoord(Get(df.rows[i], target), Get(df.rows[i], fallback))]
  {
    if target in df.cols {
      out := WithColumn(df, target, r => ToNumeric(Get(r, target)));
    } else {
      out := SetColumn(df, target, Repeat(Missing, |df.rows|));
    }
    assert forall i :: 0 <= i < |df.rows| ==> out.rows[i] == df.rows[i][target := ToNumeric(Get(df.rows[i], target))];
    ghost var mid := out;
    out := WithColumn(out, target, r => FillNa(Get(r, target), ToNumeric(Get(r, fallback))));
    forall i | 0 <= i < |df.rows|
      ensures out.rows[i] == df.rows[i][target := FillCoord(Get(df.rows[i], target), Get(df.rows[i], fallback))]
    {
      Overwrite(df.rows[i], target, ToNumeric(Get(df.rows[i], target)), FillCoord(Get(df.rows[i], target), Get(df.rows[i], fallback)));
    }
  }

  /** Step 1: df[[c for c in listed if c in df.columns]]. */
  method KeepUseful(raw: Table, listed: seq<string>) returns (df: Table)
    requires WF(raw) && NoDup(listed)
    ensures WF(df) && |df.rows| == |raw.rows|
    ensures df.cols == KeepIn(listed, ColSet(raw.cols))
    ensures forall i :: 0 <= i < |df.rows| ==> df.rows[i] == Pick(raw.rows[i], ColSet(df.cols))
  {
    var present := KeepIn(listed, ColSet(raw.cols));
    KeepInNoDup(listed, ColSet(raw.cols));
    df := Select(raw, present);
  }

  /** One consolidation of step 2: the target filled from the fallback column when that column exists. */
  method FillIfPresent(df: Table, target: string, fallback: string, ghost p: set<string>) returns (out: Table)
    requires WF(df) && (target == "longitude" || target == "latitude") && fallback != target
    requires fallback in df.cols <==> fallback in p
    requires SourcesPresent(df.cols, p) && NoneComputed(df.cols)
    ensures WF(out) && |out.rows| == |df.rows|
    ensures Extends(df.cols, out.cols, if fallback in p then {target} else {})
    ensures SourcesPresent(out.cols, p) && NoneComputed(out.cols)
    ensures forall i :: 0 <= i < |df.rows| ==> out.rows[i] == FillRow(p, df.rows[i], target, fallback)
  {
    out := df;
    if fallback in df.cols {
      out := FillCoordinate(df, target, fallback);
    }
  }

  /** Step 2 on the table. */
  method ConsolidateCoordinates(df: Table, ghost p: set<string>) returns (out: Table)
    requires WF(df)
    requires SourcesPresent(df.cols, p) && NoneComputed(df.cols)
    ensures WF(out) && |out.rows| == |df.rows|
    ensures Extends(df.cols, out.cols, CoordinateColumns(p))
    ensures SourcesPresent(out.cols, p) && NoneComputed(out.cols)
    ensures forall i :: 0 <= i < |df.rows| ==> out.rows[i] == ConsolidateRow(p, df.rows[i])
  {
    assert "consolidated_longitude" in SOURCE_NAMES && "consolidated_latitude" in SOURCE_NAMES;
    assert "consolidated_lagitude" in SOURCE_NAMES;
    var d1 := FillIfPresent(df, "longitude", "consolidated_longitude", p);
    var d2 := FillIfPresent(d1, "latitude", "consolidated_latitude", p);
    ghost var a := if "consolidated_longitude" in p then {"longitude"} else {};
    ghost var b := if "consolidated_latitude" in p then {"latitude"} else {};
    ghost var c := if "consolidated_lagitude" in p then {"latitude"} else {};
    ExtendsTrans(df.cols, d1.cols, d2.cols, a, b);
    out := FillIfPresent(d2, "latitude", "consolidated_lagitude", p);
    ExtendsTrans(df.cols, d2.cols, out.cols, a + b, c);
    CoordinateColumnsParts(p);
  }

  /** The three fills together add CoordinateColumns(p). */
  lemma CoordinateColumnsParts(p: set<string>)
    ensures (if "consolidated_longitude" in p then {"longitude"} else {})
      + (if "consolidated_latitude" in p then {"latitude"} else {})
      + (if "consolidated_lagitude" in p then {"latitude"} else {})
      == CoordinateColumns(p)
  {
  }

  /** Step 3 on the table. */
  method DerivePower(df: Table, ghost p: set<string>) returns (out: Table)
    requires WF(df)
    requires SourcesPresent(df.cols, p) && NoneComputed(df.cols)
    ensures WF(out) && |out.rows| == |df.rows|
    ensures Extends(df.cols, out.cols, PowerColumns(p))
    ensures SourcesPresent(out.cols, p)
    ensures "puissance_kw" in out.cols <==> "puissance_nominale" in p
    ensures forall i :: 0 <= i < |df.rows| ==> out.rows[i] == PowerRow(p, df.rows[i])
  {
    out := df;
    if "puissance_nominale" in df.cols {
      out := WithColumn(out, "puissance_kw", r => PowerKw(Get(r, "puissance_nominale")));
      out := WithColumn(out, "categorie_puissance", r => Str(PowerBin(Get(r, "puissance_kw"))));
    }
  }

  /** Step 4 on the table. */
  method DeriveDc(df: Table, ghost p: set<string>) returns (out: Table)
    requires WF(df)
    requires SourcesPresent(df.cols, p)
    requires "puissance_kw" in df.cols <==> "puissance_nominale" in p
    ensures WF(out) && |out.rows| == |df.rows|
    ensures Extends(df.cols, out.cols, DcColumns(p))
    ensures SourcesPresent(out.cols, p)
    ensures forall i :: 0 <= i < |df.rows| ==> out.rows[i] == DcRow(p, df.rows[i])
  {
    out := df;
    if "connecteur" in df.cols {
      out := WithColumn(df, "is_dc", r => Flag(ConnectorIsDc(Get(r, "connecteur"))));
    } else if "puissance_kw" in df.cols {
      out := WithColumn(df, "is_dc", r => Flag(AtLeast(Get(r, "puissance_kw"), 24.0)));
    }
  }

  /** Step 5 on the table. */
  method DeriveAlwaysOpen(df: Table, ghost p: set<string>) returns (out: Table)
    requires WF(df)
    requires SourcesPresent(df.cols, p)
    ensures WF(out) && |out.rows| == |df.rows|
    ensures Extends(df.cols, out.cols, {"access_24_7"})
    ensures SourcesPresent(out.cols, p)
    ensures forall i :: 0 <= i < |df.rows| ==> out.rows[i] == AlwaysOpenRow(p, df.rows[i])
  {
    if "horaires" in df.cols {
      out := WithColumn(df, "access_24_7", r => Flag(AlwaysOpen(Get(r, "horaires"))));
    } else {
      // the scalar False broadcast to every row
      out := SetColumn(df, "access_24_7", Repeat(Flag(false), |df.rows|));
    }
  }

  /** Step 6 on the table. */
  method DerivePublic(df: Table, ghost p: set<string>) returns (out: Table)
    requires WF(df)
    requires SourcesPresent(df.cols, p)
    ensures WF(out) && |out.rows| == |df.rows|
    ensures Extends(df.cols, out.cols, {"est_publique"})
    ensures SourcesPresent(out.cols, p)
    ensures forall i :: 0 <= i < |df.rows| ==> out.rows[i] == PublicRow(p, df.rows[i])
  {
    var a := "accessibilite" in df.cols;
    var c := "conditions_acces" in df.cols;
    out := WithColumn(df, "est_publique", r =>
      Flag(IsPublic(if a then AsText(Get(r, "accessibilite")) else "",
                    if c then AsText(Get(r, "conditions_acces")) else "")));
  }

  /** Step 7 on the table. */
  method DeriveStatus(df: Table, ghost p: set<string>) returns (out: Table)
    requires WF(df)
    requires SourcesPresent(df.cols, p)
    ensures WF(out) && |out.rows| == |df.rows|
    ensures Extends(df.cols, out.cols, StatusColumns(p))
    ensures forall i :: 0 <= i < |df.rows| ==> out.rows[i] == StatusRow(p, df.rows[i])
  {
    out := df;
    if "etat_pdc" in df.cols || "statut_pdc" in df.cols {
      var src := if "etat_pdc" in df.cols then "etat_pdc" else "statut_pdc";
      out := WithColumn(df, "statut_normalise", r => Str(StatutAsWritten(Lower(AsText(Get(r, src))))));
    }
  }

  /** Steps 2 to 7: the coordinates filled, then the power, AC/DC, access, public and status columns. */
  method DeriveColumns(df: Table, ghost p: set<string>) returns (out: Table)
    requires WF(df)
    requires SourcesPresent(df.cols, p) && NoneComputed(df.cols)
    ensures WF(out) && |out.rows| == |df.rows|
    ensures Extends(df.cols, out.cols, DerivedColumns(p))
    ensures forall i :: 0 <= i < |df.rows| ==> out.rows[i] == DeriveRow(p, df.rows[i])
  {
    var d1 := ConsolidateCoordinates(df, p);
    var d2 := DerivePower(d1, p);
    ExtendsTrans(df.cols, d1.cols, d2.cols, CoordinateColumns(p), PowerColumns(p));
    var d3 := DeriveDc(d2, p);
    ExtendsTrans(df.cols, d2.cols, d3.cols, CoordinateColumns(p) + PowerColumns(p), DcColumns(p));
    var d4 := DeriveAlwaysOpen(d3, p);
    ExtendsTrans(df.cols, d3.cols, d4.cols, CoordinateColumns(p) + PowerColumns(p) + DcColumns(p), {"access_24_7"});
    var d5 := DerivePublic(d4, p);
    ExtendsTrans(df.cols, d4.cols, d5.cols, CoordinateColumns(p) + PowerColumns(p) + DcColumns(p) + {"access_24_7"}, {"est_publique"});
    out := DeriveStatus(d5, p);
    ExtendsTrans(df.cols, d5.cols, out.cols, CoordinateColumns(p) + PowerColumns(p) + DcColumns(p) + {"access_24_7"} + {"est_publique"}, StatusColumns(p));
  }

  /** The front columns in the order of front, then the others in the order of listed. */
  function Reordered(listed: seq<string>, front: seq<string>, p: set<string>): seq<string> {
    var s := (ColSet(listed) * p + DerivedColumns(p)) - DROPPED;
    KeepIn(front, s) + KeepIn(listed, s - ColSet(front))
  }

  /**
   * The column order of steps 8 and 9 and the final drops, for any columns
   * c1 made of a listed part followed by front columns: the front columns
   * that survive the drops, in front order, then the listed part's
   * survivors that are not front columns, in their order.
   */
  lemma {:induction false} DropMoveDrop(c1: seq<string>, present: seq<string>, front: seq<string>,
                                        x: string, y1: string, y2: string)
    requires present <= c1
    requires forall k :: |present| <= k < |c1| ==> c1[k] in front
    ensures var c2 := ColSet(c1) - {x};
      var order := KeepIn(front, c2) + KeepIn(KeepIn(c1, c2), c2 - ColSet(front));
      var d1 := KeepIn(order, ColSet(order) - {y1});
      KeepIn(d1, ColSet(d1) - {y2}) == KeepIn(front, c2 - {y1} - {y2}) + KeepIn(present, c2 - {y1} - {y2} - ColSet(front))
  {
    var ext := c1[|present|..];
    assert c1 == present + ext;
    var f := ColSet(front);
    var c2 := ColSet(c1) - {x};
    var z := c2 - {y1} - {y2};
    var cols2 := KeepIn(c1, c2);
    var order := KeepIn(front, c2) + KeepIn(cols2, c2 - f);
    assert ColSet(order) == c2;
    var d1 := KeepIn(order, c2 - {y1});
    assert ColSet(d1) == c2 - {y1};
    KeepInKeepIn(order, c2 - {y1}, ColSet(d1) - {y2});
    KeepInSame(order, (c2 - {y1}) * (ColSet(d1) - {y2}), z);
    KeepInAppend(KeepIn(front, c2), KeepIn(cols2, c2 - f), z);
    KeepInKeepIn(front, c2, z);
    KeepInSame(front, c2 * z, z);
    KeepInKeepIn(cols2, c2 - f, z);
    KeepInKeepIn(c1, c2, (c2 - f) * z);
    KeepInSame(c1, c2 * ((c2 - f) * z), z - f);
    KeepInAppend(present, ext, z - f);
    KeepInNone(ext, z - f);
  }

  /** With the columns clean_irve has before step 8, DropMoveDrop's order is Reordered. */
  lemma ReorderedColumns(listed: seq<string>, front: seq<string>, p: set<string>, c1: seq<string>)
    requires ColumnsAre(c1, ColSet(listed) * p + DerivedColumns(p))
    requires forall c :: c in DerivedColumns(p) ==> c in front
    ensures var z := ColSet(c1) - {"code_insee_commune"} - {"consolidated_latitude"} - {"consolidated_longitude"};
      KeepIn(front, z) + KeepIn(KeepIn(listed, p), z - ColSet(front)) == Reordered(listed, front, p)
  {
    var z := ColSet(c1) - {"code_insee_commune"} - {"consolidated_latitude"} - {"consolidated_longitude"};
    var s := (ColSet(listed) * p + DerivedColumns(p)) - DROPPED;
    assert z == s;
    KeepInKeepIn(listed, p, z - ColSet(front));
    KeepInSame(listed, p * (z - ColSet(front)), s - ColSet(front));
  }


  /**
   * df has a row for every raw row, and each of its cells holds the value
   * CleanedCell prescribes for that column of the raw row.
   */
  ghost predicate CellsCleaned(raw: Table, df: Table) {
    && |df.rows| == |raw.rows|
    && forall i, c :: 0 <= i < |df.rows| && c in df.cols ==>
      c in df.rows[i] && df.rows[i][c] == CleanedCell(ColSet(raw.cols), raw.rows[i], c)
  }

  /** Row i of d6 is steps 2 to 7 applied to raw row i as step 1 left it. */
  ghost predicate RowsDerived(raw: Table, d6: Table, p: set<string>, k: set<string>) {
    && |d6.rows| == |raw.rows|
    && forall i :: 0 <= i < |raw.rows| ==> d6.rows[i] == DeriveRow(p, Pick(raw.rows[i], k))
  }

  /** Every cell of out is the cell of the same row and column of df. */
  ghost predicate CellsCopied(df: Table, out: Table) {
    && |out.rows| == |df.rows|
    && forall i, c :: 0 <= i < |out.rows| && c in out.cols ==> c in out.rows[i] && out.rows[i][c] == Get(df.rows[i], c)
  }

  /** Every column of cols was kept by step 1 (k) or derived by steps 2 to 7. */
  ghost predicate KeptOrDerived(cols: seq<string>, k: set<string>, p: set<string>) {
    forall c :: c in cols ==> c in k || c in DerivedColumns(p)
  }

  /** Every reordered column was kept by step 1 or derived by steps 2 to 7. */
  lemma ReorderedOrigin(listed: seq<string>, front: seq<string>, p: set<string>)
    ensures KeptOrDerived(Reordered(listed, front, p), ColSet(KeepIn(listed, p)), p)
  {
  }

  /** One cell of the output, traced back through steps 9 to 1 to the raw row. */
  lemma CellTraced(raw: Table, k: set<string>, d6: Table, df: Table, i: int, c: string)
    requires WF(raw) && KeptSet(k, ColSet(raw.cols))
    requires RowsDerived(raw, d6, ColSet(raw.cols), k) && CellsCopied(d6, df)
    requires KeptOrDerived(df.cols, k, ColSet(raw.cols))
    requires 0 <= i < |df.rows| && c in df.cols
    ensures c in df.rows[i] && df.rows[i][c] == CleanedCell(ColSet(raw.cols), raw.rows[i], c)
  {
    assert raw.rows[i] in raw.rows;
    DeriveRowIsCleaned(ColSet(raw.cols), raw.rows[i], k, c);
  }

  /** The cells of the output, traced back through steps 9 to 1 to the raw row. */
  lemma CellsTraced(raw: Table, k: set<string>, d6: Table, df: Table)
    requires WF(raw) && KeptSet(k, ColSet(raw.cols))
    requires RowsDerived(raw, d6, ColSet(raw.cols), k) && CellsCopied(d6, df)
    requires KeptOrDerived(df.cols, k, ColSet(raw.cols))
    ensures CellsCleaned(raw, df)
  {
    forall i, c | 0 <= i < |df.rows| && c in df.cols
      ensures c in df.rows[i] && df.rows[i][c] == CleanedCell(ColSet(raw.cols), raw.rows[i], c)
    {
      CellTraced(raw, k, d6, df, i, c);
    }
  }

  /** Steps 8 and 9: drop code_insee_commune, move the front columns first, drop the consolidated coordinates. */
  method DropAndReorder(df: Table, front: seq<string>, ghost p: set<string>, ghost listed: seq<string>) returns (out: Table)
    requires WF(df) && NoDup(front)
    requires Extends(KeepIn(listed, p), df.cols, DerivedColumns(p))
    requires forall c :: c in DerivedColumns(p) ==> c in front
    ensures WF(out)
    ensures out.cols == Reordered(listed, front, p)
    ensures CellsCopied(df, out)
  {
    var d1 := DropIfPresent(df, "code_insee_commune");
    var d2 := MoveToFront(d1, front);
    var d3 := DropIfPresent(d2, "consolidated_latitude");
    out := DropIfPresent(d3, "consolidated_longitude");

    ReorderAfterDrops(df.cols, front, p, listed);
    DropCopiesCells(df, "code_insee_commune");
    DropCopiesCells(d2, "consolidated_latitude");
    DropCopiesCells(d3, "consolidated_longitude");
    CopiedCopied(df, d1, d2);
    CopiedCopied(df, d2, d3);
    CopiedCopied(df, d3, out);
  }

  /** Dropping a column leaves every remaining cell as it was. */
  lemma DropCopiesCells(t: Table, c: string)
    requires WF(t)
    ensures CellsCopied(t, DropIfPresent(t, c))
  {
    var r := DropIfPresent(t, c);
    forall i, x | 0 <= i < |r.rows| && x in r.cols
      ensures x in r.rows[i] && r.rows[i][x] == Get(t.rows[i], x)
    {
      assert t.rows[i] in t.rows;
    }
  }

  /** Copying cells twice copies them from the first table. */
  lemma CopiedCopied(a: Table, b: Table, c: Table)
    requires CellsCopied(a, b) && CellsCopied(b, c)
    requires forall x :: x in c.cols ==> x in b.cols
    ensures CellsCopied(a, c)
  {
  }

  /** The column names DropAndReorder ends with, as the three drops and the move compute them. */
  lemma ReorderAfterDrops(cols: seq<string>, front: seq<string>, p: set<string>, listed: seq<string>)
    requires Extends(KeepIn(listed, p), cols, DerivedColumns(p))
    requires forall c :: c in DerivedColumns(p) ==> c in front
    ensures var c1 := KeepIn(cols, ColSet(cols) - {"code_insee_commune"});
      var c2 := KeepIn(front, ColSet(c1)) + KeepIn(c1, ColSet(c1) - ColSet(front));
      var c3 := KeepIn(c2, ColSet(c2) - {"consolidated_latitude"});
      KeepIn(c3, ColSet(c3) - {"consolidated_longitude"}) == Reordered(listed, front, p)
  {
    var c1 := KeepIn(cols, ColSet(cols) - {"code_insee_commune"});
    assert ColSet(c1) == ColSet(cols) - {"code_insee_commune"};
    DropMoveDrop(cols, KeepIn(listed, p), front, "code_insee_commune", "consolidated_latitude", "consolidated_longitude");
    assert ColumnsAre(cols, ColSet(listed) * p + DerivedColumns(p));
    ReorderedColumns(listed, front, p, cols);
  }

  /**
   * What clean_irve's two lists provide: distinct names, every source
   * column and no computed one kept, and every derived column in front.
   */
  ghost predicate ListsFit(listed: seq<string>, front: seq<string>, p: set<string>) {
    && NoDup(listed) && NoDup(front)
    && (forall c :: c in SOURCE_NAMES ==> c in listed)
    && (forall c :: c in COMPUTED_NAMES ==> c !in listed)
    && (forall c :: c in DerivedColumns(p) ==> c in front)
  }

  lemma ListsOfCleanIrve(p: set<string>)
    ensures ListsFit(COLS, FRONT, p)
  {
    assert NoDup(COLS) by {
      ColsHaveNoDuplicates();
    }
    assert NoDup(FRONT) by {
      FrontHasNoDuplicates();
    }
    SourcesListed();
    ComputedNotListed();
    FrontFacts(p);
  }

  /** Steps 1 to 7: the listed columns kept, then the derived ones appended. */
  method KeepAndDerive(raw: Table, listed: seq<string>) returns (d6: Table, ghost k: set<string>)
    requires WF(raw) && NoDup(listed)
    requires forall c :: c in SOURCE_NAMES ==> c in listed
    requires forall c :: c in COMPUTED_NAMES ==> c !in listed
    ensures WF(d6)
    ensures KeptSet(k, ColSet(raw.cols)) && k == ColSet(KeepIn(listed, ColSet(raw.cols)))
    ensures Extends(KeepIn(listed, ColSet(raw.cols)), d6.cols, DerivedColumns(ColSet(raw.cols)))
    ensures RowsDerived(raw, d6, ColSet(raw.cols), k)
  {
    ghost var p := ColSet(raw.cols);
    var d0 := KeepUseful(raw, listed);
    k := ColSet(d0.cols);
    KeptByStepOne(listed, p);
    d6 := DeriveColumns(d0, p);
  }

  /** clean_irve with its two column lists as parameters. */
  method CleanWith(raw: Table, listed: seq<string>, front: seq<string>) returns (df: Table)
    requires WF(raw) && ListsFit(listed, front, ColSet(raw.cols))
    ensures WF(df)
    ensures df.cols == Reordered(listed, front, ColSet(raw.cols))
    ensures CellsCleaned(raw, df)
  {
    ghost var p := ColSet(raw.cols);
    var d6, k := KeepAndDerive(raw, listed);
    df := DropAndReorder(d6, front, p, listed);
    ReorderedOrigin(listed, front, p);
    CellsTraced(raw, k, d6, df);
  }

  /**
   * clean_irve: the same rows, the columns of OutputColumns, and in every
   * cell the value CleanedCell prescribes.
   */
  method CleanIrve(raw: Table) returns (df: Table)
    requires WF(raw)
    ensures WF(df)
    ensures df.cols == OutputColumns(ColSet(raw.cols))
    ensures CellsCleaned(raw, df)
  {
    ListsOfCleanIrve(ColSet(raw.cols));
    df := CleanWith(raw, COLS, FRONT);
  }

  /**
   * The columns of the reordered output: the listed raw columns that exist
   * and the derived ones, less the three dropped names.
   */
  lemma ReorderedColumnSet(listed: seq<string>, front: seq<string>, p: set<string>)
    requires forall c :: c in DerivedColumns(p) ==> c in front
    ensures forall c :: c in Reordered(listed, front, p) <==>
      ((c in listed && c in p) || c in DerivedColumns(p)) && c !in DROPPED
  {
    var s := (ColSet(listed) * p + DerivedColumns(p)) - DROPPED;
    forall c | c in s && c !in front ensures c in Reordered(listed, front, p) {
      assert c in s - ColSet(front);
    }
  }

  /** The output columns of clean_irve: the listed columns present, plus the derived ones, less the dropped three. */
  lemma OutputColumnSet(p: set<string>)
    ensures forall c :: c in OutputColumns(p) <==>
      ((c in COLS && c in p) || c in DerivedColumns(p)) && c !in DROPPED
  {
    FrontFacts(p);
    ReorderedColumnSet(COLS, FRONT, p);
  }

  /** The front columns come first: no front column follows a column that is not one. */
  lemma FrontColumnsFirst(listed: seq<string>, front: seq<string>, p: set<string>)
    ensures var out := Reordered(listed, front, p);
      forall i, j :: 0 <= i < j < |out| && out[j] in front ==> out[i] in front
  {
    var s := (ColSet(listed) * p + DerivedColumns(p)) - DROPPED;
    var a := KeepIn(front, s);
    var b := KeepIn(listed, s - ColSet(front));
    var out := Reordered(listed, front, p);
    forall k | |a| <= k < |out| ensures out[k] !in front {
      assert out[k] == b[k - |a|] && b[k - |a|] in b;
    }
    forall i, j | 0 <= i < j < |out| && out[j] in front ensures out[i] in front {
      assert j < |a|;
      assert out[i] == a[i] && a[i] in a;
    }
  }
}
