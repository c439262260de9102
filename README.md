# IRVE charging-point pipeline, modelled in Dafny

This project models the data path of a dashboard built on the French public
register of electric-vehicle charging points (IRVE). The path has four parts:

- **Loading the raw export** (`utils/io.py`). Columns are located by candidate
  names, then coordinates, power and text fields are derived, duplicates are
  dropped and implausible coordinates are masked.
- **Cleaning** (`utils/cleaning.py`, `utils/geo.py`):
  - postal codes are extracted from the address and departments derived from them;
  - the useful columns are selected and coordinates consolidated;
  - power, power category, AC/DC, 24/7, public access and a normalised status are derived;
  - the output columns are dropped and reordered.
- **The data-processing page** (`sections/data_processing.py`). It runs the
  enrichment and the cleaning, then removes rows without a postal code,
  power outliers and coordinates outside the mainland box, and reports each count.
- **The aggregation layer.** `utils/prep.py` holds the KPIs, the per-place
  table, the power histogram and the map rows. The Overview and Deep dives
  pages (`sections/overview.py`, `sections/deep_dives.py`) hold the loaders,
  the sidebar filters, the top departments, the AC/DC and 24/7 mixes, the
  department codes behind the choropleth, the DC-share ranking, the
  population join and the top operators.

## How the model is organised

- **Values and tables.** A cell is a `Value`:
  - `Missing`, which stands for NaN, None and NA;
  - `Str`, text;
  - `Num`, a real number;
  - `Flag`, a boolean.

  A row is a `map<string, Value>`. A table is a column list plus a sequence
  of rows. `Tables.WF` states that a table is well formed: its column names
  are distinct, and every row has exactly those keys.
- **One module per source file** (`Geo`, `Cleaning`, `Io`, `Prep`,
  `Processing`, `Overview`, `DeepDives`), plus shared modules:
  - `Text`, `Values`, `Tables`, `Seqs`, `Groups` model the string and pandas
    operations the source relies on;
  - `Columns` holds the column lists of `clean_irve`.
- **Imperative code becomes methods.** The pipelines that reassign a frame
  step by step become methods that reassign the table one statement at a
  time:
  - `Cleaning.CleanIrve`, `Io.LoadIrve`, `Processing.FilterRows`,
    `Processing.Render`, `Prep.MakeTables`;
  - the Overview loaders and filter chains.

  The column-conversion loop of `load_data` stays a loop
  (`Overview.ConvertColumns`).

  Each method is proved against a specification function. Cleaning states
  its result cell by cell (`Cleaning.CellsCleaned`, through
  `Cleaning.CleanedCell`). The filter chains are stated at membership
  level: a row survives iff it was in the input and passes every criterion,
  and survivors keep their order.
- **In-place mutation as a class.** `add_departement_from_cp_simple`
  mutates its argument and returns it. It is a method on the `Tables.Frame`
  class, which stands for a mutable data frame.
- **Pure helpers become functions.** Regex searches, classifiers and
  group-bys become functions with named results. Their contracts are
  first-match or iff characterisations.
- **Clock and UI as parameters.** The clock, the widgets and the random
  sample are parameters or are left out:
  - the "updated in the last 90 days" test is a `recent` predicate;
  - a `Selection` value stands for the sidebar widgets.

## Behaviour of the code worth noting

- **Outlier filter, geo rule.** A row with a missing latitude or longitude
  is removed, not kept: `between` is false on NaN
  (`sections/data_processing.py:155-158`, `:200`). See
  `Processing.MissingCoordinateDropped`.
- **Outlier filter, order.** The rules run in sequence, so the geo count is
  taken on the table the power rule already filtered
  (`sections/data_processing.py:144`, `:159`). A row is never counted by both.
- **Outlier filter, power rule.** The power rule keeps `puissance_kw <= 400`.
  A row whose power is missing is therefore dropped too, while the warning
  counts only rows above 400 (`sections/data_processing.py:140-144`). See
  `Processing.PowerStepAccounting`.
- **Department codes.** The department is the first two digits of the postal
  code's text (`utils/cleaning.py:12`). No zero-padding is done and no
  2A/2B is ever produced. Normalisation happens only later, on the Deep
  dives page (`sections/deep_dives.py:124-128`, `:275-277`), and the two
  normalisations there differ (`DeepDives.PopCodeDoesNotStrip`).
- **Coordinate consolidation.** There are no fallback lists, only three
  fixed steps: longitude from `consolidated_longitude`, latitude from
  `consolidated_latitude`, then from the misspelt `consolidated_lagitude`.
  Each step runs only if its source column exists (`utils/cleaning.py:65-77`).
  `consolidated_lagitude` is not dropped at the end
  (`Processing.LagitudeKept`).
- **AC/DC rule.** The connector rule applies whenever the `connecteur`
  *column* exists. A row with an empty connector cell is then AC whatever
  its power (`utils/cleaning.py:92-95`, `Cleaning.DcRule`).
- **Power categories.** The `clean_irve` categories are closed on the right
  (`<= 7`, `<= 22`, `<= 49`, `<= 149`), so 150 kW is `DC_ultra`.
  `categorize_power` in `utils/prep.py` uses strict `<` with other bounds
  (`Prep.TwoPowerClassifiers`).
- **Column resolver, phases.** The exact phase walks the candidates in
  priority order. When two columns lower-case to the same candidate, the
  later one wins. The loose phase walks the columns in table order
  (`utils/io.py:19-28`).
- **Column resolver, repeated calls.** The resolver is called again on the
  growing frame for each field (`utils/io.py:53-71`). `Io.LoadIrve` proves
  that every field resolves as it would on the file's own columns.

## Model

| member | source | states |
|---|---|---|
| Geo.FirstCodeFrom | utils/geo.py:12 | `re.search` from position i: the result is a match position, no earlier position from i matches, and None means no position from i matches |
| Geo.PostalCodeIn | utils/geo.py:12-13 | the result is the five characters at the first word-bounded five-digit run; None iff no position matches |
| Geo.MissingAddressGivesNone | utils/geo.py:10-11 | a missing address yields no postal code |
| Geo.ResultShape | utils/geo.py:12-13 | a returned code is five decimal digits occurring in the address text |
| Geo.LongRunRejected | utils/geo.py:12 | a run of six digits gives no match at its first two positions |
| Geo.AdjacentWordCharRejected | utils/geo.py:12 | a five-digit run touching a word character on either side is not a match |
| Geo.FirstMatchWins | utils/geo.py:12-13 | when several runs qualify, the earliest is returned |
| Geo.UniqueRunFound | utils/geo.py:12-13 | an address with exactly one qualifying run yields that run |
| Geo.ParisExample | utils/geo.py:5-13 | "12 Rue de Paris, 75010 Paris" yields "75010" |
| Cleaning.ExtractCodePostal | utils/cleaning.py:17-22 | the cleaning module's extractor agrees with the geo module's on every input |
| Cleaning.DeptShape | utils/cleaning.py:12 | a department is two digits that prefix the code's text, and it is missing iff the text does not start with two digits |
| Cleaning.DeptNeverCorsican | utils/cleaning.py:6-12 | the derivation never produces 2A or 2B |
| Cleaning.DeptOfExtractedCode | utils/cleaning.py:12 | an extracted postal code yields its first two digits as department |
| Cleaning.DeptOfNoCode | utils/cleaning.py:12 | no postal code gives no department |
| Cleaning.AddDepartementFromCpSimple | utils/cleaning.py:6-15 | mutates the frame and returns the same object; `departement` becomes the two-digit prefix of the code column, or all missing when that column is absent; no other column changes |
| Cleaning.PowerKw | utils/cleaning.py:81 | missing iff the nominal power does not parse; otherwise non-negative, equal to the parsed value when that is non-negative and 0 when it is negative |
| Cleaning.PowerBin | utils/cleaning.py:82-89 | each of the six categories holds iff the power is missing or lies in its right-closed interval (7, 22, 49, 149) |
| Cleaning.LongitudeConsolidated | utils/cleaning.py:65-67 | a parseable longitude is kept; a missing or unparseable one is taken from `consolidated_longitude` |
| Cleaning.LatitudeConsolidated | utils/cleaning.py:70-77 | a parseable latitude is kept; otherwise `consolidated_latitude` when present and parseable; otherwise `consolidated_lagitude` |
| Cleaning.FillCoord | utils/cleaning.py:66-67 | `to_numeric(v).fillna(to_numeric(fallback))`: the parsed value when it exists, else the parsed fallback |
| Cleaning.DcRule | utils/cleaning.py:92-95 | with a `connecteur` column, DC iff the connector cell is text containing dc/ccs/combo/chademo in any case; without it, DC iff the clipped power is at least 24 |
| Cleaning.ConnectorExamples | utils/cleaning.py:93 | "CCS" is DC; a missing connector is not |
| Cleaning.AlwaysOpenExamples | utils/cleaning.py:98-103 | "24h/24" is always open; "8h" is not |
| Cleaning.PublicExample | utils/cleaning.py:109-112 | accessibility "public" is public whatever the conditions |
| Cleaning.StatutAsWritten | utils/cleaning.py:115-126 | the status mapping as written, first group wins: each of the four tags holds iff its keyword group matches and no earlier group does |
| Cleaning.IndisponibleHasDisponible | utils/cleaning.py:120-121 | any status containing "indisponible" matches the in-service group |
| Cleaning.IndisponibleClassifiedInService | utils/cleaning.py:118-126 | as written, every status containing "indisponible" is classified `en_service` |
| Cleaning.IndisponibleExample | utils/cleaning.py:118-126 | as written, "indisponible" maps to `en_service` |
| Cleaning.StatutNormalise | utils/cleaning.py:118-126 | corrected mapping (the corrected half of the first finding, not used by the pipeline): "indisponible" gives `hors_service`, every other status is mapped as written, and the tag is one of the four |
| Cleaning.StatutCorrectionIsLocal | utils/cleaning.py:118-126 | the correction differs from the written mapping exactly on statuses containing "indisponible" |
| Cleaning.StatutGroupsReachable | utils/cleaning.py:118-126 | with the correction, both the out-of-service and the in-service groups are reachable |
| Cleaning.LongitudeOfRow | utils/cleaning.py:63-126 | after steps 1-7, a row's longitude is the consolidated longitude of its raw row |
| Cleaning.LatitudeOfRow | utils/cleaning.py:63-126 | after steps 1-7, a row's latitude is the consolidated latitude of its raw row |
| Cleaning.PowerOfRow | utils/cleaning.py:79-126 | with a nominal power column, `puissance_kw` and `categorie_puissance` are the clipped power and its category |
| Cleaning.DcOfRow | utils/cleaning.py:91-126 | with a connector or power column, `is_dc` is the AC/DC rule on the raw row |
| Cleaning.AlwaysOpenOfRow | utils/cleaning.py:97-126 | `access_24_7` is the keyword rule on `horaires`, false when that column is absent |
| Cleaning.PublicOfRow | utils/cleaning.py:107-126 | `est_publique` is the keyword rule on accessibility and conditions text, each empty when its column is absent |
| Cleaning.StatusOfRow | utils/cleaning.py:114-126 | with `etat_pdc` or `statut_pdc`, `statut_normalise` is the first-match mapping `StatutAsWritten` of the lower-cased text of the first present one |
| Cleaning.UnavailableRowInService | utils/cleaning.py:114-126 | a row whose status text contains "indisponible" leaves the cleaning with `statut_normalise` = `en_service` |
| Cleaning.CopiedOfRow | utils/cleaning.py:60-126 | a kept column that the cleaning does not compute keeps its raw cell |
| Cleaning.DeriveRowIsCleaned | utils/cleaning.py:60-126 | every kept or derived cell after steps 1-7 is `CleanedCell` of the raw row |
| Cleaning.FillCoordinate | utils/cleaning.py:66-67 | one consolidation: the target column (added last if new) is `FillCoord` of target and fallback, row by row; nothing else changes |
| Cleaning.KeepUseful | utils/cleaning.py:60-61 | step 1 keeps the listed columns that exist, in listed order, and each row restricted to them |
| Cleaning.FillIfPresent | utils/cleaning.py:65-77 | one consolidation step runs only if its fallback column exists, and adds at most the target |
| Cleaning.ConsolidateCoordinates | utils/cleaning.py:63-77 | step 2: rows are `ConsolidateRow`, and only coordinates whose consolidated source exists are added |
| Cleaning.DerivePower | utils/cleaning.py:79-89 | step 3: rows are `PowerRow`; `puissance_kw` exists iff `puissance_nominale` does |
| Cleaning.DeriveDc | utils/cleaning.py:91-95 | step 4: rows are `DcRow`; `is_dc` is added iff a connector or power column exists |
| Cleaning.DeriveAlwaysOpen | utils/cleaning.py:97-105 | step 5: rows are `AlwaysOpenRow`; `access_24_7` always exists |
| Cleaning.DerivePublic | utils/cleaning.py:107-112 | step 6: rows are `PublicRow`; `est_publique` always exists |
| Cleaning.DeriveStatus | utils/cleaning.py:114-126 | step 7: rows are `StatusRow`; `statut_normalise` is added iff a status column exists |
| Cleaning.DeriveColumns | utils/cleaning.py:63-126 | steps 2-7: the derived columns are appended and each row is `DeriveRow` of its input |
| Cleaning.CellsTraced | utils/cleaning.py:25-150 | every output cell equals `CleanedCell` of the same raw row and column |
| Cleaning.DropAndReorder | utils/cleaning.py:128-148 | drops `code_insee_commune`, moves the front columns first, drops the two consolidated coordinates; the columns are `Reordered` and every cell is copied |
| Cleaning.KeepAndDerive | utils/cleaning.py:28-126 | steps 1-7: the kept columns then the derived ones, each row derived from its raw row |
| Cleaning.CleanWith | utils/cleaning.py:25-150 | `clean_irve` with its two column lists: well formed, columns `Reordered`, every cell `CleanedCell` of its raw row |
| Cleaning.CleanIrve | utils/cleaning.py:25-150 | `clean_irve`: well formed, row count and order kept, columns `OutputColumns` of the raw columns, every cell `CleanedCell` of its raw row |
| Cleaning.ReorderedColumnSet | utils/cleaning.py:133-148 | a column is in the output iff it was listed and present, or derived, and is not one of the three dropped |
| Cleaning.OutputColumnSet | utils/cleaning.py:29-148 | the same for the source's own column lists |
| Cleaning.FrontColumnsFirst | utils/cleaning.py:133-143 | no front column follows a non-front column in the output |
| Columns.ColsHaveNoDuplicates | utils/cleaning.py:29-59 | the list of useful columns has no duplicates |
| Columns.FrontHasNoDuplicates | utils/cleaning.py:133-142 | the list of front columns has no duplicates |
| Columns.ComputedNotListed | utils/cleaning.py:29-59 | no column that the cleaning computes is among the listed raw columns |
| Columns.SourcesListed | utils/cleaning.py:29-59 | every column the derivations read is listed, so step 1 keeps it |
| Io.LastLowered | utils/io.py:20-23 | the lower-cased name dictionary: the last column lower-casing to a candidate, None iff none does |
| Io.ExactFrom | utils/io.py:21-23 | the exact phase: the first candidate, in priority order, that some column lower-cases to; None iff none |
| Io.LooseFrom | utils/io.py:25-27 | the loose phase: the first column, in table order, containing some candidate; None iff none |
| Io.LoweredMentions | utils/io.py:22-26 | a column equal to a candidate after lower-casing also matches it loosely |
| Io.FirstCol | utils/io.py:19-28 | `_first_col`: a result is a column of the table that contains a candidate |
| Io.ExactWins | utils/io.py:20-23 | if candidate k is the first candidate some column lower-cases to, the result is the last such column |
| Io.LaterDuplicateWins | utils/io.py:20 | of two columns lower-casing to the first candidate, the earlier is never returned |
| Io.FirstColNoneIff | utils/io.py:19-28 | None iff no column loosely matches any candidate |
| Io.ResolvedNameIsTruthy | utils/io.py:42 | a resolved name is non-empty, so the truthiness test only checks resolution |
| Io.FirstColAfterAdding | utils/io.py:42-71 | adding a column that contains no candidate does not change the answer |
| Io.DigitsEnd | utils/io.py:32-33 | `\d+`: the end of the maximal run of digits from i |
| Io.SpacesEnd | utils/io.py:33 | `\s*`: the end of the maximal run of whitespace from i |
| Io.NumberEnd | utils/io.py:32-33 | `-?\d+\.?\d*`: the end of a number starting at i, when one does |
| Io.FirstLonFrom | utils/io.py:32 | the leftmost position from i where the longitude pattern matches; None iff none |
| Io.FirstLatFrom | utils/io.py:33 | the leftmost position from i where the latitude pattern matches; None iff none |
| Io.NumberChars | utils/io.py:32-33 | a matched number is made of digits, minus and point, and starts with a digit or minus |
| Io.NumberParses | utils/io.py:34 | a matched number always converts to a number, never to NaN |
| Io.SplitCoords | utils/io.py:30-34 | `_split_coords` returns (lat, lon); lat is a number iff the latitude pattern matches, lon iff the longitude pattern does |
| Io.ExtractedTextsParse | utils/io.py:32-34 | every extracted text converts to a number |
| Io.SplitAt | utils/io.py:30-34 | with longitude text a and latitude text b, the result is (b, a) as numbers |
| Io.SplitCommaPair | utils/io.py:31-34 | "lon,lat" is read back as the pair (lat, lon) |
| Io.SplitBracketPair | utils/io.py:31-34 | "[lon, lat]" is read back as the pair (lat, lon) |
| Io.NoSeparatorGivesMissing | utils/io.py:32-34 | a text with neither comma nor space, such as "nan", gives (NaN, NaN) |
| Io.LoadedRows | utils/io.py:39-71 | the derived columns are added row by row, one output row per input row |
| Io.InRange | utils/io.py:77-78 | a masked cell is missing or within the bound; an in-bound cell is kept, any other cell becomes missing |
| Io.PlausibleRows | utils/io.py:77-78 | both maskings applied to every row |
| Io.ResolvedReadsFile | utils/io.py:53-71 | no field ever resolves to a column the loader itself wrote |
| Io.PowerResolvesAsInFile | utils/io.py:53-54 | the power lookup on the frame with lat and lon added gives the file's answer |
| Io.StatusResolvesAsInFile | utils/io.py:58 | the status lookup on the growing frame gives the file's answer |
| Io.AccessResolvesAsInFile | utils/io.py:61 | likewise for access |
| Io.OperatorResolvesAsInFile | utils/io.py:64 | likewise for the operator |
| Io.RegionResolvesAsInFile | utils/io.py:67 | likewise for the region |
| Io.DeptResolvesAsInFile | utils/io.py:70 | likewise for the department |
| Io.AddCoordinates | utils/io.py:39-50 | `lat`/`lon` added, each row `WithCoordinates` of the file's resolution |
| Io.AddPower | utils/io.py:53-56 | `power_kw` added, each row `WithPower` of the file's resolution |
| Io.AddTextField | utils/io.py:58-71 | one text field added: the resolved column's text (lower-cased if asked) or the default constant |
| Io.AddTextFields | utils/io.py:58-71 | the five text fields added in order, each row `WithTextFields` of the file's resolution |
| Io.MaskImplausible | utils/io.py:77-78 | columns unchanged, rows `PlausibleRows` of the input |
| Io.LoadIrve | utils/io.py:39-78 | `load_irve_csv` after the read: columns `LoadedColumns`, rows the masked distinct loaded rows, no more rows than the file, every row from a file row, lat in [-90, 90] and lon in [-180, 180] or missing |
| Io.LoadedCoordinatesFromColumns | utils/io.py:42-44 | when both coordinate columns resolve, lat and lon are those columns converted |
| Io.LoadedCoordinatesFromCombined | utils/io.py:45-47 | otherwise, with a combined column, lat and lon are its split |
| Io.LoadedCoordinatesMissing | utils/io.py:48-50 | with neither, both are missing |
| Io.LoadedPower | utils/io.py:53-56 | `power_kw` is the resolved column converted, or missing |
| Io.LoadedTextFields | utils/io.py:58-71 | status and access are lower-cased text or "inconnu", operator text or "inconnu", region and dept text or "NA", all read from the file's cells |
| Io.LoadedKeepsFileCells | utils/io.py:39-71 | every column the loader does not write keeps the file's cell |
| Io.MaskedDistinct | utils/io.py:74-78 | after `drop_duplicates` and masking: no more rows, each from an input row, coordinates in range or missing |
| Io.LoadedProvenance | utils/io.py:39-78 | every returned row is the loaded, masked form of some file row |
| Seqs.Distinct | utils/io.py:74 | `drop_duplicates`: no duplicates, the same set of rows, no more of them |
| Seqs.DistinctIsSubseq | utils/io.py:74 | `drop_duplicates` keeps first occurrences in order |
| Seqs.DistinctPrefix | utils/io.py:74 | deduplicating a prefix gives a prefix of the deduplicated whole |
| Processing.PostalCodeCell | sections/data_processing.py:55 | a postal-code cell is missing or five digits |
| Processing.Enriched | sections/data_processing.py:55-59 | `code_postal` and `departement` added, one enriched row per raw row |
| Processing.ExtractPostalCodes | sections/data_processing.py:55-59 | the two assignments give `Enriched(raw)`, well formed |
| Processing.MapSampleAsWritten | sections/data_processing.py:166 | the requested sample size `min(5000, len(df_clean))`: at most 5000 and at most the row count, and equal to one of them |
| Processing.MapSample | sections/data_processing.py:166 | corrected sample size (the corrected half of the second finding, not used by the page): at most 5000 and at most the located rows, and equal to one of them |
| Processing.MapSampleAsWrittenTooLarge | sections/data_processing.py:166 | a table of one row with a postal code and no latitude makes the page's map sample raise, where the corrected size is 0 |
| Processing.MapSampleCorrectsOnlyFailures | sections/data_processing.py:166 | the corrected size equals the written one whenever the written one fits the located rows, and is smaller exactly when it does not |
| Processing.FilterRows | sections/data_processing.py:96-203 | the three filters: no report and no table iff the table has no rows (the division by zero at line 103); otherwise the report is `ReportOf`; no table iff, in addition, the map sample raises; otherwise the result is `Filtered`, columns kept, survivors a subsequence, and a row survives iff it passes all three tests |
| Processing.FiltersOnlyDelete | sections/data_processing.py:96-203 | every stage only deletes rows and keeps the order and the columns |
| Processing.PostalDropCounted | sections/data_processing.py:96-100 | after step 5 every row has a postal code, and the reported count is exactly the rows removed |
| Processing.PowerStepAccounting | sections/data_processing.py:139-144 | a row survives the power step iff its power is at most 400; rows in = rows out + rows above 400 + rows without power |
| Processing.PowerStepSkipped | sections/data_processing.py:121-148 | without `puissance_kw` the step changes nothing and reports nothing |
| Processing.GeoStepAccounting | sections/data_processing.py:154-200 | the geo count is taken after the power step and equals exactly the rows the geo step removes |
| Processing.MissingCoordinateDropped | sections/data_processing.py:155-200 | a row with a missing coordinate never reaches the final table |
| Processing.EveryRowAccountedFor | sections/data_processing.py:96-203 | after step 5: rows = power outliers + rows without power + geo outliers + final rows |
| Processing.FilteredExactly | sections/data_processing.py:96-203 | a row is in the final table iff it is a cleaned row passing all three tests |
| Processing.ListedColumnKept | utils/cleaning.py:29-148 | a listed, undropped raw column survives `clean_irve` |
| Processing.AddressKept | utils/cleaning.py:29-148 | `adresse_station` survives the cleaning |
| Processing.LagitudeKept | utils/cleaning.py:145-148 | the misspelt `consolidated_lagitude` survives the cleaning |
| Processing.PostalCodeKept | utils/cleaning.py:29-148 | `code_postal` survives the cleaning |
| Processing.DepartementKept | utils/cleaning.py:29-148 | `departement` survives the cleaning |
| Processing.AddressCellsCopied | utils/cleaning.py:60-61 | the cleaning copies address, postal code and department cells unchanged |
| Processing.CleanedRowTraced | sections/data_processing.py:55-63 | a cleaned row's postal code is the one extracted from its address, and its department is derived from that code |
| Processing.CleanedRowsTraced | sections/data_processing.py:55-63 | every row of the cleaned table is traced |
| Processing.Render | sections/data_processing.py:36-203 | the page pipeline: nothing without `date_maj` or `date_mise_en_service` (the `KeyError` of the preview at line 47) or without `adresse_station` (the `KeyError` at line 55); otherwise the cleaned table is `clean_irve` of the enriched raw table with as many rows; no report iff the raw table has no rows, and the report is `ReportOf` the cleaned table; no final table iff there are no rows or the map sample raises; otherwise the final table is `Filtered` of the cleaned one, well formed, and every final row has a text postal code extracted from its own address |
| Prep.CategorizePower | utils/prep.py:6-13 | each of the seven labels holds iff the power is missing or lies in its left-closed interval |
| Prep.TwoPowerClassifiers | utils/prep.py:6-13 | the two classifiers disagree on the slow class only at 7 kW and on the medium-DC class only at 22 kW and in (49, 50); `DC_ultra` is exactly the powers above 149 |
| Prep.Narrowed | utils/prep.py:19-22 | the optional filters keep the rows passing the commune test, or else the postal-code test, in order |
| Prep.CommuneSelectionWins | utils/prep.py:19-22 | with a commune selection the postal-code selection is ignored, and without a commune column nothing is removed |
| Prep.NoSelectionKeepsAll | utils/prep.py:19-22 | with no selection the table is unchanged |
| Prep.Narrow | utils/prep.py:16-22 | the two reassignments give `Narrowed` |
| Prep.PowerColumn | utils/prep.py:25 | `puissance_kw` iff the table has it, else `puissance_nominale` |
| Prep.ServiceFlag | utils/prep.py:31-39 | reliability "haute" in any case; else the recency test on `date_maj`, false on a missing date (NaT); else false |
| Prep.MissingDateNotInService | utils/prep.py:35-37 | without a reliability column, a row whose `date_maj` is missing is not in service, whatever the clock |
| Prep.MissingReliabilityNotInService | utils/prep.py:32 | a missing reliability reads "nan" and is never in service |
| Prep.DerivedRow | utils/prep.py:26-39 | the three assignments in order give `PreparedRow` |
| Prep.Derive | utils/prep.py:25-39 | `power_cat` and `is_service` added, each row `PreparedRow` |
| Prep.Prepared | utils/prep.py:15-39 | the prepared table: one row per narrowed row, two columns added |
| Prep.AllRowsCount | utils/prep.py:41 | the total counts every row |
| Prep.KpisOf | utils/prep.py:41-44 | total points is the row count; the service and fast counts are the rows passing each test, never above the total |
| Prep.Percent | utils/prep.py:42-43 | 0 for an empty table, within [0, 100], 100 when all rows pass, 0 when none does |
| Prep.GroupColumn | utils/prep.py:47-52 | the label column if it has a value, else the department if it has one, else the postal code, else none |
| Prep.Places | utils/prep.py:54-58 | one row per key in key order, each with the number of rows holding that key, of those in service and of those of at least 50 kW |
| Prep.ByPlace | utils/prep.py:53-62 | empty without a group column; otherwise every row's place appears, places are distinct, every place is held by some row, and each carries its exact row, in-service and fast counts (at least one row) |
| Prep.PlacesOfPresentKeys | utils/prep.py:54-58 | places built from keys of the column are each held by a row and count their rows |
| Prep.GroupTotalIsCount | utils/prep.py:54-58 | over distinct keys covering every row, the per-group counts add up to the overall count |
| Prep.PlacesTotals | utils/prep.py:54-58 | the three per-place columns add up to the group totals |
| Prep.ByPlaceMatchesKpis | utils/prep.py:41-58 | the per-place points, service and fast counts add up to the KPI counts |
| Prep.BinOf | utils/prep.py:64-66 | `pd.cut`: each of the six bins holds iff the value lies in its right-closed interval |
| Prep.BinsAndClassesDisagreeOnBounds | utils/prep.py:64-66 | the histogram bins and the power classes disagree exactly at the shared bounds 7, 22 and 300 |
| Prep.PowerDist | utils/prep.py:64-67 | six bins in order, each labelled and holding the number of rows in it |
| Prep.SixBinsArePowered | utils/prep.py:64-67 | every row with a power value falls in exactly one bin |
| Prep.SumOfDist | utils/prep.py:64-67 | the histogram's counts add up to the six bin counts |
| Prep.PowerDistCoversPowered | utils/prep.py:64-67 | the histogram counts add up to the rows with a power value |
| Prep.GeoColumnSet | utils/prep.py:71-75 | the map columns are the seven selected ones after renaming |
| Prep.GeoRowShape | utils/prep.py:71-75 | a map row has exactly the map columns, and its lat and lon are the row's coordinates |
| Prep.GeoColumnsDistinct | utils/prep.py:71-75 | the map columns are distinct |
| Prep.Geo | utils/prep.py:69-75 | the map table holds exactly the projections of rows with both coordinates, one per such row, with no missing coordinate |
| Prep.MakeTables | utils/prep.py:15-77 | `make_tables` returns the summary of the prepared table |
| Overview.TruthyFlag | sections/overview.py:16 | a boolean cell keeps its value through the truthy test |
| Overview.TrueIsTruthy | sections/overview.py:16 | True reads as true |
| Overview.FalseNotTruthy | sections/overview.py:16 | False reads as false |
| Overview.MissingNotTruthy | sections/overview.py:16 | a missing cell reads "nan" and is false |
| Overview.ConvertedRow | sections/overview.py:14-19 | a converted row has the same keys, and only the named columns go through the conversion |
| Overview.ConvertOneMore | sections/overview.py:14-19 | converting one more column is one more assignment |
| Overview.ConvertColumns | sections/overview.py:14-19 | a conversion loop over columns: every row is `ConvertedRow` |
| Overview.ColumnListsDisjoint | sections/overview.py:14-19 | no column is both boolean and numeric |
| Overview.LoadData | sections/overview.py:9-23 | the loader (shared by both pages) keeps columns and row count, every row `LoadedRow` |
| Overview.LoadedCells | sections/overview.py:14-19 | after loading, boolean columns hold flags, numeric columns numbers or missing, others are unchanged |
| Overview.LoadedCellStable | sections/overview.py:14-19 | a loaded cell loads to itself |
| Overview.LoadIdempotent | sections/overview.py:14-19 | loading an already loaded row changes nothing |
| Overview.EnsureDateSeries | sections/overview.py:25-32 | commissioning dates if that column has a value, else update dates if that one does, else all missing; the series has a value iff one of the two columns does |
| Overview.AnyPresentAmong | sections/overview.py:72-75 | after the first four filters, the date series has a value iff some row passing them is dated |
| Overview.SidebarFilters | sections/overview.py:63-78 | `sidebar_filters`: columns kept, survivors in order, a row survives iff it passes every chosen criterion |
| Overview.PeriodFilter | sections/overview.py:72-75 | the period step applies only when a period is chosen and the date series of the rows left has a value |
| Overview.BasicFilters | sections/overview.py:63-71 | the department, operator, current-type and 24/7 steps |
| Overview.PlaceFilters | sections/overview.py:64-67 | the department and operator steps |
| Overview.KindFilters | sections/overview.py:68-71 | the current-type and 24/7 steps |
| Overview.FilterStep | sections/overview.py:63-77 | one `df[mask]` step keeps the result a subsequence of the start |
| Overview.StationCount | sections/overview.py:82 | `nunique` of addresses: the number of distinct present addresses, at most the row count, 0 iff no address is present |
| Overview.TopDepartments | sections/overview.py:111-121 | `head(n)` of the department counts: min(n, number of present departments) of them, largest first, each with its exact number of rows, none left out larger than one shown, no department twice; the same function with n = 20 models `sections/deep_dives.py:99-103` |
| Overview.BoolLabel | sections/overview.py:126 | a cell equal to True gets the first label, one equal to False the second, any other cell is missing |
| Overview.BoolLabels | sections/overview.py:126 | the map applied cell by cell |
| Overview.LabelOccurrences | sections/overview.py:126 | each label occurs as often as its boolean, the missing label as often as the cells that are neither, and the three counts add up to the cells |
| Overview.LabelCounts | sections/overview.py:126 | `value_counts(dropna=False)`: largest first, counts add up to the row count, one entry per label at most; the yes, no and missing entries hold exactly the true, false and other cells, and each label with a positive count has its entry |
| Overview.AcDcMix | sections/overview.py:123-128 | empty iff there is no DC value; otherwise one entry per label at most, the DC, AC and missing counts are the True, False and other cells, each positive one has its entry, and they add up to the row count; the Deep dives page builds the same mix at `sections/deep_dives.py:176-188` |
| DeepDives.ApplyFilters | sections/deep_dives.py:61-74 | `_apply_filters`: columns kept, survivors in order, a row survives iff it passes every chosen criterion |
| DeepDives.NormCode | sections/deep_dives.py:124-128 | `norm_code` of a cell: a single digit of the stripped, upper-cased text gets a leading '0'; any other stripped, upper-cased text is returned as it is |
| DeepDives.NormText | sections/deep_dives.py:126-128 | the padding step: a single digit gets a leading '0', any other text is kept, and a short digit code comes out two long |
| DeepDives.NormCodeIdempotent | sections/deep_dives.py:124-128 | normalising a normalised code changes nothing |
| DeepDives.NormTextIdempotent | sections/deep_dives.py:124-128 | on stripped text, padding and normalising again changes nothing |
| DeepDives.PaddedCodeIsNormal | sections/deep_dives.py:124-128 | a padded code is kept by a second pass |
| DeepDives.NormCodeSingleDigit | sections/deep_dives.py:128 | "7" becomes "07" |
| DeepDives.NormCodeCorsica | sections/deep_dives.py:125-127 | " 2a " becomes "2A" |
| DeepDives.CodeGroups | sections/deep_dives.py:129 | one coded department per group, with its normalised code and size |
| DeepDives.CodedTotalIsSizeTotal | sections/deep_dives.py:118-129 | the coded departments hold as many points as the groups |
| DeepDives.DepartmentCodes | sections/deep_dives.py:117-129 | the choropleth input: each present department exactly once, with its exact count and code, counts adding up to the rows with a department |
| DeepDives.CodedGroupsDistinct | sections/deep_dives.py:117-120 | the coded groups cover every present department, each once |
| DeepDives.CodedGroups | sections/deep_dives.py:118-129 | the same, stated on any column of cells |
| DeepDives.DcInDept | sections/deep_dives.py:219 | a department's DC count never exceeds its size |
| DeepDives.SharesOf | sections/deep_dives.py:216-221 | one share per key, with its size and DC count |
| DeepDives.DcShares | sections/deep_dives.py:215-221 | every present department once, with at least one point and its exact DC count |
| DeepDives.Pool | sections/deep_dives.py:224-227 | the departments with at least 20 points, or all of them when none has |
| DeepDives.DcRanking | sections/deep_dives.py:215-228 | min(20, pool size) departments, from the pool, highest share first, no department twice, and no department left out has a higher share than one shown |
| DeepDives.RankedDeptsDistinct | sections/deep_dives.py:215-228 | ranking shares with distinct departments shows each department at most once |
| DeepDives.Ranked | sections/deep_dives.py:228 | `sort_values("pct_dc", ascending=False).head(20)` on the eligible departments: min(20, eligible) of them, highest share first, each department once, none left out with a higher share than one shown, and non-empty when there is a department |
| DeepDives.PoolNonEmpty | sections/deep_dives.py:225-227 | the fallback to every department leaves something to rank whenever the department table is not empty |
| DeepDives.ShareScoreBounds | sections/deep_dives.py:223 | a DC share lies in [0, 1] |
| DeepDives.PopCode | sections/deep_dives.py:275-277 | the population key: 2A/2B in any case become upper case, anything else is zero-filled to two |
| DeepDives.PopCodeCorsica | sections/deep_dives.py:276 | "2a" becomes "2A" |
| DeepDives.PopCodePadding | sections/deep_dives.py:275 | "7" becomes "07", "974" stays |
| DeepDives.PopCodeDoesNotStrip | sections/deep_dives.py:275-277 | unlike `norm_code`, the population key keeps a leading space, so " 7" misses the table while `norm_code` gives "07" |
| DeepDives.Covered | sections/deep_dives.py:278-279 | the inner join with a population table keeps exactly the groups whose key has a population |
| DeepDives.CoveredDistinct | sections/deep_dives.py:278-279 | groups with distinct keys join into rows with distinct departments |
| Groups.TallyOf | sections/overview.py:126 | the entry of `value_counts` for one value holds its number of occurrences, and a value that occurs has its entry |
| Overview.LabelKeys | sections/overview.py:126 | every entry of the label counts is one of the three labels |
| DeepDives.PopulationJoin | sections/deep_dives.py:273-279 | each joined department carries its exact count and its population, every present department with a population is joined, and none appears twice |
| DeepDives.JoinRaisesIff | sections/deep_dives.py:273-291 | the people-per-charger note's `iloc[0]`/`iloc[-1]` raise (section shown, join empty) exactly when `departement` is a column, there are rows, and no present department code has a population |
| DeepDives.JoinRaisesWithoutDepartment | sections/deep_dives.py:273-291 | one row with a missing department makes the note raise |
| DeepDives.TopOperators | sections/deep_dives.py:304-311 | `head(10)`: min(10, number of present operators) operators, largest first, each with its exact count, no operator twice, and none left out larger than one shown |
| DeepDives.OperatorsRaiseIff | sections/deep_dives.py:305-323 | the key-takeaway note's `op_counts.iloc[0]` raises (section shown, operator table empty) exactly when `nom_operateur` is a column, there are rows, and no operator cell is present |
| DeepDives.OperatorsRaiseWithoutOperator | sections/deep_dives.py:305-323 | one row with a missing operator makes the note raise |
| DeepDives.AccessMix | sections/deep_dives.py:195-198 | counts add up to the row count, one entry per label at most; the 24/7, restricted and missing counts are the True, False and other cells, and each positive one has its entry |
| Groups.KeysOf | sections/deep_dives.py:118-119 | group keys: distinct, exactly the values present (or all, without `dropna`) |
| Groups.GroupBy | sections/deep_dives.py:118-120 | `groupby(...).size()`: one group per key with its exact number of occurrences |
| Groups.GroupByCoversCells | sections/deep_dives.py:118-120 | group sizes add up to the cells counted |
| Groups.SizeTotalSorted | sections/overview.py:118 | sorting groups keeps their total |
| Groups.Tally | sections/overview.py:126 | `value_counts`: the groups sorted, largest first, totalling every cell, no key twice |
| Groups.Largest | sections/overview.py:118-119 | `sort_values(ascending=False).head(n)`: min(n, size) groups, largest first, none left out larger than one kept, and distinct keys stay distinct |
| Groups.TopCounts | sections/overview.py:114-120 | group, sort, head on one column: min(n, number of present keys) keys with exact counts, no key twice, none larger left out, non-empty when the column has a value |
| Groups.KeysCount | sections/overview.py:82 | the group keys are as many as the distinct present values |
| Seqs.SortDesc | sections/overview.py:118 | a permutation, non-increasing in the score |
| Seqs.TopIsTop | sections/overview.py:118-119 | the first n of the sorted sequence are from the input and none left out scores higher |
| Tables.Filter | sections/overview.py:65 | `df[mask]`: same columns, the rows passing the mask in order |
| Tables.DropIfPresent | utils/cleaning.py:129-130 | dropping an existing column removes it from the names and every row |
| Tables.MoveToFront | utils/cleaning.py:133-143 | the front columns present, then the rest in order; same column set, same rows |
| Tables.SetColumn | utils/cleaning.py:12 | `df[c] = vals`: the column is overwritten in place or appended, each row takes its value |
| Tables.Frame.Assign | utils/cleaning.py:12 | the mutable frame's state becomes `SetColumn` of its old state |
| Text.ZFill | sections/deep_dives.py:275 | `str.zfill`: long texts unchanged, short unsigned texts left-padded with zeros to the width |
| Text.Strip | sections/deep_dives.py:125 | `str.strip` leaves no whitespace at either end |
| Values.ToNumeric | utils/cleaning.py:81 | `pd.to_numeric(errors="coerce")`: numbers kept, missing stays missing |
| Values.FillNa | utils/cleaning.py:67 | `fillna`: numbers kept, missing replaced |

## Left out

- File I/O, `read_csv`, CSV/Parquet writing and the `st.cache_data` caching are not modelled. Each loader starts from an in-memory table.
- The GeoJSON download (`sections/deep_dives.py:26-30`), every chart, map, metric and text widget, and the `st.sidebar` widgets are not modelled. A `Selection` value stands for the widgets' choices, and the empty-selection cases are its fields.
- `pd.to_datetime` is not modelled: date cells stay as they were read. The period filters compare cells with `Between` on the model's values.
- The clock is not modelled. `Prep.ServiceFlag` takes the "updated in the last 90 days" test (`utils/prep.py:35-37`) as a `recent` predicate on present dates; a missing date (NaT) is never recent.
- Means, percentages and `round(..., 1)` are not modelled.
  - The KPI, per-place and per-department shares are stated by their numerators (`Prep.KpisOf`, `Prep.Places`). `Prep.Percent` has no rounding.
  - `DeepDives.DcRanking` ranks by the unrounded share, so ties created by rounding may order differently.
- The floating-point percentages of the data-processing messages (`sections/data_processing.py:69`, `:103`) are not modelled. Only the division by zero at `:103` on a table without rows, where both operands are Python integers, is: `Processing.FilterRows` and `Processing.Render` produce nothing then. At `:69` the numerator is a NumPy integer, so the quotient is NaN and nothing is raised.
- Three parts of the data-processing page are left out: the date conversion itself (`sections/data_processing.py:36-44`), the missing-value table (`:74-94`) and the duplicate count (`:110-113`). The conversion only warns about a missing date column, but the preview right after it (`:47`) raises a `KeyError` then; `Processing.Render` models that abort. The other two only display.
- The random sampling of the map (`sections/data_processing.py:166`) is not modelled; only the sample size is, and whether `sample` raises.
- `monthly_installations` is not modelled, because it needs period arithmetic on dates.
- `kpi_row`'s means, `_kpis`'s density and average power, and the people-per-charger ratio and its sort (`sections/deep_dives.py:280-281`) are not modelled. Only the counts behind them are.
- The deep-dives power histogram and its fallback categories (`sections/deep_dives.py:157-162`) are not modelled; they only feed a plot.
- The ascending re-sort of the top departments for display (`sections/deep_dives.py:104`) is not modelled.
- The `category` dtype conversion (`sections/overview.py:20-22`, `sections/deep_dives.py:21-23`) is not modelled. With pandas before 3.0, `groupby` on a categorical column defaults to `observed=False` and also lists categories that no longer occur after filtering, with a count of 0.
  - Overview.TopDepartments, DeepDives.TopOperators, DeepDives.DepartmentCodes, DeepDives.DcShares, DeepDives.PopulationJoin: list only the departments or operators present in the table. Under those pandas versions the source can also show zero-count categories: in the top-n tables when fewer than n are present, and in the department tables whenever a filter removed one.
- Overview.TopDepartments, DeepDives.TopOperators, Groups.Largest: ties are ordered by a stable sort. pandas' default sort is not stable, so the order among equal counts is not fixed there.
- Groups.GroupBy: keys come in order of first appearance, where pandas sorts them. The contracts state only membership and counts.
- Text.Lower, Text.Upper: case changes only for ASCII letters and the Latin-1 letters U+00C0-U+00DE / U+00E0-U+00FE (except U+00D7 and U+00F7). Python's case mapping of other letters, and of the Latin-1 letters without a Latin-1 partner (such as U+00DF and U+00FF), is not modelled.
- `\d`, `\w` and `str.isdigit` are modelled on Latin-1 characters only.
- `Missing` stands for NaN, None and `pd.NA` alike. The source treats them alike in every operation modelled.
- Floating-point is modelled as exact reals. The text of a float (`Values.RealText`, used when a number is turned into text) has a fixed number of decimals.
- DeepDives.AccessMix requires the `access_24_7` column, because the source raises a `KeyError` without it (`sections/deep_dives.py:196`).
- Prep.MakeTables requires the columns it selects. Without them the source raises a `KeyError`.
- DeepDives.NormCode, DeepDives.PopCode, Overview.Truthy: a number cell is always a float here, so its text is "75.0". A column that pandas reads as int64 gives "75" under `astype(str)`, which `norm_code` and the population lookup would match as a code; the model has no integer cell and does not capture that case. Department codes are text in the tables these pages receive.
- Cleaning.DcRule, Cleaning.DeriveDc: the `.str.contains` of `utils/cleaning.py:93` raises an `AttributeError` when the `connecteur` column holds no text at all (for instance an all-empty float column). The model has no column dtypes, so it treats such a column as one whose cells contain no DC keyword.
- Processing.InMainland, Processing.FilterRows: `between` at `sections/data_processing.py:156` raises a `TypeError` on a text latitude or longitude column. The model has no column dtypes; a text coordinate cell simply fails the box test.
- Values.ToNumeric: accepts a signed decimal number only. `pd.to_numeric` also accepts exponent notation and the literals `inf` and `nan`; those texts become missing in the model.

## Findings

| source | as written | input that shows it | evidently intended | confidence | as-written member | corrected member |
|---|---|---|---|---|---|---|
| utils/cleaning.py:118-126 | the in-service keywords include "disponible", which is a substring of "indisponible", and `np.select` takes the first group that matches; the cleaning pipeline (`Cleaning.UnavailableRowInService`) therefore reports such points in service | status text "indisponible" | "indisponible" is classified `hors_service` | high (not executed) | Cleaning.IndisponibleClassifiedInService | Cleaning.StatutNormalise |
| sections/data_processing.py:166 | `sample(min(5000, len(df_clean)))` is taken from the rows that survive `dropna` on the coordinates, but its size counts every row; pandas raises when the size exceeds the rows sampled | a table of one row with a postal code and no latitude | sample at most the located rows | high (not executed) | Processing.MapSampleAsWrittenTooLarge | Processing.MapSample |
