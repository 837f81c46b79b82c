/**
 * `helpers/functions_add_age.py`: every results table gets an `age` column,
 * looked up by country and site in `sites_age.csv` for the restored (`R…`)
 * and newly restored (`N…`) sites, and `NA` for every other site.
 */
module AddAge {
  import opened Wrappers
  import opened Text
  import opened Tables
  import opened Recording

  /** A key of the age mapping: country and site, stripped and lower-cased. */
  type SiteKey = (string, string)

  /** A row of `sites_age.csv` with the three columns the loop reads. */
  predicate MappingRow(row: CsvRow) {
    "country" in row.cells && "site" in row.cells && "age" in row.cells
  }

  function MappingKey(row: CsvRow): (r: SiteKey)
    requires MappingRow(row)
  {
    (Lower(Strip(row.cells["country"])), Lower(Strip(row.cells["site"])))
  }

  /** One row of the loop of `load_age_mapping`: its key and stripped age, or the `KeyError` it raises. */
  function MappingEntry(row: CsvRow): (r: Outcome<(SiteKey, string)>)
    ensures r.Fail? <==> !MappingRow(row)
    ensures !r.Drop?
  {
    if MappingRow(row) then Keep((MappingKey(row), Strip(row.cells["age"]))) else Fail
  }

  /**
   * `load_age_mapping`: `None` when a row lacks one of the three columns
   * (`KeyError`); otherwise the rows stored in file order, so that a later
   * row with the same key overwrites an earlier one.
   */
  function AgeMapping(rows: seq<CsvRow>): (r: Option<map<SiteKey, string>>)
  {
    StoreEach(rows, MappingEntry)
  }

  /** The mapping is read exactly when every row has the three columns. */
  lemma AgeMappingDefined(rows: seq<CsvRow>)
    ensures AgeMapping(rows).Some? <==> forall row | row in rows :: MappingRow(row)
  {
    if forall row | row in rows :: MappingRow(row) {
      KeepEachAll(rows, MappingEntry);
    } else if KeepEach(rows, MappingEntry).Some? {
      KeepEachRows(rows, MappingEntry);
    }
  }

  /** The mapping has a key exactly for each row of the file. */
  lemma AgeMappingKeys(rows: seq<CsvRow>)
    requires forall row | row in rows :: MappingRow(row)
    ensures AgeMapping(rows).Some?
    ensures forall k | k in AgeMapping(rows).value :: exists row | row in rows && MappingRow(row) :: MappingKey(row) == k
    ensures forall row | row in rows :: MappingKey(row) in AgeMapping(rows).value
  {
    KeepEachAll(rows, MappingEntry);
    var pairs := KeepEach(rows, MappingEntry).value;
    StoreKeys(pairs);
    forall k | k in Store(pairs)
      ensures exists row | row in rows && MappingRow(row) :: MappingKey(row) == k
    {
      var i :| 0 <= i < |pairs| && pairs[i].0 == k;
      assert rows[i] in rows;
    }
    forall row | row in rows
      ensures MappingKey(row) in Store(pairs)
    {
      var i :| 0 <= i < |rows| && rows[i] == row;
      assert pairs[i].0 == MappingKey(row);
    }
  }

  /** A key's age is the stripped `age` of the last row with that key. */
  lemma AgeMappingLast(rows: seq<CsvRow>, i: nat)
    requires forall row | row in rows :: MappingRow(row)
    requires i < |rows|
    requires forall j | i < j < |rows| :: MappingKey(rows[j]) != MappingKey(rows[i])
    ensures AgeMapping(rows).Some?
    ensures MappingKey(rows[i]) in AgeMapping(rows).value
    ensures AgeMapping(rows).value[MappingKey(rows[i])] == Strip(rows[i].cells["age"])
  {
    KeepEachAll(rows, MappingEntry);
    var pairs := KeepEach(rows, MappingEntry).value;
    StoreLast(pairs, i);
  }

  /** The loop of `load_age_mapping`: one assignment per row, in file order. */
  method LoadAgeMapping(rows: seq<CsvRow>) returns (m: Option<map<SiteKey, string>>)
    ensures m == AgeMapping(rows)
  {
    m := StoreRows(rows, MappingEntry);
  }

  /** A site that is looked up: its stripped name starts with `R` or `N`, in upper case. */
  predicate Eligible(site: string) {
    StartsWith(Strip(site), "R") || StartsWith(Strip(site), "N")
  }

  /**
   * The age written for a row of a results table: the mapped age of an
   * eligible site, `NA` otherwise; `None` when the row has no `site`, or an
   * eligible site and no `country` (`KeyError`).
   */
  function AgeOf(row: CsvRow, mapping: map<SiteKey, string>): (age: Option<string>)
    ensures age.None? <==> "site" !in row.cells || (Eligible(row.cells["site"]) && "country" !in row.cells)
    ensures "site" in row.cells && !Eligible(row.cells["site"]) ==> age == Some("NA")
  {
    if "site" !in row.cells then None
    else
      var site := Strip(row.cells["site"]);
      if StartsWith(site, "R") || StartsWith(site, "N") then
        if "country" !in row.cells then None
        else
          var key := (Lower(Strip(row.cells["country"])), Lower(site));
          if key in mapping then Some(mapping[key]) else Some("NA")
      else Some("NA")
  }

  /** An eligible row is looked up under its stripped, lower-cased country and site. */
  lemma AgeLookedUp(row: CsvRow, mapping: map<SiteKey, string>)
    requires "site" in row.cells && "country" in row.cells && Eligible(row.cells["site"])
    ensures var key := (Lower(Strip(row.cells["country"])), Lower(Strip(row.cells["site"])));
            AgeOf(row, mapping) == if key in mapping then Some(mapping[key]) else Some("NA")
  {
  }

  /**
   * An eligible row gets the age of the last mapping row with its country
   * and site, compared without surrounding whitespace and case.
   */
  lemma AgeFromMapping(rows: seq<CsvRow>, i: nat, row: CsvRow)
    requires forall x | x in rows :: MappingRow(x)
    requires i < |rows|
    requires forall j | i < j < |rows| :: MappingKey(rows[j]) != MappingKey(rows[i])
    requires "site" in row.cells && "country" in row.cells && Eligible(row.cells["site"])
    requires (Lower(Strip(row.cells["country"])), Lower(Strip(row.cells["site"]))) == MappingKey(rows[i])
    ensures AgeMapping(rows).Some?
    ensures AgeOf(row, AgeMapping(rows).value) == Some(Strip(rows[i].cells["age"]))
  {
    AgeMappingLast(rows, i);
    AgeLookedUp(row, AgeMapping(rows).value);
  }

  /** An eligible row whose country and site are in no mapping row gets `NA`. */
  lemma AgeMissing(rows: seq<CsvRow>, row: CsvRow)
    requires forall x | x in rows :: MappingRow(x)
    requires "site" in row.cells && "country" in row.cells && Eligible(row.cells["site"])
    requires forall x | x in rows :: MappingKey(x) != (Lower(Strip(row.cells["country"])), Lower(Strip(row.cells["site"])))
    ensures AgeMapping(rows).Some?
    ensures AgeOf(row, AgeMapping(rows).value) == Some("NA")
  {
    AgeMappingKeys(rows);
    AgeLookedUp(row, AgeMapping(rows).value);
  }

  /** The treatment letter is compared in upper case only: a site written `r1` or `n2` gets `NA`. */
  lemma LowerCaseSiteNotLookedUp(row: CsvRow, mapping: map<SiteKey, string>)
    requires "site" in row.cells
    requires var site := Strip(row.cells["site"]); site != [] && (site[0] == 'r' || site[0] == 'n')
    ensures AgeOf(row, mapping) == Some("NA")
  {
    var site := Strip(row.cells["site"]);
    assert site[..1][0] == site[0];
    assert !StartsWith(site, "R") && !StartsWith(site, "N");
  }

  /** What the loop does with one row: the row with its age, or the exception it raises. */
  function AgeStep(mapping: map<SiteKey, string>): (step: CsvRow -> Outcome<CsvRow>)
    ensures forall row :: step(row).Fail? <==> AgeOf(row, mapping).None?
    ensures forall row :: step(row).Keep? ==> step(row).row == CsvRow(row.cells["age" := AgeOf(row, mapping).value])
    ensures forall row :: !step(row).Drop?
  {
    row => match AgeOf(row, mapping)
           case None => Fail
           case Some(age) => Keep(CsvRow(row.cells["age" := age]))
  }

  /** A written table: its header and the rows written before the loop ended or raised. */
  datatype AgedTable = AgedTable(header: seq<string>, rows: Run<CsvRow>)

  /**
   * `add_age_column_to_file` on a table read with header `fieldnames`
   * (empty when the file is): the header gains `age`, and each row is
   * written with its age until a row raises.
   */
  function AgedTableOf(fieldnames: seq<string>, rows: seq<CsvRow>, mapping: map<SiteKey, string>): (t: AgedTable)
    ensures t.header == fieldnames + ["age"]
    ensures t.rows.completed <==> forall row | row in rows :: AgeOf(row, mapping).Some?
    ensures t.rows.completed ==> |t.rows.done| == |rows|
  {
    var run := RunEach(rows, AgeStep(mapping));
    assert run.completed ==> |run.done| == |rows| by {
      if run.completed {
        RunEachAll(rows, AgeStep(mapping));
      }
    }
    AgedTable(fieldnames + ["age"], run)
  }

  /**
   * Each written row is its input row with `age` set as `AgeOf` says and
   * every other column unchanged, in input order.
   */
  lemma AgedRowsMeaning(rows: seq<CsvRow>, mapping: map<SiteKey, string>, i: nat)
    requires RunEach(rows, AgeStep(mapping)).completed && i < |rows|
    ensures var out := RunEach(rows, AgeStep(mapping)).done;
            && |out| == |rows|
            && AgeOf(rows[i], mapping).Some?
            && out[i].cells == rows[i].cells["age" := AgeOf(rows[i], mapping).value]
            && (forall c | c in rows[i].cells && c != "age" :: c in out[i].cells && out[i].cells[c] == rows[i].cells[c])
  {
    var step := AgeStep(mapping);
    assert forall x | x in rows :: step(x).Keep?;
    RunEachAll(rows, step);
    assert rows[i] in rows;
  }

  /** The loop of `add_age_column_to_file`: each row is given its age and written. */
  method AddAgeColumn(fieldnames: seq<string>, rows: seq<CsvRow>, mapping: map<SiteKey, string>) returns (t: AgedTable)
    ensures t == AgedTableOf(fieldnames, rows, mapping)
  {
    var run := RunRows(rows, AgeStep(mapping));
    t := AgedTable(fieldnames + ["age"], run);
  }

  /** `file_path.stem + "_age.csv"`: the name of the new table beside the old one. */
  function AgedName(name: string): (r: string)
    ensures EndsWith(r, "_age.csv")
  {
    var r := SplitExt(name).0 + "_age.csv";
    assert r[|r| - 8..] == "_age.csv";
    r
  }

  /**
   * A table named by a stem without dots and `.csv`, such as
   * `graze_count.csv`, is written as the stem with `_age.csv`.
   */
  lemma AgedNameOf(stem: string)
    requires stem != [] && stem[0] != '.' && '.' !in stem && '/' !in stem
    ensures AgedName(stem + ".csv") == stem + "_age.csv"
  {
    SplitExtOf(stem, ".csv");
  }
}
