/**
 * `combine_counts.py`: the daily count of one sound's detections per
 * (country, site, date, treatment), scaled by the duty cycle, on the days
 * whose recordings cover at least 90% of the expected number of files.
 */
module CombineCounts {
  import opened Wrappers
  import opened Recording
  import opened Tables

  /** A row of the coverage table: one (country, site, local date, treatment). */
  datatype Combo = Combo(country: Country, site: string, date: string, treatment: Treatment)

  /** The (site, date) a coverage decision is made for. */
  function SiteDay(c: Combo): (r: (string, string)) {
    (c.site, c.date)
  }

  /** One listed path read as a combo; `None` when its timestamp does not parse. */
  function ComboOf(country: Country, offset: int, full: string): (r: Option<Combo>)
    ensures r.Some? <==> ParseDate(FilenamePart(full), offset).Some?
    ensures r.Some? ==>
              && r.value.country == country
              && r.value.site == ParseSite(FilenamePart(full))
              && r.value.treatment == ParseTreatment(FilenamePart(full))
              && Some(r.value.date) == ParseDate(FilenamePart(full), offset)
  {
    var part := FilenamePart(full);
    match ParseDate(part, offset)
    case None => None
    case Some(d) => Some(Combo(country, ParseSite(part), d, ParseTreatment(part)))
  }

  function ParsedFiles(country: Country, offset: int, files: seq<string>): (r: Option<seq<Combo>>) {
    ParseEach(files, f => ComboOf(country, offset, f))
  }

  /**
   * `load_raw_file_list`: the distinct combos of the listed files whose
   * (site, date) holds at least 90% of the expected files; none for a
   * missing list, `None` when a listed name raises.
   */
  function RawCombos(country: Country, offset: int, listing: Option<seq<string>>): (r: Option<seq<Combo>>)
    ensures listing.None? ==> r == Some([])
    ensures r.Some? ==> NoDuplicates(r.value)
  {
    match listing
    case None => Some([])
    case Some(files) =>
      match ParsedFiles(country, offset, files)
      case None => None
      case Some(rows) => Some(CoveredDistinct(rows, SiteDay, ExpectedDaily(DutyCycle(country)), 9, 10))
  }

  /** The raw list fails exactly when one of its names does not parse. */
  lemma RawCombosFailure(country: Country, offset: int, files: seq<string>)
    ensures RawCombos(country, offset, Some(files)).None? <==> exists f | f in files :: ComboOf(country, offset, f).None?
  {
    var parsed := ParsedFiles(country, offset, files);
    if parsed.Some? {
      forall f | f in files ensures ComboOf(country, offset, f).Some? {
        var i :| 0 <= i < |files| && files[i] == f;
      }
    }
  }

  /** The combos a listing parses to are those of its files. */
  lemma ParsedMembers(country: Country, offset: int, files: seq<string>)
    requires ParsedFiles(country, offset, files).Some?
    ensures forall c :: c in ParsedFiles(country, offset, files).value <==>
                        exists f | f in files :: ComboOf(country, offset, f) == Some(c)
  {
    ParseEachMembers(files, f => ComboOf(country, offset, f));
  }

  /**
   * A combo is kept exactly when a listed file reads as it and its
   * (site, date) has at least 90% of the expected number of files; every
   * file of a failing (site, date) is gone.
   */
  lemma RawCombosMembers(country: Country, offset: int, files: seq<string>)
    requires RawCombos(country, offset, Some(files)).Some?
    ensures var rows := ParsedFiles(country, offset, files).value;
      forall c :: c in RawCombos(country, offset, Some(files)).value <==>
        (exists f | f in files :: ComboOf(country, offset, f) == Some(c))
        && Covered(multiset(Keys(rows, SiteDay))[SiteDay(c)], ExpectedDaily(DutyCycle(country)), 9, 10)
  {
    ParsedMembers(country, offset, files);
  }

  /** The loop of `load_raw_file_list` over the listed files, then its coverage filter and de-duplication. */
  method LoadRawFileList(country: Country, offset: int, listing: Option<seq<string>>) returns (r: Option<seq<Combo>>)
    ensures r == RawCombos(country, offset, listing)
  {
    if listing.None? {
      return Some([]);
    }
    var parsed := ParseRows(listing.value, f => ComboOf(country, offset, f));
    if parsed.None? {
      return None;
    }
    r := Some(CoveredDistinct(parsed.value, SiteDay, ExpectedDaily(DutyCycle(country)), 9, 10));
  }

  /** A detection read as a combo; a name that does not parse raises. */
  function InferenceRow(country: Country, offset: int): (r: (string, string) -> Outcome<Combo>) {
    (sound: string, full: string) =>
      match ComboOf(country, offset, full)
      case None => Fail
      case Some(c) => Keep(c)
  }

  /**
   * `load_inference_counts`: per combo with a detection at or above the
   * cutoff, the number of such detections times the duty cycle; no counts
   * for a missing table, `None` when a passing row raises.
   */
  function InferenceCounts(country: Country, offset: int, table: Option<seq<Detection>>, cutoff: real)
    : (r: Option<map<Combo, nat>>)
    ensures table.None? ==> r == Some(map[])
    ensures r.Some? ==> forall c | c in r.value :: r.value[c] >= DutyCycle(country) && r.value[c] % DutyCycle(country) == 0
  {
    match table
    case None => Some(map[])
    case Some(dets) =>
      match CollectFolder("", dets, cutoff, InferenceRow(country, offset))
      case None => None
      case Some(rows) =>
        var sizes := GroupSizes(rows);
        Some(map c | c in sizes :: DutyCycle(country) * sizes[c])
  }

  /**
   * A combo is counted exactly when a detection at or above the cutoff
   * reads as it, and its count is the duty cycle times the number of such detections.
   */
  lemma CountedCombos(country: Country, offset: int, dets: seq<Detection>, cutoff: real)
    requires InferenceCounts(country, offset, Some(dets), cutoff).Some?
    ensures var rows := CollectFolder("", dets, cutoff, InferenceRow(country, offset)).value;
            forall c | c in InferenceCounts(country, offset, Some(dets), cutoff).value ::
              InferenceCounts(country, offset, Some(dets), cutoff).value[c] == DutyCycle(country) * multiset(rows)[c]
    ensures forall c :: c in InferenceCounts(country, offset, Some(dets), cutoff).value <==>
              exists d | d in dets :: d.logit >= cutoff && ComboOf(country, offset, d.filename) == Some(c)
  {
    var parse := InferenceRow(country, offset);
    CollectFolderRows("", dets, cutoff, parse);
    assert forall c: Combo, d: Detection :: parse("", d.filename) == Keep(c) <==> ComboOf(country, offset, d.filename) == Some(c);
  }

  /** The loop of `load_inference_counts` over the passing rows, then the group count. */
  method LoadInferenceCounts(country: Country, offset: int, table: Option<seq<Detection>>, cutoff: real)
    returns (r: Option<map<Combo, nat>>)
    ensures r == InferenceCounts(country, offset, table, cutoff)
  {
    if table.None? {
      return Some(map[]);
    }
    var rows := GatherTable("", table.value, cutoff, InferenceRow(country, offset));
    if rows.None? {
      return None;
    }
    var sizes := GroupSizes(rows.value);
    r := Some(map c | c in sizes :: DutyCycle(country) * sizes[c]);
  }

  /** `process_country`: the coverage combos left-joined with the counts, 0 where there are none. */
  function ProcessCountry(country: Country, listing: Option<seq<string>>, table: Option<seq<Detection>>, cutoff: real)
    : (r: Option<seq<(Combo, nat)>>)
    ensures r.Some? <==> RawCombos(country, Offset(country), listing).Some?
                         && InferenceCounts(country, Offset(country), table, cutoff).Some?
  {
    var offset := Offset(country);
    match RawCombos(country, offset, listing)
    case None => None
    case Some(combos) =>
      match InferenceCounts(country, offset, table, cutoff)
      case None => None
      case Some(counts) => Some(LeftJoin(combos, counts, 0))
  }

  /**
   * Every coverage combo appears once, in order, with its count or 0 when it
   * has no detections (see `Tables.LeftJoin`); counts of combos outside the
   * coverage table are dropped; every count is a multiple of the duty cycle.
   */
  lemma ProcessCountryRows(country: Country, listing: Option<seq<string>>, table: Option<seq<Detection>>, cutoff: real,
                           combos: seq<Combo>, counts: map<Combo, nat>)
    requires RawCombos(country, Offset(country), listing) == Some(combos)
    requires InferenceCounts(country, Offset(country), table, cutoff) == Some(counts)
    ensures ProcessCountry(country, listing, table, cutoff) == Some(LeftJoin(combos, counts, 0))
    ensures forall row | row in LeftJoin(combos, counts, 0) :: row.0 in combos && row.1 % DutyCycle(country) == 0
    ensures NoDuplicates(Keys(LeftJoin(combos, counts, 0), (row: (Combo, nat)) => row.0))
  {
    var r := LeftJoin(combos, counts, 0);
    LeftJoinKeys(combos, counts, 0);
    forall row | row in r ensures row.0 in combos && row.1 % DutyCycle(country) == 0 {
      var i :| 0 <= i < |r| && r[i] == row;
    }
  }

  /** A covered combo gets a positive count exactly when some passing detection of its own reads as it. */
  lemma CountPositiveIffDetected(country: Country, listing: Option<seq<string>>, dets: seq<Detection>, cutoff: real, i: nat)
    requires ProcessCountry(country, listing, Some(dets), cutoff).Some?
    requires i < |ProcessCountry(country, listing, Some(dets), cutoff).value|
    ensures var row := ProcessCountry(country, listing, Some(dets), cutoff).value[i];
            row.1 > 0 <==> exists d | d in dets :: d.logit >= cutoff && ComboOf(country, Offset(country), d.filename) == Some(row.0)
  {
    var combos := RawCombos(country, Offset(country), listing).value;
    var counts := InferenceCounts(country, Offset(country), Some(dets), cutoff).value;
    ProcessCountryRows(country, listing, Some(dets), cutoff, combos, counts);
    CountedCombos(country, Offset(country), dets, cutoff);
  }

  /** The tables of `xs` one after another; `None` as soon as one of them raises. */
  function Concatenated<X, T>(xs: seq<X>, table: X -> Option<seq<T>>): (r: Option<seq<T>>)
  {
    if xs == [] then Some([])
    else
      match Concatenated(xs[..|xs| - 1], table)
      case None => None
      case Some(rows) =>
        match table(xs[|xs| - 1])
        case None => None
        case Some(more) => Some(rows + more)
  }

  /** A row of a concatenation that does not raise comes from the table of one of its parts. */
  lemma {:induction false} ConcatenatedSource<X, T>(xs: seq<X>, table: X -> Option<seq<T>>, row: T) returns (x: X)
    requires xs != [] && Concatenated(xs, table).Some? && row in Concatenated(xs, table).value
    ensures x in xs && table(x).Some? && row in table(x).value
  {
    var init, last := xs[..|xs| - 1], xs[|xs| - 1];
    assert xs == init + [last];
    if row in table(last).value {
      x := last;
    } else {
      x := ConcatenatedSource(init, table, row);
    }
  }

  /** In a concatenation that does not raise, no part raises and every row of a part is there. */
  lemma {:induction false} ConcatenatedPart<X, T>(xs: seq<X>, table: X -> Option<seq<T>>, x: X)
    requires Concatenated(xs, table).Some? && x in xs
    ensures table(x).Some? && forall row | row in table(x).value :: row in Concatenated(xs, table).value
  {
    var init, last := xs[..|xs| - 1], xs[|xs| - 1];
    assert xs == init + [last];
    if x != last {
      ConcatenatedPart(init, table, x);
    }
  }

  /** A country's own table, from its inputs. */
  function CountryTable(listings: Country -> Option<seq<string>>, tables: Country -> Option<seq<Detection>>, cutoff: real)
    : (r: Country -> Option<seq<(Combo, nat)>>)
  {
    c => ProcessCountry(c, listings(c), tables(c), cutoff)
  }

  /** The rows of every country in turn; `None` when any country's inputs raise. */
  function AllCountries(countries: seq<Country>, listings: Country -> Option<seq<string>>,
                        tables: Country -> Option<seq<Detection>>, cutoff: real): (r: Option<seq<(Combo, nat)>>)
  {
    Concatenated(countries, CountryTable(listings, tables, cutoff))
  }

  /** The combined table holds exactly the rows of the listed countries' own tables. */
  lemma AllCountriesRows(countries: seq<Country>, listings: Country -> Option<seq<string>>,
                         tables: Country -> Option<seq<Detection>>, cutoff: real)
    requires AllCountries(countries, listings, tables, cutoff).Some?
    ensures forall c | c in countries :: ProcessCountry(c, listings(c), tables(c), cutoff).Some?
    ensures forall row :: row in AllCountries(countries, listings, tables, cutoff).value <==>
              exists c | c in countries :: row in ProcessCountry(c, listings(c), tables(c), cutoff).value
  {
    var table := CountryTable(listings, tables, cutoff);
    forall c | c in countries
      ensures ProcessCountry(c, listings(c), tables(c), cutoff).Some?
    {
      ConcatenatedPart(countries, table, c);
    }
    forall row
      ensures row in AllCountries(countries, listings, tables, cutoff).value <==>
              exists c | c in countries :: row in ProcessCountry(c, listings(c), tables(c), cutoff).value
    {
      if row in AllCountries(countries, listings, tables, cutoff).value {
        var c := ConcatenatedSource(countries, table, row);
        assert row in ProcessCountry(c, listings(c), tables(c), cutoff).value;
      } else if exists c | c in countries :: row in ProcessCountry(c, listings(c), tables(c), cutoff).value {
        var c :| c in countries && row in ProcessCountry(c, listings(c), tables(c), cutoff).value;
        ConcatenatedPart(countries, table, c);
      }
    }
  }

  /** `main`'s loop concatenating the per-country tables (before sorting). */
  method CombineCountries(countries: seq<Country>, listings: Country -> Option<seq<string>>,
                          tables: Country -> Option<seq<Detection>>, cutoff: real)
    returns (r: Option<seq<(Combo, nat)>>)
    ensures r == AllCountries(countries, listings, tables, cutoff)
  {
    var acc: seq<(Combo, nat)> := [];
    var i := 0;
    while i < |countries|
      invariant 0 <= i <= |countries|
      invariant AllCountries(countries[..i], listings, tables, cutoff) == Some(acc)
    {
      var c := countries[i];
      AllCountriesStep(countries, i, listings, tables, cutoff);
      var rows := ProcessCountry(c, listings(c), tables(c), cutoff);
      if rows.None? {
        AllCountriesFailurePersists(countries, i + 1, listings, tables, cutoff);
        return None;
      }
      acc := acc + rows.value;
      i := i + 1;
    }
    assert countries[..i] == countries;
    r := Some(acc);
  }

  lemma AllCountriesStep(countries: seq<Country>, i: nat, listings: Country -> Option<seq<string>>,
                         tables: Country -> Option<seq<Detection>>, cutoff: real)
    requires i < |countries|
    ensures AllCountries(countries[..i + 1], listings, tables, cutoff)
         == match AllCountries(countries[..i], listings, tables, cutoff)
            case None => None
            case Some(rows) =>
              match ProcessCountry(countries[i], listings(countries[i]), tables(countries[i]), cutoff)
              case None => None
              case Some(more) => Some(rows + more)
  {
    assert countries[..i + 1][..i] == countries[..i];
  }

  lemma {:induction false} AllCountriesFailurePersists(countries: seq<Country>, k: nat, listings: Country -> Option<seq<string>>,
                                                       tables: Country -> Option<seq<Detection>>, cutoff: real)
    requires k <= |countries| && AllCountries(countries[..k], listings, tables, cutoff).None?
    ensures AllCountries(countries, listings, tables, cutoff).None?
  {
    if k < |countries| {
      assert countries[..|countries| - 1][..k] == countries[..k];
      AllCountriesFailurePersists(countries[..|countries| - 1], k, listings, tables, cutoff);
    } else {
      assert countries[..k] == countries;
    }
  }
}
