/**
 * `settlement_cues.py`: per (country, site, night), the proportion of the
 * five-second windows recorded at night on well-covered days in which some
 * sound other than snapping shrimp was detected.  The pipeline is that of
 * `settlement_cuescape.py` without the treatment column.
 */
module SettlementCues {
  import opened Wrappers
  import opened Text
  import opened Calendar
  import opened Strptime
  import opened Recording
  import opened Tables
  import opened NightWindows

  /** A row of the raw file list: the listed path and what its file-name part says. */
  datatype ListedFile = ListedFile(filename: string, site: string, date: string)

  /** One listed path read without parsing its timestamp: the date is characters `[7:15]` as they stand. */
  function ListedFileOf(full: string): (r: ListedFile)
    ensures r.filename == full
    ensures r.date == Slice(FilenamePart(full), 7, 15) && |r.date| <= 8
  {
    var part := FilenamePart(full);
    ListedFile(full, ParseSite(part), Slice(part, 7, 15))
  }

  function SiteDay(f: ListedFile): (r: (string, string)) {
    (f.site, f.date)
  }

  function ListedFiles(files: seq<string>): (rows: seq<ListedFile>)
    ensures |rows| == |files|
    ensures forall i | 0 <= i < |files| :: rows[i] == ListedFileOf(files[i])
  {
    seq(|files|, i requires 0 <= i < |files| => ListedFileOf(files[i]))
  }

  /** The loop of `load_raw_file_list_simple` appending one row per listed file. */
  method ReadListedFiles(files: seq<string>) returns (rows: seq<ListedFile>)
    ensures rows == ListedFiles(files)
  {
    rows := MapRows(files, ListedFileOf);
  }

  /**
   * `load_raw_file_list_simple`: the distinct listed rows whose (site, date)
   * holds at least 90% of the expected number of files; none for a missing list.
   */
  function RawFiles(country: Country, listing: Option<seq<string>>): (r: seq<ListedFile>)
    ensures listing.None? ==> r == []
    ensures NoDuplicates(r)
  {
    match listing
    case None => []
    case Some(files) => CoveredDistinct(ListedFiles(files), SiteDay, ExpectedDaily(DutyCycle(country)), 9, 10)
  }

  /**
   * A row survives exactly when a listed path reads as it and its
   * (site, date) has at least 90% of the expected files.
   */
  lemma RawFilesMembers(country: Country, files: seq<string>)
    ensures forall x :: x in RawFiles(country, Some(files)) <==>
              (exists f | f in files :: ListedFileOf(f) == x)
              && Covered(multiset(Keys(ListedFiles(files), SiteDay))[SiteDay(x)], ExpectedDaily(DutyCycle(country)), 9, 10)
  {
    var rows := ListedFiles(files);
    forall x | x in rows
      ensures exists f | f in files :: ListedFileOf(f) == x
    {
      var i :| 0 <= i < |rows| && rows[i] == x;
      assert files[i] in files;
    }
    forall f | f in files
      ensures ListedFileOf(f) in rows
    {
      var i :| 0 <= i < |files| && files[i] == f;
      assert rows[i] == ListedFileOf(f);
    }
  }

  /** The loop of `load_raw_file_list_simple`, then its coverage filter and de-duplication. */
  method LoadRawFileListSimple(country: Country, listing: Option<seq<string>>) returns (r: seq<ListedFile>)
    ensures r == RawFiles(country, listing)
  {
    if listing.None? {
      return [];
    }
    var rows := ReadListedFiles(listing.value);
    r := CoveredDistinct(rows, SiteDay, ExpectedDaily(DutyCycle(country)), 9, 10);
  }

  /** For a canonical name with no `/`, the sliced date is the date its timestamp parses to. */
  lemma ListedDateIsParsedDate(head: string, dt: DateTime, tail: string)
    requires |head| == 7 && '/' !in head && '/' !in tail && Valid(dt) && InPythonRange(dt.date)
    ensures ListedFileOf(CanonicalName(head, dt, tail)).date == RenderDate(dt.date)
    ensures ParseDateTime(CanonicalName(head, dt, tail)) == Some(dt)
  {
    CanonicalIsOwnPart(head, dt, tail);
    CanonicalParsed(head, dt, tail);
  }

  /** The group of the output table: country, site and night (as `YYYYMMDD`). */
  datatype NightKey = NightKey(country: Country, site: string, night: string)

  /**
   * One coverage-passing minute file placed in its night.  The timestamp is
   * read from the listed path as it stands, not from its file-name part.
   */
  function AssignMinute(country: Country, window: Date -> Option<Window>, f: ListedFile): (r: Outcome<NightKey>)
    ensures r.Fail? <==> ParseDateTime(f.filename).None? || NightOf(ParseDateTime(f.filename).value, window).Fail?
    ensures r.Keep? ==> r.row.country == country && r.row.site == f.site
    ensures r.Keep? ==> |r.row.night| == 8
  {
    match ParseDateTime(f.filename)
    case None => Fail
    case Some(dt) =>
      match NightOf(dt, window)
      case Fail => Fail
      case Drop => Drop
      case Keep(n) => Keep(NightKey(country, f.site, RenderDate(n)))
  }

  /**
   * `gather_night_total_windows`: per night key, 12 windows for every
   * coverage-passing minute file assigned to it; `None` when a file raises.
   */
  function NightTotals(country: Country, listing: Option<seq<string>>, window: Date -> Option<Window>)
    : (r: Option<map<NightKey, nat>>)
    ensures r.Some? ==> forall k | k in r.value :: r.value[k] >= 12
  {
    match KeepEach(RawFiles(country, listing), f => AssignMinute(country, window, f))
    case None => None
    case Some(minutes) => Some(WindowTotals(minutes))
  }

  /**
   * A night key has a total exactly when a coverage-passing file is
   * assigned to it, and the total is 12 times the number of such files.
   */
  lemma NightTotalsMeaning(country: Country, listing: Option<seq<string>>, window: Date -> Option<Window>,
                           minutes: seq<NightKey>)
    requires KeepEach(RawFiles(country, listing), f => AssignMinute(country, window, f)) == Some(minutes)
    ensures NightTotals(country, listing, window) == Some(WindowTotals(minutes))
    ensures forall k :: k in WindowTotals(minutes) <==>
              exists f | f in RawFiles(country, listing) :: AssignMinute(country, window, f) == Keep(k)
    ensures forall k | k in WindowTotals(minutes) ::
              WindowTotals(minutes)[k]
              == 12 * multiset(Keys(RawFiles(country, listing), f => AssignMinute(country, window, f)))[Keep(k)]
  {
    KeepEachRows(RawFiles(country, listing), f => AssignMinute(country, window, f));
  }

  /** The loop of `gather_night_total_windows` with its `continue`, then the group sums. */
  method GatherNightTotalWindows(country: Country, listing: Option<seq<string>>, window: Date -> Option<Window>)
    returns (r: Option<map<NightKey, nat>>)
    ensures r == NightTotals(country, listing, window)
  {
    var raw := LoadRawFileListSimple(country, listing);
    var minutes := KeepRows(raw, f => AssignMinute(country, window, f));
    if minutes.None? {
      return None;
    }
    r := Some(WindowTotals(minutes.value));
  }

  /** A detection placed in its night, read from the file-name part of its path. */
  function DetectionNight(country: Country, window: Date -> Option<Window>, full: string): (r: Outcome<NightKey>)
    ensures r.Keep? ==> r.row.country == country && r.row.site == ParseSite(FilenamePart(full))
  {
    var part := FilenamePart(full);
    match ParseDateTime(part)
    case None => Fail
    case Some(dt) =>
      match NightOf(dt, window)
      case Fail => Fail
      case Drop => Drop
      case Keep(n) => Keep(NightKey(country, ParseSite(part), RenderDate(n)))
  }

  function DetectionRow(country: Country, window: Date -> Option<Window>): (r: (string, string) -> Outcome<NightKey>) {
    (sound: string, full: string) => DetectionNight(country, window, full)
  }

  /**
   * `gather_night_inferences`: one night key per detection at or above the
   * cutoff, in any folder but `snaps`, that falls in a night; none without
   * `agile_outputs`, `None` when a passing row raises.
   */
  function Detections(country: Country, agile: Option<seq<Folder>>, window: Date -> Option<Window>, cutoff: real)
    : (r: Option<seq<NightKey>>)
    ensures agile.None? ==> r == Some([])
  {
    match agile
    case None => Some([])
    case Some(folders) => Collect(folders, NotSnaps, cutoff, DetectionRow(country, window))
  }

  /**
   * A night key is detected exactly when a directory other than `snaps`
   * with an inference table holds a detection at or above the cutoff
   * that falls in that night.
   */
  lemma DetectionSource(country: Country, folders: seq<Folder>, window: Date -> Option<Window>, cutoff: real)
    requires Detections(country, Some(folders), window, cutoff).Some?
    ensures forall k :: k in Detections(country, Some(folders), window, cutoff).value <==>
              exists f, d | f in folders && d in f.inference.GetOr([]) ::
                f.isDir && NotSnaps(f.name) && f.inference.Some?
                && d.logit >= cutoff && DetectionNight(country, window, d.filename) == Keep(k)
  {
    var parse := DetectionRow(country, window);
    CollectRows(folders, NotSnaps, cutoff, parse);
    assert forall f: Folder, d: Detection :: parse(f.name, d.filename) == DetectionNight(country, window, d.filename);
  }

  /** The loop of `gather_night_inferences` over the sound folders and their passing rows. */
  method GatherNightInferences(country: Country, agile: Option<seq<Folder>>, window: Date -> Option<Window>, cutoff: real)
    returns (r: Option<seq<NightKey>>)
    ensures r == Detections(country, agile, window, cutoff)
  {
    if agile.None? {
      return Some([]);
    }
    r := GatherRows(agile.value, NotSnaps, cutoff, DetectionRow(country, window));
  }

  /** The one value column of the output: detected windows over recorded windows, kept as a fraction. */
  datatype Proportion = Proportion(detected: nat, total: nat)

  /**
   * `process_country_nighttime_proportion`: the totals with the detection
   * sums merged on (0 where there are none), reduced to the proportion
   * column; no rows (and no inference read) when there are no totals.
   */
  function ProcessCountry(country: Country, listing: Option<seq<string>>, agile: Option<seq<Folder>>,
                          window: Date -> Option<Window>, cutoff: real): (r: Option<map<NightKey, Proportion>>)
    ensures NightTotals(country, listing, window) == Some(map[]) ==> r == Some(map[])
    ensures r.Some? ==> NightTotals(country, listing, window).Some?
                        && r.value.Keys == NightTotals(country, listing, window).value.Keys
  {
    match NightTotals(country, listing, window)
    case None => None
    case Some(totals) =>
      if totals == map[] then Some(map[])
      else
        match Detections(country, agile, window, cutoff)
        case None => None
        case Some(dets) =>
          var merged := MergeCounts(totals, GroupSizes(dets));
          Some(map k | k in merged :: Proportion(merged[k].count, merged[k].maxPossible))
  }

  /**
   * Every night key with a total has one row, whose proportion is its
   * number of detections (0 exactly when there is none) over 12 times its
   * assigned files, a positive denominator.
   */
  lemma ProcessCountryRows(country: Country, listing: Option<seq<string>>, agile: Option<seq<Folder>>,
                           window: Date -> Option<Window>, cutoff: real, minutes: seq<NightKey>, dets: seq<NightKey>)
    requires KeepEach(RawFiles(country, listing), f => AssignMinute(country, window, f)) == Some(minutes)
    requires Detections(country, agile, window, cutoff) == Some(dets)
    ensures ProcessCountry(country, listing, agile, window, cutoff).Some?
    ensures var r := ProcessCountry(country, listing, agile, window, cutoff).value;
            && r.Keys == (set k | k in minutes)
            && (forall k | k in r :: r[k].detected == multiset(dets)[k] && (r[k].detected == 0 <==> k !in dets))
            && (forall k | k in r :: r[k].total == 12 * multiset(minutes)[k] && r[k].total >= 12)
  {
    assert NightTotals(country, listing, window) == Some(WindowTotals(minutes));
    MergedTotals(minutes, dets);
    MergedCounts(minutes, dets);
    if minutes == [] {
      assert WindowTotals(minutes) == map[];
    }
  }
}
