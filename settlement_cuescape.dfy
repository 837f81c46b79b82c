/**
 * `settlement_cuescape.py`: per (country, site, night, treatment), the
 * five-second windows recorded at night on well-covered days and the
 * windows in which some sound other than snapping shrimp was detected.
 */
module SettlementCuescape {
  import opened Wrappers
  import opened Text
  import opened Calendar
  import opened Strptime
  import opened Recording
  import opened Tables
  import opened NightWindows

  /** A row of the raw file list: the listed path and what its file-name part says. */
  datatype ListedFile = ListedFile(filename: string, site: string, date: string, treatment: Treatment)

  /** One listed path read without parsing its timestamp: the date is characters `[7:15]` as they stand. */
  function ListedFileOf(full: string): (r: ListedFile)
    ensures r.filename == full
    ensures r.date == Slice(FilenamePart(full), 7, 15) && |r.date| <= 8
  {
    var part := FilenamePart(full);
    ListedFile(full, ParseSite(part), Slice(part, 7, 15), ParseTreatment(part))
  }

  function SiteDay(f: ListedFile): (r: (string, string)) {
    (f.site, f.date)
  }

  function ListedFiles(files: seq<string>): (rows: seq<ListedFile>)
    ensures |rows| == |files|
    ensures forall i | 0 <= i < |files| :: rows[i] == ListedFileOf(files[i])
  {
    seq(|files|, i requires 0 <= i < |files| => ListedFileOf(files[i]))
  }

  /** The loop of `load_raw_file_list_simple` appending one row per listed file. */
  method ReadListedFiles(files: seq<string>) returns (rows: seq<ListedFile>)
    ensures rows == ListedFiles(files)
  {
    rows := MapRows(files, ListedFileOf);
  }

  /**
   * `load_raw_file_list_simple`: the distinct listed rows whose (site, date)
   * holds at least 90% of the expected number of files; none for a missing list.
   */
  function RawFiles(country: Country, listing: Option<seq<string>>): (r: seq<ListedFile>)
    ensures listing.None? ==> r == []
    ensures NoDuplicates(r)
  {
    match listing
    case None => []
    case Some(files) => CoveredDistinct(ListedFiles(files), SiteDay, ExpectedDaily(DutyCycle(country)), 9, 10)
  }

  /**
   * A row survives exactly when a listed path reads as it and its
   * (site, date) has at least 90% of the expected files.
   */
  lemma RawFilesMembers(country: Country, files: seq<string>)
    ensures forall x :: x in RawFiles(country, Some(files)) <==>
              (exists f | f in files :: ListedFileOf(f) == x)
              && Covered(multiset(Keys(ListedFiles(files), SiteDay))[SiteDay(x)], ExpectedDaily(DutyCycle(country)), 9, 10)
  {
    var rows := ListedFiles(files);
    forall x | x in rows
      ensures exists f | f in files :: ListedFileOf(f) == x
    {
      var i :| 0 <= i < |rows| && rows[i] == x;
      assert files[i] in files;
    }
    forall f | f in files
      ensures ListedFileOf(f) in rows
    {
      var i :| 0 <= i < |files| && files[i] == f;
      assert rows[i] == ListedFileOf(f);
    }
  }

  /** The loop of `load_raw_file_list_simple`, then its coverage filter and de-duplication. */
  method LoadRawFileListSimple(country: Country, listing: Option<seq<string>>) returns (r: seq<ListedFile>)
    ensures r == RawFiles(country, listing)
  {
    if listing.None? {
      return [];
    }
    var rows := ReadListedFiles(listing.value);
    r := CoveredDistinct(rows, SiteDay, ExpectedDaily(DutyCycle(country)), 9, 10);
  }

  /** For a canonical name with no `/`, the sliced date is the date its timestamp parses to. */
  lemma ListedDateIsParsedDate(head: string, dt: DateTime, tail: string)
    requires |head| == 7 && '/' !in head && '/' !in tail && Valid(dt) && InPythonRange(dt.date)
    ensures ListedFileOf(CanonicalName(head, dt, tail)).date == RenderDate(dt.date)
    ensures ParseDateTime(CanonicalName(head, dt, tail)) == Some(dt)
  {
    CanonicalIsOwnPart(head, dt, tail);
    CanonicalParsed(head, dt, tail);
  }

  /** The group of the output table: country, site, night (as `YYYYMMDD`) and treatment. */
  datatype NightKey = NightKey(country: Country, site: string, night: string, treatment: Treatment)

  /**
   * One coverage-passing minute file placed in its night.  The timestamp is
   * read from the listed path as it stands, not from its file-name part.
   */
  function AssignMinute(country: Country, window: Date -> Option<Window>, f: ListedFile): (r: Outcome<NightKey>)
    ensures r.Fail? <==> ParseDateTime(f.filename).None? || NightOf(ParseDateTime(f.filename).value, window).Fail?
    ensures r.Keep? ==> r.row.country == country && r.row.site == f.site && r.row.treatment == f.treatment
    ensures r.Keep? ==> |r.row.night| == 8
  {
    match ParseDateTime(f.filename)
    case None => Fail
    case Some(dt) =>
      match NightOf(dt, window)
      case Fail => Fail
      case Drop => Drop
      case Keep(n) => Keep(NightKey(country, f.site, RenderDate(n), f.treatment))
  }

  /**
   * The totals read the stamp from the listed path as it stands.  For a
   * recording listed under a directory whose eighth character is not a
   * digit (`raw_audio/` is one), the stamp is read at the wrong place and
   * the script raises, while a detection of the same recording is read from
   * its file name and parses.
   */
  lemma TotalsReadTheListedPath(country: Country, window: Date -> Option<Window>,
                                dir: string, head: string, dt: DateTime, tail: string)
    requires '/' !in dir && |dir| > 7 && !('0' <= dir[7] <= '9')
    requires |head| == 7 && '/' !in head && '/' !in tail && Valid(dt) && InPythonRange(dt.date)
    ensures var path := dir + "/" + CanonicalName(head, dt, tail);
            && AssignMinute(country, window, ListedFileOf(path)).Fail?
            && ParseDateTime(FilenamePart(path)) == Some(dt)
  {
    var name := CanonicalName(head, dt, tail);
    var path := dir + "/" + name;
    assert ParseDateTime(path).None? by {
      assert |name| == 22 + |tail|;
      var stamp := StampText(path);
      assert stamp[0] == dir[7];
      FirstCharFails(YearAlts[0], stamp, 0);
      assert YearAlts[1..] == [];
      assert TryAlts(YearAlts, StampFormat[1..], stamp, 0).None?;
      assert StampFormat[0] == Field(YearAlts);
    }
    FilenamePartOfPath(dir, name);
    ListedDateIsParsedDate(head, dt, tail);
  }

  /**
   * `gather_night_total_windows`: per night key, 12 windows for every
   * coverage-passing minute file assigned to it; `None` when a file raises.
   */
  function NightTotals(country: Country, listing: Option<seq<string>>, window: Date -> Option<Window>)
    : (r: Option<map<NightKey, nat>>)
    ensures r.Some? ==> forall k | k in r.value :: r.value[k] >= 12
  {
    match KeepEach(RawFiles(country, listing), f => AssignMinute(country, window, f))
    case None => None
    case Some(minutes) => Some(WindowTotals(minutes))
  }

  /**
   * A night key has a total exactly when a coverage-passing file is
   * assigned to it, and the total is 12 times the number of such files.
   */
  lemma NightTotalsMeaning(country: Country, listing: Option<seq<string>>, window: Date -> Option<Window>,
                           minutes: seq<NightKey>)
    requires KeepEach(RawFiles(country, listing), f => AssignMinute(country, window, f)) == Some(minutes)
    ensures NightTotals(country, listing, window) == Some(WindowTotals(minutes))
    ensures forall k :: k in WindowTotals(minutes) <==>
              exists f | f in RawFiles(country, listing) :: AssignMinute(country, window, f) == Keep(k)
    ensures forall k | k in WindowTotals(minutes) ::
              WindowTotals(minutes)[k]
              == 12 * multiset(Keys(RawFiles(country, listing), f => AssignMinute(country, window, f)))[Keep(k)]
  {
    KeepEachRows(RawFiles(country, listing), f => AssignMinute(country, window, f));
  }

  /** The loop of `gather_night_total_windows` with its `continue`, then the group sums. */
  method GatherNightTotalWindows(country: Country, listing: Option<seq<string>>, window: Date -> Option<Window>)
    returns (r: Option<map<NightKey, nat>>)
    ensures r == NightTotals(country, listing, window)
  {
    var raw := LoadRawFileListSimple(country, listing);
    var minutes := KeepRows(raw, f => AssignMinute(country, window, f));
    if minutes.None? {
      return None;
    }
    r := Some(WindowTotals(minutes.value));
  }

  /** A detection placed in its night, read from the file-name part of its path. */
  function DetectionNight(country: Country, window: Date -> Option<Window>, full: string): (r: Outcome<NightKey>)
    ensures r.Keep? ==> r.row.country == country
                        && r.row.site == ParseSite(FilenamePart(full))
                        && r.row.treatment == ParseTreatment(FilenamePart(full))
  {
    var part := FilenamePart(full);
    match ParseDateTime(part)
    case None => Fail
    case Some(dt) =>
      match NightOf(dt, window)
      case Fail => Fail
      case Drop => Drop
      case Keep(n) => Keep(NightKey(country, ParseSite(part), RenderDate(n), ParseTreatment(part)))
  }

  function DetectionRow(country: Country, window: Date -> Option<Window>): (r: (string, string) -> Outcome<NightKey>) {
    (sound: string, full: string) => DetectionNight(country, window, full)
  }

  /**
   * `gather_night_inferences`: one night key per detection at or above the
   * cutoff, in any folder but `snaps`, that falls in a night; none without
   * `agile_outputs`, `None` when a passing row raises.
   */
  function Detections(country: Country, agile: Option<seq<Folder>>, window: Date -> Option<Window>, cutoff: real)
    : (r: Option<seq<NightKey>>)
    ensures agile.None? ==> r == Some([])
  {
    match agile
    case None => Some([])
    case Some(folders) => Collect(folders, NotSnaps, cutoff, DetectionRow(country, window))
  }

  /**
   * A night key is detected exactly when a directory other than `snaps`
   * with an inference table holds a detection at or above the cutoff
   * that falls in that night.
   */
  lemma DetectionSource(country: Country, folders: seq<Folder>, window: Date -> Option<Window>, cutoff: real)
    requires Detections(country, Some(folders), window, cutoff).Some?
    ensures forall k :: k in Detections(country, Some(folders), window, cutoff).value <==>
              exists f, d | f in folders && d in f.inference.GetOr([]) ::
                f.isDir && NotSnaps(f.name) && f.inference.Some?
                && d.logit >= cutoff && DetectionNight(country, window, d.filename) == Keep(k)
  {
    var parse := DetectionRow(country, window);
    CollectRows(folders, NotSnaps, cutoff, parse);
    assert forall f: Folder, d: Detection :: parse(f.name, d.filename) == DetectionNight(country, window, d.filename);
  }

  /** The loop of `gather_night_inferences` over the sound folders and their passing rows. */
  method GatherNightInferences(country: Country, agile: Option<seq<Folder>>, window: Date -> Option<Window>, cutoff: real)
    returns (r: Option<seq<NightKey>>)
    ensures r == Detections(country, agile, window, cutoff)
  {
    if agile.None? {
      return Some([]);
    }
    r := GatherRows(agile.value, NotSnaps, cutoff, DetectionRow(country, window));
  }

  /**
   * `process_country_nighttime_proportion`: the totals with the detection
   * sums merged on; no rows (and no inference read) when there are no totals.
   * The proportion is `count / maxPossible` and the log column is
   * `LogGuarded(maxPossible)`.
   */
  function ProcessCountry(country: Country, listing: Option<seq<string>>, agile: Option<seq<Folder>>,
                          window: Date -> Option<Window>, cutoff: real): (r: Option<map<NightKey, NightRow>>)
    ensures NightTotals(country, listing, window) == Some(map[]) ==> r == Some(map[])
    ensures r.Some? ==> NightTotals(country, listing, window).Some?
                        && r.value.Keys == NightTotals(country, listing, window).value.Keys
  {
    match NightTotals(country, listing, window)
    case None => None
    case Some(totals) =>
      if totals == map[] then Some(map[])
      else
        match Detections(country, agile, window, cutoff)
        case None => None
        case Some(dets) => Some(MergeCounts(totals, GroupSizes(dets)))
  }

  /**
   * Every night key with a total has one row, whose maximum is 12 times its
   * assigned files, whose count is its number of detections (0 exactly when
   * there is none), and whose log column is the log of that positive maximum.
   */
  lemma ProcessCountryRows(country: Country, listing: Option<seq<string>>, agile: Option<seq<Folder>>,
                           window: Date -> Option<Window>, cutoff: real, minutes: seq<NightKey>, dets: seq<NightKey>)
    requires KeepEach(RawFiles(country, listing), f => AssignMinute(country, window, f)) == Some(minutes)
    requires Detections(country, agile, window, cutoff) == Some(dets)
    ensures ProcessCountry(country, listing, agile, window, cutoff).Some?
    ensures var r := ProcessCountry(country, listing, agile, window, cutoff).value;
            && r.Keys == (set k | k in minutes)
            && (forall k | k in r :: r[k].count == multiset(dets)[k] && (r[k].count == 0 <==> k !in dets))
            && (forall k | k in r :: r[k].maxPossible == 12 * multiset(minutes)[k] && r[k].maxPossible >= 12)
            && (forall k | k in r :: LogGuarded(r[k].maxPossible) == LogOf(r[k].maxPossible))
  {
    assert NightTotals(country, listing, window) == Some(WindowTotals(minutes));
    MergedRows(minutes, dets);
    if minutes == [] {
      assert WindowTotals(minutes) == map[];
    }
  }
}
