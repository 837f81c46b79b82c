/**
 * `phonic_richness_hourly.py` and its copy under `helpers/`: the number of
 * distinct sounds per (country, site, date, hour, treatment).  The two
 * differ only in the clock offset: the first shifts every timestamp by the
 * country's offset, the second (written for recordings whose clocks were
 * already corrected) applies none, which is the offset 0 here
 * (`Recording.NoOffsetIsStrptime`).
 */
module PhonicRichnessHourly {
  import opened Wrappers
  import opened Calendar
  import opened Strptime
  import opened Recording
  import opened Tables
  import PhonicRichness

  /** A row of the hourly coverage table. */
  datatype HourCombo = HourCombo(country: Country, site: string, date: string, hour: nat, treatment: Treatment)

  function SiteDay(c: HourCombo): (r: (string, string)) {
    (c.site, c.date)
  }

  /**
   * One listed path read as an hourly combo: the date and hour of the
   * shifted timestamp; `None` when the timestamp does not parse.
   */
  function HourComboOf(country: Country, offset: int, full: string): (r: Option<HourCombo>)
    ensures r.Some? <==> ShiftedDateTime(FilenamePart(full), offset).Some?
    ensures r.Some? ==>
              var dt := ShiftedDateTime(FilenamePart(full), offset).value;
              && r.value.hour == dt.hour < 24
              && r.value.date == RenderDate(dt.date)
              && r.value.site == ParseSite(FilenamePart(full))
              && r.value.treatment == ParseTreatment(FilenamePart(full))
              && r.value.country == country
  {
    var part := FilenamePart(full);
    match ShiftedDateTime(part, offset)
    case None => None
    case Some(dt) => Some(HourCombo(country, ParseSite(part), RenderDate(dt.date), dt.hour, ParseTreatment(part)))
  }

  /** Without an offset, the date and hour of a canonical name are its characters `[7:15]` and `[16:18]`. */
  lemma HourWithoutOffset(country: Country, head: string, dt: DateTime, tail: string)
    requires |head| == 7 && '/' !in head && '/' !in tail && Valid(dt) && InPythonRange(dt.date)
    ensures var name := CanonicalName(head, dt, tail);
            HourComboOf(country, 0, name).Some?
            && HourComboOf(country, 0, name).value.date == name[7..15]
            && Pad(HourComboOf(country, 0, name).value.hour, 2) == name[16..18]
  {
    CanonicalIsOwnPart(head, dt, tail);
    assert ShiftHours(dt, 0) == dt;
    ShiftedCanonical(head, dt, tail, 0);
    CanonicalDate(head, dt, tail);
    CanonicalHour(head, dt, tail);
  }

  function ParsedFiles(country: Country, offset: int, files: seq<string>): (r: Option<seq<HourCombo>>) {
    ParseEach(files, f => HourComboOf(country, offset, f))
  }

  /**
   * `load_raw_file_list_hourly`: the distinct hourly combos of the listed
   * files, keeping an hour only when its whole (site, date) holds at least
   * 90% of the expected files; none for a missing list, `None` when a name raises.
   */
  function HourlyCoverage(country: Country, offset: int, listing: Option<seq<string>>): (r: Option<seq<HourCombo>>)
    ensures listing.None? ==> r == Some([])
    ensures r.Some? ==> NoDuplicates(r.value)
  {
    match listing
    case None => Some([])
    case Some(files) =>
      match ParsedFiles(country, offset, files)
      case None => None
      case Some(rows) => Some(CoveredDistinct(rows, SiteDay, ExpectedDaily(DutyCycle(country)), 9, 10))
  }

  /** An hourly combo is kept exactly when a file reads as it and its day has enough files. */
  lemma HourlyMembers(country: Country, offset: int, files: seq<string>)
    requires HourlyCoverage(country, offset, Some(files)).Some?
    ensures var rows := ParsedFiles(country, offset, files).value;
      forall c :: c in HourlyCoverage(country, offset, Some(files)).value <==>
        c in rows && Covered(multiset(Keys(rows, SiteDay))[SiteDay(c)], ExpectedDaily(DutyCycle(country)), 9, 10)
  {
  }

  /** Two hours of the same day are kept or dropped together. */
  lemma DayDecidesHours(country: Country, offset: int, files: seq<string>, a: HourCombo, b: HourCombo)
    requires HourlyCoverage(country, offset, Some(files)).Some?
    requires a in ParsedFiles(country, offset, files).value && b in ParsedFiles(country, offset, files).value
    requires a.site == b.site && a.date == b.date
    ensures a in HourlyCoverage(country, offset, Some(files)).value <==> b in HourlyCoverage(country, offset, Some(files)).value
  {
  }

  /** The loop of `load_raw_file_list_hourly` over the listed files, then the daily coverage filter. */
  method LoadRawFileListHourly(country: Country, offset: int, listing: Option<seq<string>>) returns (r: Option<seq<HourCombo>>)
    ensures r == HourlyCoverage(country, offset, listing)
  {
    if listing.None? {
      return Some([]);
    }
    var parsed := ParseRows(listing.value, f => HourComboOf(country, offset, f));
    if parsed.None? {
      return None;
    }
    r := Some(CoveredDistinct(parsed.value, SiteDay, ExpectedDaily(DutyCycle(country)), 9, 10));
  }

  function PresenceRow(country: Country, offset: int): (r: (string, string) -> Outcome<(HourCombo, string)>) {
    KeyedRow((full: string) => HourComboOf(country, offset, full))
  }

  /** `gather_sound_presence_hourly`: one (hourly combo, sound) row per passing detection outside `snap`. */
  function Presence(country: Country, offset: int, agile: Option<seq<Folder>>, cutoff: real)
    : (r: Option<seq<(HourCombo, string)>>)
    ensures agile.None? ==> r == Some([])
  {
    match agile
    case None => Some([])
    case Some(folders) => Collect(folders, PhonicRichness.NotSnap, cutoff, PresenceRow(country, offset))
  }

  /** A presence row comes from a directory other than `snap`, named after the sound, and a passing detection. */
  lemma PresenceSource(country: Country, offset: int, folders: seq<Folder>, cutoff: real, c: HourCombo, s: string)
    requires Presence(country, offset, Some(folders), cutoff).Some?
    requires (c, s) in Presence(country, offset, Some(folders), cutoff).value
    ensures exists f, d | f in folders && d in f.inference.GetOr([]) ::
              f.name == s && f.isDir && PhonicRichness.NotSnap(s) && f.inference.Some?
              && d.logit >= cutoff && HourComboOf(country, offset, d.filename) == Some(c)
  {
    KeyedRowMember(folders, PhonicRichness.NotSnap, cutoff, (full: string) => HourComboOf(country, offset, full), c, s);
  }

  /** The loop of `gather_sound_presence_hourly` over the sound folders and their rows. */
  method GatherSoundPresenceHourly(country: Country, offset: int, agile: Option<seq<Folder>>, cutoff: real)
    returns (r: Option<seq<(HourCombo, string)>>)
    ensures r == Presence(country, offset, agile, cutoff)
  {
    if agile.None? {
      return Some([]);
    }
    r := GatherRows(agile.value, PhonicRichness.NotSnap, cutoff, PresenceRow(country, offset));
  }

  /** The number of distinct sounds per hourly combo. */
  function HourlyCounts(presence: seq<(HourCombo, string)>): (m: map<HourCombo, nat>)
    ensures m.Keys == set p | p in presence :: p.0
    ensures forall c | c in m :: m[c] == |ValuesWith(presence, c)|
    ensures forall c | c in m :: m[c] >= 1
  {
    if presence == [] then map[] else DistinctCounts(presence)
  }

  /** `process_country_phonic_richness_hourly`: the hourly coverage left-joined with the distinct counts. */
  function ProcessCountryHourly(country: Country, offset: int, listing: Option<seq<string>>,
                                agile: Option<seq<Folder>>, cutoff: real): (r: Option<seq<(HourCombo, nat)>>)
    ensures r.Some? <==> HourlyCoverage(country, offset, listing).Some? && Presence(country, offset, agile, cutoff).Some?
  {
    match HourlyCoverage(country, offset, listing)
    case None => None
    case Some(coverage) =>
      match Presence(country, offset, agile, cutoff)
      case None => None
      case Some(presence) => Some(LeftJoin(coverage, HourlyCounts(presence), 0))
  }

  /**
   * Every hourly coverage combo once, in order, with its number of distinct
   * sounds, 0 exactly when no sound was present in that hour.
   */
  lemma HourlyRows(country: Country, offset: int, listing: Option<seq<string>>, agile: Option<seq<Folder>>, cutoff: real,
                   coverage: seq<HourCombo>, presence: seq<(HourCombo, string)>, i: nat)
    requires HourlyCoverage(country, offset, listing) == Some(coverage)
    requires Presence(country, offset, agile, cutoff) == Some(presence)
    requires i < |coverage|
    ensures var r := ProcessCountryHourly(country, offset, listing, agile, cutoff).value;
      && |r| == |coverage|
      && r[i].0 == coverage[i]
      && r[i].1 == |ValuesWith(presence, coverage[i])|
      && (r[i].1 == 0 <==> forall s :: (coverage[i], s) !in presence)
  {
    var c := coverage[i];
    var m := HourlyCounts(presence);
    assert ProcessCountryHourly(country, offset, listing, agile, cutoff).value == LeftJoin(coverage, m, 0);
    if forall s :: (c, s) !in presence {
      assert ValuesWith(presence, c) == {};
      assert c !in m;
    } else {
      var s :| (c, s) in presence;
      assert s in ValuesWith(presence, c);
      assert c in m;
    }
  }
}
