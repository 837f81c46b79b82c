/**
 * `calc_ecofunctions/temporal_overlap.py`: for every sound, the times of
 * day of its detections on well-covered (site, date) pairs, and per
 * treatment the sample a kernel density is estimated from.  A (site, date)
 * is well covered here when it holds at least 95% of the expected files.
 */
module TemporalOverlap {
  import opened Wrappers
  import opened Calendar
  import opened Recording
  import opened Tables

  /** The treatments a kernel is computed for, in legend order; `unknown` is not among them. */
  const Treatments: seq<Treatment> := [Healthy, Degraded, Restored, NewlyRestored]

  /** A listed path's (site, date) as `parse_site` and `parse_date` read its file-name part; `None` when the date raises. */
  function SiteDateOf(full: string): (r: Option<(string, string)>)
    ensures r.Some? <==> ParseDate(FilenamePart(full), 0).Some?
    ensures r.Some? ==> r.value.0 == ParseSite(FilenamePart(full)) && |r.value.1| == 8
  {
    var part := FilenamePart(full);
    match ParseDate(part, 0)
    case None => None
    case Some(d) => Some((ParseSite(part), d))
  }

  /**
   * `get_valid_site_dates`: the (site, date) pairs of the raw list with at
   * least 95% of the expected number of files; none for a missing list,
   * `None` when a listed date raises.
   */
  function ValidSiteDates(country: Country, listing: Option<seq<string>>): (r: Option<set<(string, string)>>)
    ensures listing.None? ==> r == Some({})
    ensures r.None? ==> listing.Some? && exists f | f in listing.value :: SiteDateOf(f).None?
  {
    match listing
    case None => Some({})
    case Some(files) =>
      match ParseEach(files, SiteDateOf)
      case None => None
      case Some(pairs) =>
        var sizes := GroupSizes(pairs);
        Some(set p | p in sizes && Covered(sizes[p], ExpectedDaily(DutyCycle(country)), 19, 20))
  }

  /**
   * A pair is valid exactly when the number of listed files that read as
   * it is at least 95% of the expected number.
   */
  lemma ValidSiteDatesMeaning(country: Country, files: seq<string>, pairs: seq<(string, string)>)
    requires ParseEach(files, SiteDateOf) == Some(pairs)
    ensures ValidSiteDates(country, Some(files)).Some?
    ensures forall p :: p in ValidSiteDates(country, Some(files)).value <==>
              Covered(multiset(pairs)[p], ExpectedDaily(DutyCycle(country)), 19, 20) && p in pairs
  {
    var sizes := GroupSizes(pairs);
    var e := ExpectedDaily(DutyCycle(country));
    var valid := set p | p in sizes && Covered(sizes[p], e, 19, 20);
    assert ValidSiteDates(country, Some(files)) == Some(valid) by {
      assert ParseEach(files, SiteDateOf) == Some(pairs);
    }
    forall p
      ensures p in valid <==> Covered(multiset(pairs)[p], e, 19, 20) && p in pairs
    {
      assert p in sizes <==> p in pairs;
    }
  }

  /** With the configured duty cycles, 95% coverage means 684 files a day in Indonesia and 342 elsewhere. */
  lemma ConfiguredOverlapThreshold(c: Country, n: nat)
    ensures Covered(n, ExpectedDaily(DutyCycle(c)), 19, 20) <==> n >= (if c == Indonesia then 684 else 342)
  {
    ConfiguredExpectations(c);
  }

  /** A detection kept for the kernels: its treatment and its time of day in seconds after midnight. */
  datatype Record = Record(treatment: Treatment, second: nat)

  /**
   * One passing detection: `None`-like `Fail` when its date raises, dropped
   * when its (site, date) is not valid, otherwise its treatment and time of day.
   */
  function RecordOf(valid: set<(string, string)>, full: string): (r: Outcome<Record>)
    ensures r.Fail? <==> SiteDateOf(full).None?
    ensures r.Keep? <==> SiteDateOf(full).Some? && SiteDateOf(full).value in valid
    ensures r.Keep? ==> r.row.treatment == ParseTreatment(FilenamePart(full))
                        && r.row.second < 86400
                        && r.row.second == SecondOfDay(ParseDateTime(FilenamePart(full)).value)
  {
    var part := FilenamePart(full);
    var site := ParseSite(part);
    match ParseDate(part, 0)
    case None => Fail
    case Some(date) =>
      if (site, date) !in valid then Drop
      else
        match ParseDateTime(part)
        case None => Drop
        case Some(dt) => Keep(Record(ParseTreatment(part), SecondOfDay(dt)))
  }

  /** The rows of an inference table at or above the hard-coded logit cut of 1.0. */
  function Passing(dets: seq<Detection>): (r: seq<Detection>)
    ensures forall d :: d in r <==> d in dets && d.logit >= 1.0
  {
    var r := Filter(dets, (d: Detection) => d.logit >= 1.0);
    assert forall d :: d in r <==> multiset(r)[d] > 0;
    r
  }

  /**
   * The records of one sound folder: skipped (`Drop`) when it is not a
   * directory, has no inference table, has no passing row or no passing row
   * on a valid pair; `Fail` when a passing row's date raises.
   */
  function SoundRecords(valid: set<(string, string)>, f: Folder): (r: Outcome<seq<Record>>)
    ensures r.Keep? ==> f.isDir && f.inference.Some? && r.row != []
  {
    if !f.isDir || f.inference.None? then Drop
    else
      var passing := Passing(f.inference.value);
      if passing == [] then Drop
      else
        match KeepEach(passing, (d: Detection) => RecordOf(valid, d.filename))
        case None => Fail
        case Some(records) => if records == [] then Drop else Keep(records)
  }

  /**
   * A sound's records come only from passing detections on valid pairs, and
   * every passing detection on a valid pair gives one.
   */
  lemma SoundRecordsSource(valid: set<(string, string)>, f: Folder)
    requires SoundRecords(valid, f).Keep?
    ensures forall x :: x in SoundRecords(valid, f).row <==>
              exists d | d in f.inference.value ::
                d.logit >= 1.0 && SiteDateOf(d.filename).Some? && SiteDateOf(d.filename).value in valid
                && RecordOf(valid, d.filename) == Keep(x)
  {
    var step := (d: Detection) => RecordOf(valid, d.filename);
    KeepEachRows(Passing(f.inference.value), step);
  }

  /** The loop of `process_sound_country` over one table's passing rows. */
  method ReadSoundRecords(valid: set<(string, string)>, f: Folder) returns (r: Outcome<seq<Record>>)
    ensures r == SoundRecords(valid, f)
  {
    if !f.isDir || f.inference.None? {
      return Drop;
    }
    var passing := Passing(f.inference.value);
    if passing == [] {
      return Drop;
    }
    var records := KeepRows(passing, (d: Detection) => RecordOf(valid, d.filename));
    if records.None? {
      return Fail;
    }
    r := if records.value == [] then Drop else Keep(records.value);
  }

  /** The treatment column of the records. */
  function TreatmentOf(x: Record): (r: Treatment) {
    x.treatment
  }

  /** The times of day of the records of one treatment, in order. */
  function TimesOf(records: seq<Record>, t: Treatment): (r: seq<nat>)
    ensures |r| == multiset(Keys(records, TreatmentOf))[t]
    ensures forall s :: s in r <==> Record(t, s) in records
  {
    if records == [] then []
    else
      var init := records[..|records| - 1];
      var x := records[|records| - 1];
      assert records == init + [x];
      assert Keys(records, TreatmentOf) == Keys(init, TreatmentOf) + [x.treatment];
      if x.treatment == t then TimesOf(init, t) + [x.second] else TimesOf(init, t)
  }

  /** One treatment's entry of the kernels table: the sample its density is estimated from, `None` when it has none. */
  datatype Kernel = Kernel(treatment: Treatment, sample: Option<seq<nat>>)

  /**
   * The kernels table for the given treatments, in their order: every
   * treatment gets an entry, `None` exactly when no record has it.
   */
  function Kernels(records: seq<Record>, ts: seq<Treatment>): (r: seq<Kernel>)
    ensures |r| == |ts|
    ensures forall i | 0 <= i < |ts| :: r[i].treatment == ts[i]
    ensures forall i | 0 <= i < |ts| :: r[i].sample.None? <==> forall x | x in records :: x.treatment != ts[i]
    ensures forall i | 0 <= i < |ts| :: r[i].sample.Some? ==> r[i].sample.value == TimesOf(records, ts[i])
  {
    seq(|ts|, i requires 0 <= i < |ts| =>
      var times := TimesOf(records, ts[i]);
      assert times == [] <==> forall x | x in records :: x.treatment != ts[i] by {
        if times != [] {
          assert Record(ts[i], times[0]) in records;
        }
        assert forall x | x in records :: x == Record(x.treatment, x.second);
      }
      Kernel(ts[i], if times == [] then None else Some(times)))
  }

  /** What one sound yields: its name, its records (the saved raw detection times) and its kernels. */
  datatype SoundKernels = SoundKernels(sound: string, records: seq<Record>, kernels: seq<Kernel>)

  function ProcessSound(valid: set<(string, string)>, f: Folder): (r: Outcome<SoundKernels>)
    ensures r.Fail? <==> SoundRecords(valid, f).Fail?
    ensures r.Keep? ==> SoundRecords(valid, f).Keep? && r.row.sound == f.name && r.row.records == SoundRecords(valid, f).row
                        && |r.row.kernels| == 4
  {
    match SoundRecords(valid, f)
    case Fail => Fail
    case Drop => Drop
    case Keep(records) => Keep(SoundKernels(f.name, records, Kernels(records, Treatments)))
  }

  /**
   * `main` with `process_sound_country` for one country: nothing when no
   * pair is valid or there is no `agile_outputs`; `None` when a date raises.
   */
  function ProcessCountry(country: Country, listing: Option<seq<string>>, agile: Option<seq<Folder>>)
    : (r: Option<seq<SoundKernels>>)
    ensures ValidSiteDates(country, listing) == Some({}) ==> r == Some([])
    ensures agile.None? && ValidSiteDates(country, listing).Some? ==> r == Some([])
  {
    match ValidSiteDates(country, listing)
    case None => None
    case Some(valid) =>
      if valid == {} then Some([])
      else
        match agile
        case None => Some([])
        case Some(folders) => KeepEach(folders, f => ProcessSound(valid, f))
  }

  /**
   * Every sound in the output comes from a folder whose records are all on
   * valid pairs and non-empty, with one kernel entry per treatment in
   * legend order.
   */
  lemma ProcessCountrySounds(country: Country, listing: Option<seq<string>>, folders: seq<Folder>,
                             valid: set<(string, string)>)
    requires ValidSiteDates(country, listing) == Some(valid) && valid != {}
    requires ProcessCountry(country, listing, Some(folders)).Some?
    ensures forall s | s in ProcessCountry(country, listing, Some(folders)).value ::
              && (exists f | f in folders :: f.name == s.sound && SoundRecords(valid, f) == Keep(s.records))
              && s.records != []
              && Keys(s.kernels, (k: Kernel) => k.treatment) == Treatments
  {
    SoundsOfFolders(valid, folders, ProcessCountry(country, listing, Some(folders)).value);
  }

  /** The sounds the loop keeps each come from a folder with non-empty records and have a kernel per treatment. */
  lemma SoundsOfFolders(valid: set<(string, string)>, folders: seq<Folder>, out: seq<SoundKernels>)
    requires KeepEach(folders, f => ProcessSound(valid, f)) == Some(out)
    ensures forall s | s in out ::
              && (exists f | f in folders :: f.name == s.sound && SoundRecords(valid, f) == Keep(s.records))
              && s.records != []
              && Keys(s.kernels, (k: Kernel) => k.treatment) == Treatments
  {
    KeepEachRows(folders, f => ProcessSound(valid, f));
    forall s | s in out
      ensures Keys(s.kernels, (k: Kernel) => k.treatment) == Treatments
    {
      var f :| f in folders && ProcessSound(valid, f) == Keep(s);
      assert Keys(s.kernels, (k: Kernel) => k.treatment) == Keys(Kernels(s.records, Treatments), (k: Kernel) => k.treatment);
    }
  }

  /** The loop of `process_sound_country` over the sound folders. */
  method ProcessSoundCountry(valid: set<(string, string)>, folders: seq<Folder>) returns (r: Option<seq<SoundKernels>>)
    ensures r == KeepEach(folders, f => ProcessSound(valid, f))
  {
    var step := f => ProcessSound(valid, f);
    var acc: seq<SoundKernels> := [];
    var i := 0;
    while i < |folders|
      invariant 0 <= i <= |folders|
      invariant KeepEach(folders[..i], step) == Some(acc)
    {
      assert folders[..i + 1][..i] == folders[..i];
      var f := folders[i];
      var records := ReadSoundRecords(valid, f);
      if records.Fail? {
        KeepEachFailurePersists(folders, i + 1, step);
        return None;
      } else if records.Keep? {
        acc := acc + [SoundKernels(f.name, records.row, Kernels(records.row, Treatments))];
      }
      i := i + 1;
    }
    assert folders[..i] == folders;
    r := Some(acc);
  }
}
