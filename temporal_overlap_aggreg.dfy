/**
 * `calc_ecofunctions/temporal_overlap_aggreg.py`: the same valid pairs and
 * records as the per-sound kernels, but a sound is plotted only when it has
 * at least 100 records in every treatment of one of two groupings, and the
 * plot shows the treatments of the grouping it qualifies for.
 */
module TemporalOverlapAggreg {
  import opened Wrappers
  import opened Recording
  import opened Tables
  import opened TemporalOverlap

  /** The first grouping, without the newly restored reefs. */
  const Group1: seq<Treatment> := [Healthy, Degraded, Restored]
  /** The second grouping, without the restored reefs. */
  const Group2: seq<Treatment> := [Healthy, Degraded, NewlyRestored]
  /** The number of records every treatment of a grouping needs. */
  const MinDetections: nat := 100

  /** `counts.get(t, 0)`: the records of one treatment, 0 when there is none. */
  function CountOf(records: seq<Record>, t: Treatment): (n: nat)
    ensures n == |TimesOf(records, t)|
    ensures n == 0 <==> forall x | x in records :: x.treatment != t
  {
    var times := TimesOf(records, t);
    assert times == [] <==> forall x | x in records :: x.treatment != t by {
      if times != [] {
        assert Record(t, times[0]) in records;
      }
      assert forall x | x in records :: x == Record(x.treatment, x.second);
    }
    multiset(Keys(records, TreatmentOf))[t]
  }

  /** Every treatment of the grouping has at least 100 records. */
  predicate GroupOk(records: seq<Record>, group: seq<Treatment>) {
    forall t | t in group :: CountOf(records, t) >= MinDetections
  }

  /**
   * The treatments plotted for the two criteria: all four when both hold,
   * the grouping that holds when one does, nothing when neither does.
   */
  function PlotTreatments(group1Ok: bool, group2Ok: bool): (r: Option<seq<Treatment>>)
    ensures r.None? <==> !group1Ok && !group2Ok
    ensures r.Some? ==> Subsequence(r.value, Treatments) && Healthy in r.value && Degraded in r.value
    ensures r.Some? ==> (Restored in r.value <==> group1Ok) && (NewlyRestored in r.value <==> group2Ok)
  {
    if !group1Ok && !group2Ok then None
    else if group1Ok && group2Ok then Some(Treatments)
    else if group1Ok then Some(Group1)
    else Some(Group2)
  }

  /** What an aggregated plot shows: the sound, the treatments in the legend and their kernels. */
  datatype AggregPlot = AggregPlot(sound: string, treatments: seq<Treatment>, kernels: seq<Kernel>)

  /** One sound folder: skipped as the per-sound kernels skip it, or when it meets neither grouping. */
  function AggregSound(valid: set<(string, string)>, f: Folder): (r: Outcome<AggregPlot>)
    ensures r.Fail? <==> SoundRecords(valid, f).Fail?
  {
    match SoundRecords(valid, f)
    case Fail => Fail
    case Drop => Drop
    case Keep(records) =>
      match PlotTreatments(GroupOk(records, Group1), GroupOk(records, Group2))
      case None => Drop
      case Some(ts) => Keep(AggregPlot(f.name, ts, Kernels(records, ts)))
  }

  /**
   * A plotted sound has at least 100 records in every treatment of its
   * legend, its legend holds all four treatments exactly when both
   * groupings qualify, and each legend entry has its kernel sample.
   */
  lemma AggregPlotMeaning(valid: set<(string, string)>, f: Folder)
    requires AggregSound(valid, f).Keep?
    ensures var p := AggregSound(valid, f).row;
            var records := SoundRecords(valid, f).row;
            && SoundRecords(valid, f).Keep?
            && p.sound == f.name
            && (forall t | t in p.treatments :: CountOf(records, t) >= MinDetections)
            && (p.treatments == Treatments <==> GroupOk(records, Group1) && GroupOk(records, Group2))
            && |p.kernels| == |p.treatments|
            && (forall i | 0 <= i < |p.treatments| ::
                  p.kernels[i].treatment == p.treatments[i] && p.kernels[i].sample == Some(TimesOf(records, p.treatments[i])))
  {
    var records := SoundRecords(valid, f).row;
    PlotCounts(records);
    CountedKernels(records, PlotTreatments(GroupOk(records, Group1), GroupOk(records, Group2)).value);
  }

  /** When every treatment of a legend has records, each of its kernels has the treatment's times as its sample. */
  lemma CountedKernels(records: seq<Record>, ts: seq<Treatment>)
    requires forall t | t in ts :: CountOf(records, t) >= MinDetections
    ensures forall i | 0 <= i < |ts| :: Kernels(records, ts)[i].sample == Some(TimesOf(records, ts[i]))
  {
    var r := Kernels(records, ts);
    forall i | 0 <= i < |ts|
      ensures r[i].sample == Some(TimesOf(records, ts[i]))
    {
      assert ts[i] in ts;
    }
  }

  /** Every treatment of a legend has at least 100 records, and the legend is all four exactly when both groupings qualify. */
  lemma PlotCounts(records: seq<Record>)
    requires PlotTreatments(GroupOk(records, Group1), GroupOk(records, Group2)).Some?
    ensures var ts := PlotTreatments(GroupOk(records, Group1), GroupOk(records, Group2)).value;
            && (forall t | t in ts :: CountOf(records, t) >= MinDetections)
            && (ts == Treatments <==> GroupOk(records, Group1) && GroupOk(records, Group2))
  {
    var g1 := GroupOk(records, Group1);
    var g2 := GroupOk(records, Group2);
    var ts := PlotTreatments(g1, g2).value;
    forall t | t in ts
      ensures CountOf(records, t) >= MinDetections
    {
      if g1 && t in Group1 {
      } else {
        assert g2 && t in Group2;
      }
    }
  }

  /** A sound short of 100 records of a treatment in each grouping is not plotted. */
  lemma AggregSkipped(valid: set<(string, string)>, f: Folder, t1: Treatment, t2: Treatment)
    requires SoundRecords(valid, f).Keep?
    requires t1 in Group1 && CountOf(SoundRecords(valid, f).row, t1) < MinDetections
    requires t2 in Group2 && CountOf(SoundRecords(valid, f).row, t2) < MinDetections
    ensures AggregSound(valid, f) == Drop
  {
  }

  /** `main` with this script's `process_sound_country` for one country. */
  function ProcessCountry(country: Country, listing: Option<seq<string>>, agile: Option<seq<Folder>>)
    : (r: Option<seq<AggregPlot>>)
    ensures ValidSiteDates(country, listing) == Some({}) ==> r == Some([])
    ensures agile.None? && ValidSiteDates(country, listing).Some? ==> r == Some([])
  {
    match ValidSiteDates(country, listing)
    case None => None
    case Some(valid) =>
      if valid == {} then Some([])
      else
        match agile
        case None => Some([])
        case Some(folders) => KeepEach(folders, f => AggregSound(valid, f))
  }

  /** The loop of `process_sound_country` over the sound folders. */
  method AggregSoundCountry(valid: set<(string, string)>, folders: seq<Folder>) returns (r: Option<seq<AggregPlot>>)
    ensures r == KeepEach(folders, f => AggregSound(valid, f))
  {
    var step := f => AggregSound(valid, f);
    var acc: seq<AggregPlot> := [];
    var i := 0;
    while i < |folders|
      invariant 0 <= i <= |folders|
      invariant KeepEach(folders[..i], step) == Some(acc)
    {
      var out := AggregOne(valid, folders[i]);
      KeepEachStep(folders, i, step, acc);
      if out.Fail? {
        KeepEachFailurePersists(folders, i + 1, step);
        return None;
      } else if out.Keep? {
        acc := acc + [out.row];
      }
      i := i + 1;
    }
    assert folders[..i] == folders;
    r := Some(acc);
  }

  /** The body of the loop for one sound folder: read its records, then plot it when a grouping qualifies. */
  method AggregOne(valid: set<(string, string)>, f: Folder) returns (out: Outcome<AggregPlot>)
    ensures out == AggregSound(valid, f)
  {
    var records := ReadSoundRecords(valid, f);
    if records.Fail? {
      return Fail;
    } else if records.Drop? {
      return Drop;
    }
    var ts := PlotTreatments(GroupOk(records.row, Group1), GroupOk(records.row, Group2));
    if ts.None? {
      return Drop;
    }
    out := Keep(AggregPlot(f.name, ts.value, Kernels(records.row, ts.value)));
  }
}
