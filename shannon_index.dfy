/**
 * `shannon_index.py`: the daily Shannon diversity of sounds per
 * (country, site, date, treatment) on the covered days.  The logarithm is
 * not evaluated: a group's index is kept as the per-sound counts it is
 * computed from.
 */
module ShannonIndex {
  import opened Wrappers
  import opened Recording
  import opened Tables
  import opened CombineCounts

  /** A sound detected for a combo. */
  type SoundKey = (Combo, string)

  /** `gather_sound_counts` reads every directory that has its inference table; no folder is skipped by name. */
  predicate AnySound(name: string) {
    true
  }

  /** A passing detection of `sound`, read as a (combo, sound) key; a name that does not parse raises. */
  function SoundRow(country: Country): (r: (string, string) -> Outcome<SoundKey>) {
    KeyedRow((full: string) => ComboOf(country, Offset(country), full))
  }

  /**
   * `gather_sound_counts`: the number of passing detections per
   * (combo, sound), every count at least 1; nothing without an
   * `agile_outputs` directory; `None` when a passing row raises.
   */
  function SoundCounts(country: Country, agile: Option<seq<Folder>>, cutoff: real): (r: Option<map<SoundKey, nat>>)
    ensures agile.None? ==> r == Some(map[])
    ensures r.Some? ==> forall k | k in r.value :: r.value[k] >= 1
  {
    match agile
    case None => Some(map[])
    case Some(folders) =>
      match Collect(folders, AnySound, cutoff, SoundRow(country))
      case None => None
      case Some(rows) => Some(GroupSizes(rows))
  }

  /** A detection of `s` that reads as `c`, in a directory holding its inference table. */
  predicate DetectedIn(folders: seq<Folder>, country: Country, cutoff: real, c: Combo, s: string) {
    exists f, d | f in folders && f.isDir && f.inference.Some? && d in f.inference.value ::
      f.name == s && d.logit >= cutoff && ComboOf(country, Offset(country), d.filename) == Some(c)
  }

  lemma SoundRowMember(country: Country, folders: seq<Folder>, cutoff: real, c: Combo, s: string)
    requires Collect(folders, AnySound, cutoff, SoundRow(country)).Some?
    ensures (c, s) in Collect(folders, AnySound, cutoff, SoundRow(country)).value <==> DetectedIn(folders, country, cutoff, c, s)
  {
    KeyedRowMember(folders, AnySound, cutoff, (full: string) => ComboOf(country, Offset(country), full), c, s);
  }

  /**
   * A (combo, sound) is counted exactly when a folder named after the sound
   * is a directory holding its inference table with a passing detection
   * that reads as the combo; folders without the table contribute nothing.
   */
  lemma SoundCountKeys(country: Country, folders: seq<Folder>, cutoff: real)
    requires SoundCounts(country, Some(folders), cutoff).Some?
    ensures forall c, s :: (c, s) in SoundCounts(country, Some(folders), cutoff).value <==>
                           DetectedIn(folders, country, cutoff, c, s)
  {
    forall c, s ensures (c, s) in SoundCounts(country, Some(folders), cutoff).value <==>
                        DetectedIn(folders, country, cutoff, c, s) {
      SoundRowMember(country, folders, cutoff, c, s);
    }
  }

  /** The loop of `gather_sound_counts` over the sound folders and their rows, then the group count. */
  method GatherSoundCounts(country: Country, agile: Option<seq<Folder>>, cutoff: real) returns (r: Option<map<SoundKey, nat>>)
    ensures r == SoundCounts(country, agile, cutoff)
  {
    if agile.None? {
      return Some(map[]);
    }
    var rows := GatherRows(agile.value, AnySound, cutoff, SoundRow(country));
    if rows.None? {
      return None;
    }
    r := Some(GroupSizes(rows.value));
  }

  /** A Shannon index: zero, or `-sum p ln p` over the shares of these per-sound counts. */
  datatype Shannon = Zero | Entropy(counts: map<string, nat>)

  /** The sum of the counts of a group. */
  ghost function Total(group: map<string, nat>): (t: nat)
    ensures t == 0 <==> forall s | s in group :: group[s] == 0
    decreases |group|
  {
    if group == map[] then 0
    else
      var s :| s in group;
      var rest := group - {s};
      assert forall u | u in group :: u == s || u in rest;
      group[s] + Total(rest)
  }

  /** `compute_shannon`: zero when the group's total is zero, otherwise the entropy of its counts. */
  ghost function ComputeShannon(group: map<string, nat>): (h: Shannon)
    ensures h == Zero <==> forall s | s in group :: group[s] == 0
  {
    if Total(group) == 0 then Zero else Entropy(group)
  }

  /** The per-sound counts of one combo. */
  function GroupOf(counts: map<SoundKey, nat>, c: Combo): (g: map<string, nat>)
    ensures forall s :: s in g <==> (c, s) in counts
    ensures forall s | s in g :: g[s] == counts[(c, s)]
  {
    map k | k in counts && k.0 == c :: k.1 := counts[k]
  }

  /** The combos that have at least one sound. */
  function CombosOf(counts: map<SoundKey, nat>): (r: set<Combo>) {
    set k | k in counts :: k.0
  }

  /**
   * `process_country_shannon`: the coverage combos, each with the index of
   * its sounds' counts, or zero when it has none; `None` when an input raises.
   */
  ghost function ProcessCountryShannon(country: Country, listing: Option<seq<string>>, agile: Option<seq<Folder>>,
                                       cutoff: real): (r: Option<seq<(Combo, Shannon)>>)
    ensures r.Some? <==> RawCombos(country, Offset(country), listing).Some?
                         && SoundCounts(country, agile, cutoff).Some?
  {
    match RawCombos(country, Offset(country), listing)
    case None => None
    case Some(coverage) =>
      match SoundCounts(country, agile, cutoff)
      case None => None
      case Some(counts) =>
        if counts == map[] then Some(LeftJoin(coverage, map[], Zero))
        else
          var sh := map c | c in CombosOf(counts) :: ComputeShannon(GroupOf(counts, c));
          Some(LeftJoin(coverage, sh, Zero))
  }

  /**
   * One row per coverage combo, in order, and a combo's index takes the
   * zero-total branch exactly when none of its sounds was detected: every
   * gathered count is at least 1, so a detected combo never hits that
   * branch.  (Its value can still be 0.0; see `ShannonValueZero`.)
   */
  lemma ShannonRows(country: Country, listing: Option<seq<string>>, agile: Option<seq<Folder>>, cutoff: real,
                    coverage: seq<Combo>, counts: map<SoundKey, nat>)
    requires RawCombos(country, Offset(country), listing) == Some(coverage)
    requires SoundCounts(country, agile, cutoff) == Some(counts)
    ensures var r := ProcessCountryShannon(country, listing, agile, cutoff).value;
      && |r| == |coverage|
      && (forall i | 0 <= i < |coverage| :: r[i].0 == coverage[i])
      && (forall i | 0 <= i < |coverage| :: r[i].1 == Zero <==> forall s :: (coverage[i], s) !in counts)
      && (forall i | 0 <= i < |coverage| :: r[i].1 != Zero ==> r[i].1 == Entropy(GroupOf(counts, coverage[i])))
  {
    var r := ProcessCountryShannon(country, listing, agile, cutoff).value;
    forall i | 0 <= i < |coverage|
      ensures r[i].1 == Zero <==> forall s :: (coverage[i], s) !in counts
    {
      var c := coverage[i];
      if exists s :: (c, s) in counts {
        var s :| (c, s) in counts;
        assert c in CombosOf(counts);
        assert GroupOf(counts, c)[s] >= 1;
      }
    }
  }

  /**
   * Whether `-sum p ln p` evaluates to 0.0: the zero branch, or all of the
   * group's detections on one sound, whose share is 1 and `ln 1` is 0.
   * With two or more sounds, each counted at least once, every share is
   * below 1 and the sum is positive.
   */
  ghost predicate NumericallyZero(h: Shannon) {
    match h
    case Zero => true
    case Entropy(group) => |group.Keys| <= 1
  }

  /** The sounds detected for a combo. */
  ghost function SoundsOf(counts: map<SoundKey, nat>, c: Combo): (r: set<string>) {
    set k | k in counts && k.0 == c :: k.1
  }

  /**
   * A combo's index comes out as 0.0 exactly when at most one of its sounds
   * was detected: none (the zero-total branch) or a single one.
   */
  lemma ShannonValueZero(country: Country, listing: Option<seq<string>>, agile: Option<seq<Folder>>, cutoff: real,
                         coverage: seq<Combo>, counts: map<SoundKey, nat>, i: nat)
    requires RawCombos(country, Offset(country), listing) == Some(coverage)
    requires SoundCounts(country, agile, cutoff) == Some(counts)
    requires i < |coverage|
    ensures NumericallyZero(ProcessCountryShannon(country, listing, agile, cutoff).value[i].1)
            <==> |SoundsOf(counts, coverage[i])| <= 1
  {
    ShannonRows(country, listing, agile, cutoff, coverage, counts);
    IndexZero(counts, coverage[i], ProcessCountryShannon(country, listing, agile, cutoff).value[i].1);
  }

  /** An index of a combo's sounds, as the table holds it, is 0.0 exactly when at most one sound was detected. */
  lemma IndexZero(counts: map<SoundKey, nat>, c: Combo, h: Shannon)
    requires h == Zero <==> forall s :: (c, s) !in counts
    requires h != Zero ==> h == Entropy(GroupOf(counts, c))
    ensures NumericallyZero(h) <==> |SoundsOf(counts, c)| <= 1
  {
    if h == Zero {
      assert SoundsOf(counts, c) == {};
    } else {
      assert GroupOf(counts, c).Keys == SoundsOf(counts, c);
    }
  }

  /** Without any detected sound every covered combo gets index zero. */
  lemma NoSoundsAllZero(country: Country, listing: Option<seq<string>>, agile: Option<seq<Folder>>, cutoff: real)
    requires SoundCounts(country, agile, cutoff) == Some(map[])
    requires RawCombos(country, Offset(country), listing).Some?
    ensures forall row | row in ProcessCountryShannon(country, listing, agile, cutoff).value :: row.1 == Zero
  {
  }
}
