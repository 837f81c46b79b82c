/**
 * `calc_ecofunctions/phonic_richness.py`: the number of distinct sounds
 * detected per (country, site, date, treatment) on the covered days.  The
 * coverage table and the date parse come from `count_ecofunctions`, which is
 * not part of this model; they are taken to be those of `combine_counts.py`
 * with no clock offset.
 */
module PhonicRichness {
  import opened Wrappers
  import opened Text
  import opened Recording
  import opened Tables
  import opened CombineCounts

  /** The folder named `snap`, in any letter case, is not a sound. */
  predicate NotSnap(name: string) {
    Lower(name) != "snap"
  }

  /** Only the exact name is refused: `snaps` is a sound. */
  lemma SnapOnly()
    ensures !NotSnap("snap") && !NotSnap("Snap") && !NotSnap("SNAP")
    ensures NotSnap("snaps") && NotSnap("snap_old")
  {
    assert Lower("snaps") != "snap" by { assert |Lower("snaps")| == 5; }
    assert Lower("snap_old") != "snap" by { assert |Lower("snap_old")| == 8; }
  }

  /** A passing detection read as (combo, sound); a name that does not parse raises. */
  function PresenceRow(country: Country): (r: (string, string) -> Outcome<(Combo, string)>) {
    KeyedRow((full: string) => ComboOf(country, 0, full))
  }

  /**
   * `gather_sound_presence`: one (combo, sound) row per passing detection,
   * from every directory but `snap` that holds its inference table; none
   * without an `agile_outputs` directory.
   */
  function Presence(country: Country, agile: Option<seq<Folder>>, cutoff: real): (r: Option<seq<(Combo, string)>>)
    ensures agile.None? ==> r == Some([])
  {
    match agile
    case None => Some([])
    case Some(folders) => Collect(folders, NotSnap, cutoff, PresenceRow(country))
  }

  /** The loop of `gather_sound_presence` over the sound folders and their rows. */
  method GatherSoundPresence(country: Country, agile: Option<seq<Folder>>, cutoff: real) returns (r: Option<seq<(Combo, string)>>)
    ensures r == Presence(country, agile, cutoff)
  {
    if agile.None? {
      return Some([]);
    }
    r := GatherRows(agile.value, NotSnap, cutoff, PresenceRow(country));
  }

  /**
   * A presence row names the folder it came from, which is a directory,
   * not `snap`, and holds its inference table, and a detection at or above
   * the cutoff that reads as the combo.
   */
  lemma PresenceSource(country: Country, folders: seq<Folder>, cutoff: real, c: Combo, s: string)
    requires Presence(country, Some(folders), cutoff).Some?
    requires (c, s) in Presence(country, Some(folders), cutoff).value
    ensures exists f, d | f in folders && d in f.inference.GetOr([]) ::
              f.name == s && f.isDir && NotSnap(s) && f.inference.Some?
              && d.logit >= cutoff && ComboOf(country, 0, d.filename) == Some(c)
  {
    KeyedRowMember(folders, NotSnap, cutoff, (full: string) => ComboOf(country, 0, full), c, s);
  }

  /** The number of distinct sounds per combo; no counts at all when nothing was present. */
  function RichnessCounts(presence: seq<(Combo, string)>): (m: map<Combo, nat>)
    ensures forall c | c in m :: m[c] == |ValuesWith(presence, c)|
    ensures forall c | c in m :: m[c] >= 1
    ensures m.Keys == set p | p in presence :: p.0
  {
    if presence == [] then map[] else DistinctCounts(presence)
  }

  /**
   * `process_country_phonic_richness`: every coverage combo, in order, with
   * its number of distinct sounds, 0 when none was present.
   */
  function ProcessCountryRichness(country: Country, listing: Option<seq<string>>, agile: Option<seq<Folder>>, cutoff: real)
    : (r: Option<seq<(Combo, nat)>>)
    ensures r.Some? <==> RawCombos(country, 0, listing).Some? && Presence(country, agile, cutoff).Some?
  {
    match RawCombos(country, 0, listing)
    case None => None
    case Some(coverage) =>
      match Presence(country, agile, cutoff)
      case None => None
      case Some(presence) => Some(LeftJoin(coverage, RichnessCounts(presence), 0))
  }

  /** The distinct names among some folders are no more than the folders. */
  lemma NamesBound(folders: seq<Folder>)
    ensures |set f | f in folders :: f.name| <= |folders|
  {
    if folders != [] {
      var init := folders[..|folders| - 1];
      NamesBound(init);
      assert folders == init + [folders[|folders| - 1]];
      assert (set f | f in folders :: f.name) == (set f | f in init :: f.name) + {folders[|folders| - 1].name};
    }
  }

  /** The sounds present for a combo are names of folders, so there are no more of them than folders. */
  lemma SoundsBound(country: Country, folders: seq<Folder>, cutoff: real, presence: seq<(Combo, string)>, c: Combo)
    requires Presence(country, Some(folders), cutoff) == Some(presence)
    ensures |ValuesWith(presence, c)| <= |folders|
  {
    var sounds := ValuesWith(presence, c);
    var names := set f | f in folders :: f.name;
    forall s | s in sounds ensures s in names {
      PresenceSource(country, folders, cutoff, c, s);
    }
    SubsetCard(sounds, names);
    NamesBound(folders);
  }

  /**
   * A combo's richness counts each present sound once, so it never exceeds
   * the number of sound folders, and it is 0 exactly when no sound was present.
   */
  lemma RichnessBounds(country: Country, listing: Option<seq<string>>, folders: seq<Folder>, cutoff: real,
                       coverage: seq<Combo>, presence: seq<(Combo, string)>, i: nat)
    requires RawCombos(country, 0, listing) == Some(coverage)
    requires Presence(country, Some(folders), cutoff) == Some(presence)
    requires i < |coverage|
    ensures var row := ProcessCountryRichness(country, listing, Some(folders), cutoff).value[i];
      && row.0 == coverage[i]
      && row.1 == |ValuesWith(presence, coverage[i])|
      && row.1 <= |folders|
      && (row.1 == 0 <==> forall s :: (coverage[i], s) !in presence)
  {
    var c := coverage[i];
    var m := RichnessCounts(presence);
    assert ProcessCountryRichness(country, listing, Some(folders), cutoff).value == LeftJoin(coverage, m, 0);
    var sounds := ValuesWith(presence, c);
    SoundsBound(country, folders, cutoff, presence, c);
    if forall s :: (c, s) !in presence {
      assert sounds == {};
      assert c !in m;
    } else {
      var s :| (c, s) in presence;
      assert s in sounds;
      assert c in m;
    }
  }

  /** One more detection never lowers any combo's richness. */
  lemma RichnessMonotone(presence: seq<(Combo, string)>, p: (Combo, string))
    ensures forall c | c in RichnessCounts(presence) ::
      c in RichnessCounts(presence + [p]) && RichnessCounts(presence)[c] <= RichnessCounts(presence + [p])[c]
  {
    if presence != [] {
      DistinctCountsMonotone(presence, p);
    }
  }

  /** A repeated detection of a sound already present for the combo changes no count. */
  lemma RichnessRepeat(presence: seq<(Combo, string)>, p: (Combo, string))
    requires p in presence
    ensures RichnessCounts(presence + [p]) == RichnessCounts(presence)
  {
    DistinctCountsRepeat(presence, p);
  }
}
