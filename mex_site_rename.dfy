/**
 * `helpers/mex_site_rename.py`: the Mexico sites are renumbered in two
 * passes over the recordings folder, `R2` to `N1` and then `R3` to `R2`,
 * by rewriting the second `_`-field of each name.
 */
module MexSiteRename {
  import opened Wrappers
  import opened Text
  import opened Renaming

  /** The entries a pass looks at: files whose upper-cased name ends in `.WAV`, with at least three `_`-fields. */
  predicate Candidate(e: Entry) {
    e.isFile && EndsWith(Upper(e.name), ".WAV") && |Split(e.name, '_')| >= 3
  }

  /** One pass: a candidate whose site field is `from` gets `to` there, the fields joined again with `_`. */
  function SiteRule(from: string, to: string): (r: Entry -> Option<string>)
  {
    e => if Candidate(e) && Split(e.name, '_')[1] == from then Some(Join(Split(e.name, '_')[1 := to], '_')) else None
  }

  /** The first pass, `R2` to `N1`. */
  function FirstPass(): (r: Entry -> Option<string>) {
    SiteRule("R2", "N1")
  }

  /** The second pass, `R3` to `R2`. */
  function SecondPass(): (r: Entry -> Option<string>) {
    SiteRule("R3", "R2")
  }

  /**
   * A pass renames exactly the candidates with site `from`, and of their
   * fields only the site changes.
   */
  lemma SiteRuleMeaning(e: Entry, from: string, to: string)
    requires '_' !in to
    ensures SiteRule(from, to)(e).Some? <==> Candidate(e) && Split(e.name, '_')[1] == from
    ensures SiteRule(from, to)(e).Some? ==> Split(SiteRule(from, to)(e).value, '_') == Split(e.name, '_')[1 := to]
  {
    var parts := Split(e.name, '_');
    if Candidate(e) && parts[1] == from {
      SplitJoin(parts[1 := to], '_');
    }
  }

  /** A name `<a>_<site>_<rest>`. */
  function SiteName(a: string, site: string, rest: string): (r: string) {
    a + "_" + site + "_" + rest
  }

  /** Such a name is a candidate with that site, and setting its site field gives the name with the new site. */
  lemma SiteNameFields(a: string, site: string, rest: string, to: string)
    requires '_' !in a && '_' !in site && '_' !in to
    requires EndsWith(Upper(rest), ".WAV")
    ensures Candidate(Entry(SiteName(a, site, rest), true))
    ensures Split(SiteName(a, site, rest), '_')[1] == site
    ensures Join(Split(SiteName(a, site, rest), '_')[1 := to], '_') == SiteName(a, to, rest)
  {
    var n := SiteName(a, site, rest);
    var tail := Split(rest, '_');
    SiteNameSplit(a, site, rest);
    assert EndsWith(Upper(n), ".WAV") by {
      UpperSuffix(a + "_" + site + "_", rest);
    }
    assert Split(n, '_')[1 := to] == [a, to] + tail;
    SiteNameJoin(a, to, rest);
  }

  /** The fields of `<a>_<site>_<rest>`: `a`, `site`, then those of `rest`. */
  lemma SiteNameSplit(a: string, site: string, rest: string)
    requires '_' !in a && '_' !in site
    ensures Split(SiteName(a, site, rest), '_') == [a, site] + Split(rest, '_')
  {
    assert SiteName(a, site, rest) == a + ['_'] + (site + ['_'] + rest);
    SplitAfterField(a, '_', site + ['_'] + rest);
    SplitAfterField(site, '_', rest);
  }

  /** Joining `a`, `site` and the fields of `rest` gives `<a>_<site>_<rest>`. */
  lemma SiteNameJoin(a: string, site: string, rest: string)
    ensures Join([a, site] + Split(rest, '_'), '_') == SiteName(a, site, rest)
  {
    var tail := Split(rest, '_');
    var fields := [a, site] + tail;
    assert fields[1..] == [site] + tail;
    assert ([site] + tail)[1..] == tail;
    JoinSplit(rest, '_');
  }

  /** Upper-casing a concatenation upper-cases its ends, so an upper-cased suffix survives. */
  lemma UpperSuffix(p: string, s: string)
    requires EndsWith(Upper(s), ".WAV")
    ensures EndsWith(Upper(p + s), ".WAV")
  {
    var u, v := Upper(p + s), Upper(s);
    forall k | |u| - 4 <= k < |u|
      ensures u[k] == v[k - |p|]
    {
      assert (p + s)[k] == s[k - |p|];
    }
    assert u[|u| - 4..] == v[|v| - 4..];
  }

  /** The site a recording ends up with after both passes. */
  function FinalSite(site: string): (r: string) {
    if site == "R2" then "N1" else if site == "R3" then "R2" else site
  }

  /**
   * After both passes an original `R2` recording is at `N1` and an original
   * `R3` recording at `R2` (the second pass does not see the renamed `R2`s
   * as `R2`, since they are `N1` by then); every other site is kept, and so
   * is the rest of the name.
   */
  lemma TwoPasses(a: string, site: string, rest: string)
    requires '_' !in a && '_' !in site
    requires EndsWith(Upper(rest), ".WAV")
    ensures Moved(Moved(Entry(SiteName(a, site, rest), true), FirstPass()), SecondPass())
            == Entry(SiteName(a, FinalSite(site), rest), true)
  {
    var mid := if site == "R2" then "N1" else site;
    OnePass(a, site, rest, "R2", "N1");
    OnePass(a, mid, rest, "R3", "R2");
  }

  /** One pass moves a `<a>_<site>_<rest>` recording to `to` when its site is `from`, and keeps it otherwise. */
  lemma OnePass(a: string, site: string, rest: string, from: string, to: string)
    requires '_' !in a && '_' !in site && '_' !in to
    requires EndsWith(Upper(rest), ".WAV")
    ensures Moved(Entry(SiteName(a, site, rest), true), SiteRule(from, to))
            == Entry(SiteName(a, if site == from then to else site, rest), true)
  {
    SiteNameFields(a, site, rest, to);
  }

  /** An entry neither pass looks at keeps its name. */
  lemma NonCandidateKept(e: Entry)
    requires !Candidate(e)
    ensures Moved(Moved(e, FirstPass()), SecondPass()) == e
  {
  }

  /**
   * `rename_files`: the renames of the first pass over the listing, then
   * those of the second pass over the listing read again.
   */
  method RenameFiles(entries: seq<Entry>) returns (first: seq<(string, string)>, second: seq<(string, string)>)
    ensures first == Renames(entries, FirstPass())
    ensures second == Renames(Renamed(entries, FirstPass()), SecondPass())
  {
    first := RenameEach(entries, FirstPass());
    var listing := Renamed(entries, FirstPass());
    second := RenameEach(listing, SecondPass());
  }

  /** The listing after the script: each recording at its final site, in listing order. */
  lemma RenameFilesResult(entries: seq<Entry>, i: nat, a: string, site: string, rest: string)
    requires i < |entries| && entries[i] == Entry(SiteName(a, site, rest), true)
    requires '_' !in a && '_' !in site
    requires EndsWith(Upper(rest), ".WAV")
    ensures Renamed(Renamed(entries, FirstPass()), SecondPass())[i] == Entry(SiteName(a, FinalSite(site), rest), true)
  {
    TwoPasses(a, site, rest);
  }
}
