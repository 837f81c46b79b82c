/**
 * `helpers/rename_indo.py`: the Indonesia recordings sit in one folder per
 * site, named after the site; each file gets the prefix
 * `ind_<code>_`, where the two-character code starts with the site's
 * treatment letter, so that the names read like those of the other countries.
 */
module RenameIndo {
  import opened Wrappers
  import opened Text
  import opened Tables
  import opened Recording
  import opened Renaming

  /** `TWO_CHAR_SITE_MAPPING` as written: each site folder with its code, in the order of the literal. */
  const SiteCodePairs: seq<(string, string)> := DegradedCodes + HealthyCodes + RestoredCodes + NewRestoredCodes

  const DegradedCodes: seq<(string, string)> := [
    ("Degraded M02 Salisi Kecil", "D1"),
    ("Degraded M08 Gosong Bontosua", "D6"),
    ("Degraded M13 Salisi Besar NCS1", "D2"),
    ("Degraded M14 Salisi Besar CES", "D4"),
    ("Degraded M16 Salisi Besar SES", "D5"),
    ("Degraded M17 Bad Control 3", "D3")
  ]

  const HealthyCodes: seq<(string, string)> := [
    ("Healthy M01 Good Control 3", "H1"),
    ("Healthy M04 Control 2", "H2"),
    ("Healthy M07 Salisi Kecil", "H3"),
    ("Healthy M05 Gosong Bontosua North", "H4"),
    ("Healthy M10 Gosong Bontosua Middle", "H5"),
    ("Healthy M11 Gosong Bontosua South", "H6")
  ]

  const RestoredCodes: seq<(string, string)> := [
    ("Restored M03 Block 4", "R1"),
    ("Restored M12 Salisi Kecil", "R5"),
    ("Restored M06 Block 6", "R3"),
    ("Restored M09 Block 7", "R4"),
    ("Restored M15 Salisi Besar Hope CWS", "R6"),
    ("Restored M18 Block 3", "R2")
  ]

  const NewRestoredCodes: seq<(string, string)> := [
    ("New Restored M19 Block K", "N1"),
    ("New Restored M20 Block G", "N2"),
    ("New Restored M21 Block D", "N3")
  ]

  /** The dictionary the literal builds. */
  function SiteCodes(): (r: map<string, string>) {
    Store(SiteCodePairs)
  }

  /**
   * The treatment a site folder is named after, by the initial of the word
   * its name starts with: `Degraded`, `Healthy`, `Restored` or `New Restored`.
   */
  function FolderTreatment(folder: string): (r: Treatment) {
    if folder == [] then Unknown
    else match folder[0]
      case 'D' => Degraded
      case 'H' => Healthy
      case 'R' => Restored
      case 'N' => NewlyRestored
      case _ => Unknown
  }

  /** The treatment a code's first letter stands for in a recording name. */
  function CodeTreatment(code: string): (t: Treatment)
    requires code != []
    ensures t == ParseTreatment("ind_" + code)
  {
    var name := "ind_" + code;
    assert name[4] == code[0];
    ParseTreatment(name)
  }

  /** The 21 codes are two characters long and pairwise distinct. */
  lemma SiteCodesDistinct()
    ensures |SiteCodePairs| == 21
    ensures forall i | 0 <= i < |SiteCodePairs| :: |SiteCodePairs[i].1| == 2
    ensures NoDuplicates(Keys(SiteCodePairs, (p: (string, string)) => p.1))
  {
  }

  /** A code without `_` that starts with the letter of its folder's treatment. */
  predicate CodeMatches(p: (string, string)) {
    p.1 != [] && '_' !in p.1 && CodeTreatment(p.1) == FolderTreatment(p.0) != Unknown
  }

  /** Each code starts with the letter of its folder's treatment. */
  lemma SiteCodeTreatments()
    ensures forall p | p in SiteCodePairs :: CodeMatches(p)
  {
    GroupTreatments(DegradedCodes, 'D');
    GroupTreatments(HealthyCodes, 'H');
    GroupTreatments(RestoredCodes, 'R');
    GroupTreatments(NewRestoredCodes, 'N');
  }

  /** A group of folders named after one treatment, all with codes of that treatment's letter. */
  lemma GroupTreatments(group: seq<(string, string)>, letter: char)
    requires letter in "DHRN"
    requires forall p | p in group :: |p.1| == 2 && p.1[0] == letter && IsDigit(p.1[1]) && p.0 != [] && p.0[0] == letter
    ensures forall p | p in group :: CodeMatches(p)
  {
    forall p | p in group
      ensures CodeMatches(p)
    {
      assert ("ind_" + p.1)[4] == p.1[0];
      assert p.1 == [p.1[0], p.1[1]];
    }
  }

  /** A site folder of the listing: its name, whether it is a directory, and its entries. */
  datatype SiteFolder = SiteFolder(name: string, isDir: bool, files: seq<Entry>)

  /** The prefix of a folder's files. */
  function Prefix(code: string): (r: string) {
    "ind" + "_" + code + "_"
  }

  /** The code the loop uses for a listed folder: `None` when it skips the folder (not a directory, or no mapping). */
  function FolderCode(f: SiteFolder): (c: Option<string>)
    ensures c.Some? ==> f.isDir && f.name in SiteCodes()
  {
    if !f.isDir || f.name !in SiteCodes() || SiteCodes()[f.name] == "" then None
    else Some(SiteCodes()[f.name])
  }

  /** The rule for the entries of a folder: a file that does not start with the prefix gets it in front. */
  function PrefixRule(prefix: string): (r: Entry -> Option<string>) {
    (e: Entry) => if e.isFile && !StartsWith(e.name, prefix) then Some(prefix + e.name) else None
  }

  /** `rename_audio_files`: for each folder it renames in, in listing order, the renames made there. */
  function FolderRenames(folders: seq<SiteFolder>): (r: seq<(string, seq<(string, string)>)>)
  {
    if folders == [] then []
    else
      var f := folders[|folders| - 1];
      var front := FolderRenames(folders[..|folders| - 1]);
      match FolderCode(f)
      case None => front
      case Some(code) => front + [(f.name, Renames(f.files, PrefixRule(Prefix(code))))]
  }

  /** The loop of `rename_audio_files`, with the loop over a folder's entries inside it. */
  method RenameAudioFiles(folders: seq<SiteFolder>) returns (done: seq<(string, seq<(string, string)>)>)
    ensures done == FolderRenames(folders)
  {
    done := [];
    for i := 0 to |folders|
      invariant done == FolderRenames(folders[..i])
    {
      assert folders[..i + 1][..i] == folders[..i];
      var f := folders[i];
      if f.isDir && f.name in SiteCodes() {
        var code := SiteCodes()[f.name];
        if code != "" {
          var renames := RenameEach(f.files, PrefixRule(Prefix(code)));
          done := done + [(f.name, renames)];
        }
      }
    }
    assert folders[..|folders|] == folders;
  }

  /** The code of a mapped folder comes from its pair in the literal. */
  lemma MappedCode(name: string)
    requires name in SiteCodes()
    ensures var c := SiteCodes()[name];
            c != [] && '_' !in c && CodeTreatment(c) == FolderTreatment(name) != Unknown
  {
    StoreValue(SiteCodePairs, name);
    var i :| 0 <= i < |SiteCodePairs| && SiteCodePairs[i] == (name, SiteCodes()[name]);
    assert SiteCodePairs[i] in SiteCodePairs;
    SiteCodeTreatments();
    assert CodeMatches(SiteCodePairs[i]);
  }

  /** A name with the prefix of a code reads back the code as its site, and the code's treatment. */
  lemma PrefixedName(code: string, name: string)
    requires code != [] && '_' !in code
    ensures ParseSite(Prefix(code) + name) == code
    ensures ParseTreatment(Prefix(code) + name) == CodeTreatment(code)
  {
    SiteOfName("ind", code, name);
    PrefixedTreatment(code, name);
  }

  /** The treatment letter of a prefixed name is the code's first letter. */
  lemma PrefixedTreatment(code: string, name: string)
    requires code != []
    ensures ParseTreatment(Prefix(code) + name) == CodeTreatment(code)
  {
    var n := Prefix(code) + name;
    assert n[4] == code[0];
    assert ("ind_" + code)[4] == code[0];
  }

  /**
   * A file renamed in a mapped folder gets the folder's code as its site and
   * the folder's treatment as the treatment `parse_treatment` reads.
   */
  lemma RenamedFileTreatment(f: SiteFolder, e: Entry)
    requires FolderCode(f).Some?
    requires PrefixRule(Prefix(FolderCode(f).value))(e).Some?
    ensures var n := PrefixRule(Prefix(FolderCode(f).value))(e).value;
            && n == Prefix(FolderCode(f).value) + e.name
            && ParseSite(n) == FolderCode(f).value
            && ParseTreatment(n) == FolderTreatment(f.name) != Unknown
  {
    var code := FolderCode(f).value;
    MappedCode(f.name);
    PrefixedName(code, e.name);
  }

  /** Each folder's listing once the loop has renamed in it. */
  function AfterRenames(folders: seq<SiteFolder>): (r: seq<SiteFolder>)
    ensures |r| == |folders|
  {
    seq(|folders|, i requires 0 <= i < |folders| =>
      var f := folders[i];
      match FolderCode(f)
      case None => f
      case Some(code) => SiteFolder(f.name, f.isDir, Renamed(f.files, PrefixRule(Prefix(code)))))
  }

  /** Running the script again renames nothing: every file it renamed already has its prefix. */
  lemma {:induction false} RenameAudioFilesSettled(folders: seq<SiteFolder>)
    ensures forall x | x in FolderRenames(AfterRenames(folders)) :: x.1 == []
  {
    if folders != [] {
      var front := folders[..|folders| - 1];
      var f := folders[|folders| - 1];
      RenameAudioFilesSettled(front);
      var after := AfterRenames(folders);
      assert after[..|after| - 1] == AfterRenames(front);
      match FolderCode(f)
      case None =>
      case Some(code) =>
        var rule := PrefixRule(Prefix(code));
        forall x | rule(x).Some?
          ensures rule(Entry(rule(x).value, x.isFile)).None?
        {
          assert (Prefix(code) + x.name)[..|Prefix(code)|] == Prefix(code);
        }
        RenamesSettled(f.files, rule);
    }
  }
}
