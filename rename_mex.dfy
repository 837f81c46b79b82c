/**
 * `helpers/rename_mex.py`: the original Mexico `R1` site was dropped, so
 * the `.WAV` recordings of site `R2` (characters 4 and 5) become `R1`.
 */
module RenameMex {
  import opened Wrappers
  import opened Text
  import opened Renaming

  /** The name rule: `R2` at characters `[4:6]` becomes `R1`, every other character kept. */
  function NewName(f: string): (g: string)
    ensures |g| == |f|
    ensures Slice(f, 4, 6) == "R2" ==> g[4] == 'R' && g[5] == '1' && forall i | 0 <= i < |f| && i != 5 :: g[i] == f[i]
    ensures Slice(f, 4, 6) != "R2" ==> g == f
    ensures Slice(g, 4, 6) != "R2"
  {
    if |f| > 4 && Slice(f, 4, 6) == "R2" then
      var g := f[..4] + "R1" + f[6..];
      assert g[4..6] == "R1";
      g
    else f
  }

  /** Renaming twice is renaming once. */
  lemma NewNameIdempotent(f: string)
    ensures NewName(NewName(f)) == NewName(f)
  {
    var g := NewName(f);
    assert Slice(g, 4, 6) != "R2";
  }

  /**
   * What the loop does with one listed entry: entries ending in `.WAV`,
   * exactly in upper case, with `R2` at characters `[4:6]` are renamed; the
   * new name still ends in `.WAV`.
   */
  function Rule(e: Entry): (r: Option<string>)
    ensures r.Some? <==> EndsWith(e.name, ".WAV") && Slice(e.name, 4, 6) == "R2"
    ensures r.Some? ==> r.value == NewName(e.name) && EndsWith(r.value, ".WAV")
  {
    var f := e.name;
    if EndsWith(f, ".WAV") && |f| > 4 && Slice(f, 4, 6) == "R2" then
      var g := NewName(f);
      assert |f| > 9 by {
        assert f[|f| - 4..] == ".WAV";
        assert f[4..6] == "R2";
      }
      assert g[|g| - 4..] == f[|f| - 4..];
      Some(g)
    else None
  }

  /** `rename_files`: the renames the loop makes, in listing order. */
  method RenameFiles(entries: seq<Entry>) returns (renames: seq<(string, string)>)
    ensures renames == Renames(entries, Rule)
    ensures forall p | p in renames :: EndsWith(p.0, ".WAV") && Slice(p.0, 4, 6) == "R2" && p.1 == NewName(p.0)
  {
    renames := RenameEach(entries, Rule);
    RenamesMeaning(entries, Rule);
  }

  /** Running the script again on the renamed folder renames nothing. */
  lemma RenameFilesSettled(entries: seq<Entry>)
    ensures Renames(Renamed(entries, Rule), Rule) == []
  {
    forall e | Rule(e).Some?
      ensures Rule(Entry(Rule(e).value, e.isFile)).None?
    {
      assert Slice(Rule(e).value, 4, 6) != "R2";
    }
    RenamesSettled(entries, Rule);
  }
}
