/**
 * `helpers/rename_R_to_N.py`: the restored sites of a country are newly
 * restored, so every `.WAV` recording whose site letter (index 4, after
 * the three-letter country prefix and `_`) is `R` gets `N` instead.
 */
module RenameRToN {
  import opened Wrappers
  import opened Text
  import opened Renaming

  /** The name rule: the letter at index 4 turned from `R` to `N`, every other character kept. */
  function NewName(f: string): (g: string)
    ensures |g| == |f|
    ensures |f| > 4 && f[4] == 'R' ==> g[4] == 'N' && forall i | 0 <= i < |f| && i != 4 :: g[i] == f[i]
    ensures !(|f| > 4 && f[4] == 'R') ==> g == f
    ensures |g| > 4 ==> g[4] != 'R'
  {
    if |f| > 4 && f[4] == 'R' then f[..4] + "N" + f[5..] else f
  }

  /** Renaming twice is renaming once. */
  lemma NewNameIdempotent(f: string)
    ensures NewName(NewName(f)) == NewName(f)
  {
    var g := NewName(f);
    assert !(|g| > 4 && g[4] == 'R');
  }

  /**
   * What the loop does with one listed entry: entries ending in `.WAV`,
   * exactly in upper case, with `R` at index 4 are renamed; the new name
   * still ends in `.WAV`.
   */
  function Rule(e: Entry): (r: Option<string>)
    ensures r.Some? <==> EndsWith(e.name, ".WAV") && |e.name| > 4 && e.name[4] == 'R'
    ensures r.Some? ==> r.value == NewName(e.name) && EndsWith(r.value, ".WAV")
  {
    var f := e.name;
    if EndsWith(f, ".WAV") && |f| > 4 && f[4] == 'R' then
      var g := NewName(f);
      assert |f| > 8 by {
        assert f[|f| - 4..] == ".WAV";
      }
      assert g[|g| - 4..] == f[|f| - 4..];
      Some(g)
    else None
  }

  /** `rename_files`: the renames the loop makes, in listing order. */
  method RenameFiles(entries: seq<Entry>) returns (renames: seq<(string, string)>)
    ensures renames == Renames(entries, Rule)
    ensures forall p | p in renames :: EndsWith(p.0, ".WAV") && |p.0| > 4 && p.0[4] == 'R' && p.1 == NewName(p.0)
  {
    renames := RenameEach(entries, Rule);
    RenamesMeaning(entries, Rule);
  }

  /** Running the script again on the renamed folder renames nothing. */
  lemma RenameFilesSettled(entries: seq<Entry>)
    ensures Renames(Renamed(entries, Rule), Rule) == []
  {
    forall e | Rule(e).Some?
      ensures Rule(Entry(Rule(e).value, e.isFile)).None?
    {
      assert Rule(e).value[4] == 'N';
    }
    RenamesSettled(entries, Rule);
  }
}
