/**
 * `helpers/check_mald_agile.py`: the Maldives inference tables are rewritten
 * without the detections whose minute file is not on the list of files
 * recorded under water.
 */
module CheckMaldAgile {
  import opened Wrappers
  import opened Text
  import opened Tables

  /** `PREFIX`: the folder some inference rows still carry in front of the file name. */
  const Prefix: string := "raw_audio/"

  /**
   * `load_raw_file_set` on the rows of the file list: the stripped file
   * names, or `None` when a row has no `filename` column (`KeyError`).
   */
  function RawFileSet(rows: seq<CsvRow>): (r: Option<set<string>>)
    ensures r.Some? <==> forall row | row in rows :: "filename" in row.cells
    ensures r.Some? ==> forall f :: f in r.value <==> exists row | row in rows && "filename" in row.cells :: Strip(row.cells["filename"]) == f
  {
    if forall row | row in rows :: "filename" in row.cells then Some(FileNames(rows)) else None
  }

  /** The stripped names of the rows that have a `filename` column. */
  function FileNames(rows: seq<CsvRow>): (r: set<string>) {
    set row | row in rows && "filename" in row.cells :: Strip(row.cells["filename"])
  }

  /** The names of one more row of a prefix: its name added. */
  lemma FileNamesStep(rows: seq<CsvRow>, i: nat)
    requires i < |rows| && "filename" in rows[i].cells
    ensures FileNames(rows[..i + 1]) == FileNames(rows[..i]) + {Strip(rows[i].cells["filename"])}
  {
    var a, b := rows[..i + 1], rows[..i];
    assert forall row :: row in a <==> row in b || row == rows[i] by {
      assert a == b + [rows[i]];
    }
    forall f | f in FileNames(a)
      ensures f in FileNames(b) + {Strip(rows[i].cells["filename"])}
    {
      var row :| row in a && "filename" in row.cells && Strip(row.cells["filename"]) == f;
    }
    forall f | f in FileNames(b) + {Strip(rows[i].cells["filename"])}
      ensures f in FileNames(a)
    {
      if f in FileNames(b) {
        var row :| row in b && "filename" in row.cells && Strip(row.cells["filename"]) == f;
        assert row in a;
      } else {
        assert rows[i] in a;
      }
    }
  }

  /** The loop of `load_raw_file_set`: one `add` per row, in file order. */
  method LoadRawFileSet(rows: seq<CsvRow>) returns (r: Option<set<string>>)
    ensures r == RawFileSet(rows)
  {
    var raw: set<string> := {};
    for i := 0 to |rows|
      invariant forall row | row in rows[..i] :: "filename" in row.cells
      invariant raw == FileNames(rows[..i])
    {
      if "filename" !in rows[i].cells {
        assert rows[i] in rows;
        return None;
      }
      FileNamesStep(rows, i);
      raw := raw + {Strip(rows[i].cells["filename"])};
      assert forall row | row in rows[..i + 1] :: row in rows[..i] || row == rows[i];
    }
    assert rows[..|rows|] == rows;
    r := Some(raw);
  }

  /**
   * The name a row of an old inference table is looked up under: its
   * `filename` cell ("" when the column is missing), stripped, without a
   * leading `raw_audio/`.
   */
  function NormalisedName(row: CsvRow): (r: string)
  {
    var name := Strip(if "filename" in row.cells then row.cells["filename"] else "");
    if StartsWith(name, Prefix) then name[|Prefix|..] else name
  }

  /**
   * A stripped name is looked up as it is, and also when written after
   * `raw_audio/`; a row without the column is looked up as "".
   */
  lemma NormalisedBothWays(row: CsvRow, f: string)
    requires Strip(f) == f && f != [] && !StartsWith(f, Prefix)
    ensures NormalisedName(CsvRow(row.cells["filename" := f])) == f
    ensures NormalisedName(CsvRow(row.cells["filename" := Prefix + f])) == f
    ensures NormalisedName(CsvRow(row.cells - {"filename"})) == ""
  {
    var p := Prefix + f;
    assert !IsSpace(f[|f| - 1]) by {
      assert StripLeft(f) == f;
    }
    assert StripLeft(p) == p;
    assert StripRight(p) == p by {
      assert p[|p| - 1] == f[|f| - 1];
    }
    assert p[..|Prefix|] == Prefix;
  }

  /** The row test of `process_folder`. */
  function Kept(raw: set<string>): (r: CsvRow -> bool)
  {
    row => NormalisedName(row) in raw
  }

  /** A rewritten table: the rows written to `<folder>_inference.csv`, and the logged number excluded. */
  datatype Rewrite = Rewrite(rows: seq<CsvRow>, excluded: int)

  /**
   * `process_folder` once `<folder>_inference_old.csv` is read: the rows
   * whose normalised name is listed, and how many were dropped.
   */
  function FolderRewrite(rows: seq<CsvRow>, raw: set<string>): (r: Rewrite)
  {
    var kept := Filter(rows, Kept(raw));
    Rewrite(kept, |rows| - |kept|)
  }

  /**
   * The rewritten table holds the old rows whose normalised name is listed,
   * in their order, unchanged and as often as before; the logged count is
   * the number of rows dropped.
   */
  lemma FolderRewriteMeaning(rows: seq<CsvRow>, raw: set<string>)
    ensures var r := FolderRewrite(rows, raw);
            && Subsequence(r.rows, rows)
            && (forall row :: multiset(r.rows)[row] == if NormalisedName(row) in raw then multiset(rows)[row] else 0)
            && r.excluded == |rows| - |r.rows| && 0 <= r.excluded <= |rows|
  {
    FilterKeepsOrder(rows, Kept(raw));
  }

  /**
   * `process_folder`: nothing when the old table is missing; otherwise each
   * row passing the test is appended to the new table.
   */
  method ProcessFolder(oldRows: Option<seq<CsvRow>>, raw: set<string>) returns (r: Option<Rewrite>)
    ensures r.None? <==> oldRows.None?
    ensures r.Some? ==> r.value == FolderRewrite(oldRows.value, raw)
  {
    if oldRows.None? {
      return None;
    }
    var rows := oldRows.value;
    var filtered := FilterRows(rows, Kept(raw));
    r := Some(Rewrite(filtered, |rows| - |filtered|));
  }

  /** An entry of the agile outputs folder: its name, whether it is a directory, and its old table if any. */
  datatype AgileEntry = AgileEntry(name: string, isDir: bool, oldRows: Option<seq<CsvRow>>)

  /** What `main` writes: one rewrite per directory that has an old table, in listing order. */
  function Rewrites(entries: seq<AgileEntry>, raw: set<string>): (r: seq<(string, Rewrite)>)
  {
    if entries == [] then []
    else
      var e := entries[|entries| - 1];
      var front := Rewrites(entries[..|entries| - 1], raw);
      if e.isDir && e.oldRows.Some? then front + [(e.name, FolderRewrite(e.oldRows.value, raw))] else front
  }

  /**
   * Every directory with an old table gets its rewrite, and nothing else is
   * written: no plain file and no directory without an old table.
   */
  lemma {:induction false} RewritesMeaning(entries: seq<AgileEntry>, raw: set<string>)
    ensures forall p | p in Rewrites(entries, raw) ::
              exists e | e in entries :: e.isDir && e.name == p.0 && e.oldRows.Some? && FolderRewrite(e.oldRows.value, raw) == p.1
    ensures forall e | e in entries && e.isDir && e.oldRows.Some? :: (e.name, FolderRewrite(e.oldRows.value, raw)) in Rewrites(entries, raw)
  {
    if entries != [] {
      var front := entries[..|entries| - 1];
      var e := entries[|entries| - 1];
      RewritesMeaning(front, raw);
      assert entries == front + [e];
      var tail := if e.isDir && e.oldRows.Some? then [(e.name, FolderRewrite(e.oldRows.value, raw))] else [];
      assert Rewrites(entries, raw) == Rewrites(front, raw) + tail;
      forall p | p in Rewrites(entries, raw)
        ensures exists x | x in entries :: x.isDir && x.name == p.0 && x.oldRows.Some? && FolderRewrite(x.oldRows.value, raw) == p.1
      {
        if p in Rewrites(front, raw) {
          var x :| x in front && x.isDir && x.name == p.0 && x.oldRows.Some? && FolderRewrite(x.oldRows.value, raw) == p.1;
          assert x in entries;
        } else {
          assert p in tail;
          assert e in entries;
        }
      }
      forall x | x in entries && x.isDir && x.oldRows.Some?
        ensures (x.name, FolderRewrite(x.oldRows.value, raw)) in Rewrites(entries, raw)
      {
        if x !in front {
          assert x == e;
        }
      }
    }
  }

  /** The loop of `main` over the agile outputs folder. */
  method CheckFolders(entries: seq<AgileEntry>, raw: set<string>) returns (written: seq<(string, Rewrite)>)
    ensures written == Rewrites(entries, raw)
  {
    written := [];
    for i := 0 to |entries|
      invariant written == Rewrites(entries[..i], raw)
    {
      assert entries[..i + 1][..i] == entries[..i];
      var e := entries[i];
      if e.isDir {
        var r := ProcessFolder(e.oldRows, raw);
        if r.Some? {
          written := written + [(e.name, r.value)];
        }
      }
    }
    assert entries[..|entries|] == entries;
  }
}
