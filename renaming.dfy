/**
 * The shape shared by the renaming helpers: a loop over a directory
 * listing that renames some entries in place. A listing is the sequence of
 * entries `os.listdir` returns; the renames are returned as `(old, new)`
 * pairs instead of being made on disk.
 */
module Renaming {
  import opened Wrappers

  /** A directory entry: its name, and whether it is a regular file. */
  datatype Entry = Entry(name: string, isFile: bool)

  /** The renames a loop over `entries` makes, in listing order, when `rule` names the new name of an entry. */
  function Renames(entries: seq<Entry>, rule: Entry -> Option<string>): (r: seq<(string, string)>)
  {
    if entries == [] then []
    else
      var e := entries[|entries| - 1];
      var front := Renames(entries[..|entries| - 1], rule);
      match rule(e)
      case None => front
      case Some(n) => front + [(e.name, n)]
  }

  /**
   * Every rename comes from an entry the rule renames, and every entry the
   * rule renames is renamed.
   */
  lemma {:induction false} RenamesMeaning(entries: seq<Entry>, rule: Entry -> Option<string>)
    ensures forall p | p in Renames(entries, rule) :: exists e | e in entries :: e.name == p.0 && rule(e) == Some(p.1)
    ensures forall e | e in entries && rule(e).Some? :: (e.name, rule(e).value) in Renames(entries, rule)
  {
    if entries != [] {
      var front := entries[..|entries| - 1];
      var e := entries[|entries| - 1];
      RenamesMeaning(front, rule);
      assert entries == front + [e];
      forall p | p in Renames(entries, rule)
        ensures exists x | x in entries :: x.name == p.0 && rule(x) == Some(p.1)
      {
        if p in Renames(front, rule) {
          var x :| x in front && x.name == p.0 && rule(x) == Some(p.1);
          assert x in entries;
        } else {
          assert e in entries;
        }
      }
      forall x | x in entries && rule(x).Some?
        ensures (x.name, rule(x).value) in Renames(entries, rule)
      {
        if x !in front {
          assert x == e;
        }
      }
    }
  }

  /** The loop: one rename for each entry the rule picks, in listing order. */
  method RenameEach(entries: seq<Entry>, rule: Entry -> Option<string>) returns (renames: seq<(string, string)>)
    ensures renames == Renames(entries, rule)
  {
    renames := [];
    for i := 0 to |entries|
      invariant renames == Renames(entries[..i], rule)
    {
      assert entries[..i + 1][..i] == entries[..i];
      var e := entries[i];
      var n := rule(e);
      if n.Some? {
        renames := renames + [(e.name, n.value)];
      }
    }
    assert entries[..|entries|] == entries;
  }

  /** An entry once the loop has passed it: under its new name when the rule picks it. */
  function Moved(e: Entry, rule: Entry -> Option<string>): (r: Entry)
  {
    match rule(e)
    case None => e
    case Some(n) => Entry(n, e.isFile)
  }

  /** The listing once the loop is done, read again in the same order. */
  function Renamed(entries: seq<Entry>, rule: Entry -> Option<string>): (r: seq<Entry>)
    ensures |r| == |entries|
    ensures forall i | 0 <= i < |entries| :: r[i] == Moved(entries[i], rule)
  {
    seq(|entries|, i requires 0 <= i < |entries| => Moved(entries[i], rule))
  }

  /**
   * A rule that never picks an entry it has just renamed leaves nothing to
   * do when the loop runs again on the renamed listing.
   */
  lemma {:induction false} RenamesSettled(entries: seq<Entry>, rule: Entry -> Option<string>)
    requires forall e | rule(e).Some? :: rule(Entry(rule(e).value, e.isFile)).None?
    ensures Renames(Renamed(entries, rule), rule) == []
  {
    if entries != [] {
      var front := entries[..|entries| - 1];
      RenamesSettled(front, rule);
      var r := Renamed(entries, rule);
      assert r[..|r| - 1] == Renamed(front, rule);
    }
  }
}
