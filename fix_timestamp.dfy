/**
 * `helpers/fix_timestamp.py`: file names `<prefix>_<site>_<YYYYMMDD>_<HHMMSS><ext>`
 * whose recorder clock ran on another zone get their date and time moved
 * back by the country's offset; every other name is left as it is.
 */
module FixTimestamp {
  import opened Wrappers
  import opened Text
  import opened Calendar
  import opened Strptime
  import opened Recording

  /** `SHORT_CODES` read through `COUNTRY_CONFIG`: the offset, in hours, of a lower-cased prefix. */
  function ClockOffset(code: string): (r: Option<int>)
    ensures r.Some? <==> code in {"aus", "ken", "mal", "mex"}
    ensures r.Some? ==> -10 <= r.value <= 7
  {
    if code == "aus" then Some(-10)
    else if code == "ken" then Some(-3)
    else if code == "mal" then Some(-4)
    else if code == "mex" then Some(7)
    else None
  }

  /** A name in the expected layout. */
  function StampedName(prefix: string, site: string, dt: DateTime, ext: string): (r: string)
    requires Valid(dt) && InPythonRange(dt.date)
  {
    prefix + "_" + site + "_" + RenderDate(dt.date) + "_" + RenderTime(dt) + ext
  }

  /**
   * `correct_timestamp`: the name unchanged when its stem is not four
   * `_`-fields, its prefix is not a known code or its fields do not parse
   * as `%Y%m%d%H%M%S`; otherwise the fields moved back by the offset.
   * `None` when the moved date leaves years 1..9999 (`OverflowError`).
   */
  function CorrectTimestamp(filename: string): (r: Option<string>)
    ensures var parts := Split(SplitExt(filename).0, '_');
            |parts| != 4 ==> r == Some(filename)
    ensures var parts := Split(SplitExt(filename).0, '_');
            |parts| == 4 && ClockOffset(Lower(parts[0])).None? ==> r == Some(filename)
    ensures var parts := Split(SplitExt(filename).0, '_');
            |parts| == 4 && Parse(parts[2] + parts[3], CompactFormat).None? ==> r == Some(filename)
    ensures r.None? ==> var parts := Split(SplitExt(filename).0, '_');
            |parts| == 4 && ClockOffset(Lower(parts[0])).Some? && Parse(parts[2] + parts[3], CompactFormat).Some?
  {
    var (stem, ext) := SplitExt(filename);
    var parts := Split(stem, '_');
    if |parts| != 4 then Some(filename)
    else
      match ClockOffset(Lower(parts[0]))
      case None => Some(filename)
      case Some(offset) =>
        match Parse(parts[2] + parts[3], CompactFormat)
        case None => Some(filename)
        case Some(dt) =>
          var moved := ShiftHours(dt, -offset);
          ShiftHoursSeconds(dt, -offset);
          if !InPythonRange(moved.date) then None
          else Some(parts[0] + "_" + parts[1] + "_" + RenderDate(moved.date) + "_" + RenderTime(moved) + ext)
  }

  /**
   * A name in the expected layout with a known prefix keeps its prefix,
   * site and extension, and its date and time become those of the
   * recording moved back by the offset, or `None` when that leaves years 1..9999.
   */
  lemma CorrectCanonical(prefix: string, site: string, dt: DateTime, ext: string)
    requires '_' !in prefix && '_' !in site
    requires '.' !in prefix && '.' !in site && '/' !in prefix && '/' !in site && '/' !in ext
    requires ext == [] || (ext[0] == '.' && '.' !in ext[1..])
    requires ClockOffset(Lower(prefix)).Some?
    requires Valid(dt) && InPythonRange(dt.date)
    ensures var offset := ClockOffset(Lower(prefix)).value;
            var moved := ShiftHours(dt, -offset);
            && Valid(moved)
            && CorrectTimestamp(StampedName(prefix, site, dt, ext))
               == if InPythonRange(moved.date) then Some(StampedName(prefix, site, moved, ext)) else None
  {
    var offset := ClockOffset(Lower(prefix)).value;
    assert Valid(ShiftHours(dt, -offset)) by {
      ShiftHoursSeconds(dt, -offset);
    }
    assert prefix != [] by {
      assert |Lower(prefix)| == 3;
    }
    StampedNameParts(prefix, site, dt, ext);
    CompactRoundTrip(dt);
    var stem := prefix + "_" + site + "_" + RenderDate(dt.date) + "_" + RenderTime(dt);
    CorrectOfFields(StampedName(prefix, site, dt, ext), stem, ext, prefix, site, RenderDate(dt.date), RenderTime(dt), dt);
  }

  /** A name in the expected layout splits into its stem and extension, and the stem into its four fields. */
  lemma StampedNameParts(prefix: string, site: string, dt: DateTime, ext: string)
    requires prefix != [] && '_' !in prefix && '_' !in site
    requires '.' !in prefix && '.' !in site && '/' !in prefix && '/' !in site && '/' !in ext
    requires ext == [] || (ext[0] == '.' && '.' !in ext[1..])
    requires Valid(dt) && InPythonRange(dt.date)
    ensures var stem := prefix + "_" + site + "_" + RenderDate(dt.date) + "_" + RenderTime(dt);
            && SplitExt(StampedName(prefix, site, dt, ext)) == (stem, ext)
            && Split(stem, '_') == [prefix, site, RenderDate(dt.date), RenderTime(dt)]
  {
    var date, time := RenderDate(dt.date), RenderTime(dt);
    var fields := [prefix, site, date, time];
    var stem := prefix + "_" + site + "_" + date + "_" + time;
    StampFieldsPlain(dt);
    assert SplitExt(StampedName(prefix, site, dt, ext)) == (stem, ext) by {
      assert '.' !in stem && '/' !in stem && stem[0] != '.';
      SplitExtOf(stem, ext);
    }
    JoinFour(prefix, site, date, time, '_');
    SplitJoin(fields, '_');
  }

  /** `correct_timestamp` once the name is split and its fields parsed. */
  lemma CorrectOfFields(name: string, stem: string, ext: string, prefix: string, site: string, date: string, time: string, dt: DateTime)
    requires SplitExt(name) == (stem, ext) && Split(stem, '_') == [prefix, site, date, time]
    requires ClockOffset(Lower(prefix)).Some?
    requires Parse(date + time, CompactFormat) == Some(dt)
    ensures var moved := ShiftHours(dt, -ClockOffset(Lower(prefix)).value);
            Valid(moved)
            && CorrectTimestamp(name) == if InPythonRange(moved.date)
                                         then Some(prefix + "_" + site + "_" + RenderDate(moved.date) + "_" + RenderTime(moved) + ext)
                                         else None
  {
    var offset := ClockOffset(Lower(prefix)).value;
    assert Valid(ShiftHours(dt, -offset)) by {
      ShiftHoursSeconds(dt, -offset);
    }
  }

  /**
   * Moving the new fields forward by the offset gives back the original
   * name: the correction loses nothing.
   */
  lemma CorrectTimestampUndone(prefix: string, site: string, dt: DateTime, ext: string)
    requires '_' !in prefix && '_' !in site
    requires '.' !in prefix && '.' !in site && '/' !in prefix && '/' !in site && '/' !in ext
    requires ext == [] || (ext[0] == '.' && '.' !in ext[1..])
    requires ClockOffset(Lower(prefix)).Some?
    requires Valid(dt) && InPythonRange(dt.date)
    requires CorrectTimestamp(StampedName(prefix, site, dt, ext)).Some?
    ensures var offset := ClockOffset(Lower(prefix)).value;
            var moved := ShiftHours(dt, -offset);
            && Valid(moved) && InPythonRange(moved.date)
            && CorrectTimestamp(StampedName(prefix, site, dt, ext)) == Some(StampedName(prefix, site, moved, ext))
            && ShiftHours(moved, offset) == dt
  {
    var offset := ClockOffset(Lower(prefix)).value;
    CorrectCanonical(prefix, site, dt, ext);
    ShiftHoursInverse(dt, -offset);
  }

  /** The Maldives offset is -4: a Maldives recording's time moves four hours later. */
  lemma MaldivesMovesLater(site: string, dt: DateTime, ext: string)
    requires '_' !in site && '.' !in site && '/' !in site && '/' !in ext
    requires ext == [] || (ext[0] == '.' && '.' !in ext[1..])
    requires Valid(dt) && InPythonRange(dt.date)
    requires InPythonRange(ShiftHours(dt, 4).date)
    ensures CorrectTimestamp(StampedName("mal", site, dt, ext)) == Some(StampedName("mal", site, ShiftHours(dt, 4), ext))
    ensures EpochSeconds(ShiftHours(dt, 4)) == EpochSeconds(dt) + 4 * 3600
  {
    assert ClockOffset(Lower("mal")) == Some(-4) by {
      assert Lower("mal") == "mal";
    }
    CorrectCanonical("mal", site, dt, ext);
    assert EpochSeconds(ShiftHours(dt, 4)) == EpochSeconds(dt) + 4 * 3600 by {
      ShiftHoursSeconds(dt, 4);
    }
  }

  /** What `main` does with one directory entry: a rename, nothing, or an exception. */
  function RenameStep(fname: string): (r: Outcome<(string, string)>)
    ensures r.Keep? ==> EndsWith(Lower(fname), ".wav") && r.row.0 == fname && r.row.1 != fname
                        && CorrectTimestamp(fname) == Some(r.row.1)
    ensures r.Fail? <==> EndsWith(Lower(fname), ".wav") && CorrectTimestamp(fname).None?
    ensures r == Drop <==> !EndsWith(Lower(fname), ".wav") || CorrectTimestamp(fname) == Some(fname)
  {
    if !EndsWith(Lower(fname), ".wav") then Drop
    else
      match CorrectTimestamp(fname)
      case None => Fail
      case Some(newName) => if newName != fname then Keep((fname, newName)) else Drop
  }

  /**
   * `main`: every `.wav` entry, in any case, is renamed to its corrected
   * name when that differs; the loop stops at the first overflow.
   */
  method FixFolder(names: seq<string>) returns (run: Run<(string, string)>)
    ensures run == RunEach(names, RenameStep)
    ensures forall p | p in run.done :: p.0 in names && EndsWith(Lower(p.0), ".wav")
                                       && CorrectTimestamp(p.0) == Some(p.1) && p.1 != p.0
  {
    run := RunRows(names, RenameStep);
    RunEachRows(names, RenameStep);
  }
}
