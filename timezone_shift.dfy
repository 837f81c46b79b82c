/**
 * `setup/prep_data/timezone_shift.py`: every `.wav` name
 * `<a>_<b>_<YYYYMMDD>_<HHMMSS>.<ext>` of a folder is renamed with its date
 * and time moved by a whole number of hours, and the extension written as
 * lower-case `.wav`.
 */
module TimezoneShift {
  import opened Wrappers
  import opened Text
  import opened Calendar
  import opened Strptime
  import opened Recording
  import opened Tables

  /** `TIME_DIFF`: the recorders of the folder ran seven hours ahead. */
  const TimeDiff: int := -7

  /** The names the loop visits: those ending in `.wav` once lower-cased. */
  function WavFiles(names: seq<string>): (r: seq<string>)
    ensures forall f :: f in r <==> f in names && EndsWith(Lower(f), ".wav")
    ensures Subsequence(r, names)
  {
    var r := Filter(names, (f: string) => EndsWith(Lower(f), ".wav"));
    assert forall f :: f in r <==> multiset(r)[f] > 0;
    FilterKeepsOrder(names, (f: string) => EndsWith(Lower(f), ".wav"));
    r
  }

  /**
   * The new name of one file: `None` when the loop raises on it (fewer than
   * four `_`-fields, a stamp `%Y%m%d_%H%M%S` refuses, or a moved date outside
   * years 1..9999).
   */
  function AdjustedName(filename: string, timeDiff: int): (r: Option<string>)
    ensures r.Some? ==> EndsWith(r.value, ".wav")
    ensures |Split(filename, '_')| < 4 ==> r.None?
  {
    var parts := Split(filename, '_');
    if |parts| < 4 then None
    else
      var stamp := parts[2] + "_" + Split(parts[3], '.')[0];
      match Parse(stamp, StampFormat)
      case None => None
      case Some(dt) =>
        var moved := ShiftHours(dt, timeDiff);
        assert Valid(moved) by {
          ShiftHoursSeconds(dt, timeDiff);
        }
        if !InPythonRange(moved.date) then None
        else Some(parts[0] + "_" + parts[1] + "_" + RenderDate(moved.date) + "_" + RenderTime(moved) + ".wav")
  }

  /** A name in the recorders' layout. */
  function LayoutName(a: string, b: string, dt: DateTime, ext: string): (r: string)
    requires Valid(dt) && InPythonRange(dt.date)
  {
    a + "_" + b + "_" + RenderDate(dt.date) + "_" + RenderTime(dt) + ext
  }

  /** The fields of a name in the layout, and the stamp the loop reads from them. */
  lemma LayoutFields(a: string, b: string, dt: DateTime, ext: string)
    requires '_' !in a && '_' !in b && '_' !in ext
    requires ext == [] || ext[0] == '.'
    requires Valid(dt) && InPythonRange(dt.date)
    ensures var parts := Split(LayoutName(a, b, dt, ext), '_');
            && parts == [a, b, RenderDate(dt.date), RenderTime(dt) + ext]
            && Split(parts[3], '.')[0] == RenderTime(dt)
  {
    var date, time := RenderDate(dt.date), RenderTime(dt);
    StampFieldsPlain(dt);
    FieldsOf(a, b, date, time, ext);
    assert LayoutName(a, b, dt, ext) == a + "_" + b + "_" + date + "_" + time + ext;
  }

  /** On plain strings: four `_`-fields, the last one cut at its first `.`. */
  lemma FieldsOf(a: string, b: string, date: string, time: string, ext: string)
    requires '_' !in a && '_' !in b && '_' !in date && '_' !in time && '_' !in ext
    requires '.' !in time && (ext == [] || ext[0] == '.')
    ensures Split(a + "_" + b + "_" + date + "_" + time + ext, '_') == [a, b, date, time + ext]
    ensures Split(time + ext, '.')[0] == time
  {
    var last := time + ext;
    var fields := [a, b, date, last];
    assert Join(fields, '_') == a + "_" + b + "_" + date + "_" + last by {
      JoinFour(a, b, date, last, '_');
    }
    assert a + "_" + b + "_" + date + "_" + time + ext == a + "_" + b + "_" + date + "_" + last;
    SplitJoin(fields, '_');
    SplitFirstField(time, ext, '.');
  }

  /**
   * A name in the layout keeps its first two fields, gets the stamp of the
   * recording moved by `timeDiff` hours, and any extension becomes `.wav`.
   */
  lemma AdjustedLayout(a: string, b: string, dt: DateTime, ext: string, timeDiff: int)
    requires '_' !in a && '_' !in b && '_' !in ext
    requires ext == [] || ext[0] == '.'
    requires Valid(dt) && InPythonRange(dt.date)
    ensures var moved := ShiftHours(dt, timeDiff);
            && Valid(moved)
            && AdjustedName(LayoutName(a, b, dt, ext), timeDiff)
               == if InPythonRange(moved.date) then Some(LayoutName(a, b, moved, ".wav")) else None
  {
    var moved := ShiftHours(dt, timeDiff);
    assert Valid(moved) by {
      ShiftHoursSeconds(dt, timeDiff);
    }
    LayoutFields(a, b, dt, ext);
    assert Parse(RenderDate(dt.date) + "_" + RenderTime(dt), StampFormat) == Some(dt) by {
      StampRoundTrip(dt);
    }
  }

  /**
   * Running the rename again with the opposite difference restores the
   * original date and time; only the extension stays lower-cased.
   */
  lemma AdjustedUndone(a: string, b: string, dt: DateTime, moved: DateTime, ext: string, timeDiff: int)
    requires '_' !in a && '_' !in b && '_' !in ext
    requires ext == [] || ext[0] == '.'
    requires Valid(dt) && InPythonRange(dt.date)
    requires moved == ShiftHours(dt, timeDiff) && InPythonRange(moved.date)
    ensures Valid(moved)
    ensures AdjustedName(LayoutName(a, b, dt, ext), timeDiff) == Some(LayoutName(a, b, moved, ".wav"))
    ensures AdjustedName(LayoutName(a, b, moved, ".wav"), -timeDiff) == Some(LayoutName(a, b, dt, ".wav"))
  {
    assert Valid(moved) by {
      ShiftHoursSeconds(dt, timeDiff);
    }
    assert AdjustedName(LayoutName(a, b, moved, ".wav"), -timeDiff) == Some(LayoutName(a, b, dt, ".wav")) by {
      ShiftHoursInverse(dt, timeDiff);
      AdjustedBack(a, b, moved, -timeDiff, dt);
    }
    AdjustedLayout(a, b, dt, ext, timeDiff);
  }

  lemma AdjustedBack(a: string, b: string, moved: DateTime, timeDiff: int, dt: DateTime)
    requires '_' !in a && '_' !in b
    requires Valid(moved) && InPythonRange(moved.date)
    requires Valid(dt) && InPythonRange(dt.date) && ShiftHours(moved, timeDiff) == dt
    ensures AdjustedName(LayoutName(a, b, moved, ".wav"), timeDiff) == Some(LayoutName(a, b, dt, ".wav"))
  {
    AdjustedLayout(a, b, moved, ".wav", timeDiff);
  }

  /** What the loop does with one `.wav` name: the rename it makes, or the exception it raises. */
  function ShiftStep(timeDiff: int): (step: string -> Outcome<(string, string)>)
    ensures forall f :: step(f).Fail? <==> AdjustedName(f, timeDiff).None?
    ensures forall f :: step(f).Keep? ==> step(f).row == (f, AdjustedName(f, timeDiff).value)
  {
    f => match AdjustedName(f, timeDiff)
         case None => Fail
         case Some(g) => Keep((f, g))
  }

  /**
   * `adjust_timestamps`: every `.wav` name is renamed in turn, even when the
   * new name equals the old one; the loop stops at the first name it cannot read.
   */
  method AdjustTimestamps(names: seq<string>, timeDiff: int) returns (run: Run<(string, string)>)
    ensures run == RunEach(WavFiles(names), ShiftStep(timeDiff))
    ensures forall p | p in run.done :: p.0 in names && EndsWith(Lower(p.0), ".wav")
                                       && AdjustedName(p.0, timeDiff) == Some(p.1) && EndsWith(p.1, ".wav")
  {
    var files := WavFiles(names);
    run := RunRows(files, ShiftStep(timeDiff));
    RunEachRows(files, ShiftStep(timeDiff));
  }
}
