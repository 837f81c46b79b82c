/**
 * The night assignment shared by `settlement_cuescape.py` and
 * `settlement_cues.py`.  The night of day X runs from 30 minutes before
 * sunset on X to 30 minutes after sunrise on X + 1, on the same naive local
 * clock as the file names; sunrise and sunset come from a solar library and
 * are an input here (`window`), `None` where computing them raises.
 *
 * A timestamp belongs to the night of its own date when it lies in that
 * window, otherwise to the night of the previous date when it lies in that
 * one, otherwise to no night.  Every minute file assigned to a night counts
 * for 12 five-second windows.
 */
module NightWindows {
  import opened Wrappers
  import opened Text
  import opened Calendar
  import opened Recording
  import opened Tables

  /** A half-open span `[start, end)` of seconds on the naive clock (day 0 starts at 0001-01-01 00:00). */
  datatype Window = Window(start: real, end: real)

  predicate Contains(w: Window, t: real) {
    w.start <= t < w.end
  }

  /** The instant a file name's timestamp stands for. */
  function Instant(dt: DateTime): (r: real)
    requires Valid(dt)
  {
    EpochSeconds(dt) as real
  }

  /** Midnight at the start of a date. */
  function Midnight(d: Date): (r: real)
    requires ValidDate(d)
  {
    (DayNumber(d) * 86400) as real
  }

  /**
   * The night a timestamp is counted in: its own date when its own night's
   * window holds it, else the previous date when that night's window holds
   * it, else none (`Drop`).  `Fail` when a window raises, or when the
   * previous date falls before year 1.
   */
  function NightOf(dt: DateTime, window: Date -> Option<Window>): (r: Outcome<Date>)
    requires Valid(dt) && InPythonRange(dt.date)
    ensures r == Keep(dt.date) <==> window(dt.date).Some? && Contains(window(dt.date).value, Instant(dt))
    ensures r == Keep(PrevDay(dt.date)) <==>
              && window(dt.date).Some? && !Contains(window(dt.date).value, Instant(dt))
              && InPythonRange(PrevDay(dt.date))
              && window(PrevDay(dt.date)).Some? && Contains(window(PrevDay(dt.date)).value, Instant(dt))
    ensures r.Keep? ==> (r.row == dt.date || r.row == PrevDay(dt.date))
                        && ValidDate(r.row) && InPythonRange(r.row)
                        && window(r.row).Some? && Contains(window(r.row).value, Instant(dt))
    ensures r == Drop <==>
              && window(dt.date).Some? && !Contains(window(dt.date).value, Instant(dt))
              && InPythonRange(PrevDay(dt.date))
              && window(PrevDay(dt.date)).Some? && !Contains(window(PrevDay(dt.date)).value, Instant(dt))
  {
    var d := dt.date;
    var t := Instant(dt);
    PrevDayStep(d);
    match window(d)
    case None => Fail
    case Some(w) =>
      if Contains(w, t) then Keep(d)
      else if !InPythonRange(PrevDay(d)) then Fail
      else match window(PrevDay(d))
        case None => Fail
        case Some(p) => if Contains(p, t) then Keep(PrevDay(d)) else Drop
  }

  /**
   * Looking at two dates is enough: when every night's window starts no
   * earlier than its own date's midnight and ends within the following
   * day, and a night ends before the next one starts, a timestamp that lies
   * in the night of `n` is assigned to `n`, and to no other night.
   */
  lemma NightOfExact(dt: DateTime, window: Date -> Option<Window>, n: Date)
    requires Valid(dt) && InPythonRange(dt.date)
    requires ValidDate(n) && InPythonRange(n)
    requires window(n).Some? && window(NextDay(n)).Some?
    requires Midnight(n) <= window(n).value.start && window(n).value.end <= Midnight(n) + 2.0 * 86400.0
    requires window(n).value.end <= window(NextDay(n)).value.start
    requires Contains(window(n).value, Instant(dt))
    ensures NightOf(dt, window) == Keep(n)
  {
    var d := dt.date;
    var t := EpochSeconds(dt);
    assert t == DayNumber(d) * 86400 + SecondOfDay(dt);
    var k := DayNumber(d) - DayNumber(n);
    assert (DayNumber(n) * 86400) as real <= t as real < ((DayNumber(n) + 2) * 86400) as real;
    assert 0 <= k <= 1;
    NextDayStep(n);
    PrevDayStep(d);
    if k == 0 {
      DayNumberInjective(d, n);
    } else {
      DayNumberInjective(d, NextDay(n));
      DayNumberInjective(PrevDay(d), n);
    }
  }

  /** The sound folders both night scripts read: every one but `snaps`, in any case. */
  predicate NotSnaps(name: string) {
    Lower(name) != "snaps"
  }

  /** Only a name that lower-cases to `snaps` is skipped: `snap` and `snaps_old` are read. */
  lemma SnapsOnly()
    ensures !NotSnaps("snaps") && !NotSnaps("SNAPS") && !NotSnaps("Snaps")
    ensures NotSnaps("snap") && NotSnaps("snaps_old")
  {
    assert Lower("SNAPS") == "snaps";
    assert Lower("Snaps") == "snaps";
    assert |Lower("snaps_old")| == 9;
  }

  /**
   * `groupby(...).sum()` over rows of 12: per night key, 12 windows for
   * every minute file assigned to it.
   */
  function WindowTotals<K(==)>(keys: seq<K>): (m: map<K, nat>)
    ensures m.Keys == set k | k in keys
    ensures forall k | k in m :: m[k] == 12 * multiset(keys)[k] && m[k] >= 12
  {
    var files := GroupSizes(keys);
    map k | k in files :: 12 * files[k]
  }

  /** One output row: detected windows and windows recorded in the night. */
  datatype NightRow = NightRow(count: nat, maxPossible: nat)

  /** `np.log(x) if x > 0 else 0`, kept symbolic. */
  datatype LogValue = LogOf(x: nat) | LogZero

  function LogGuarded(x: nat): (r: LogValue)
    ensures r == LogZero <==> x == 0
    ensures r.LogOf? ==> r.x == x
  {
    if x > 0 then LogOf(x) else LogZero
  }

  /**
   * The left merge of the detection sums onto the totals and `fillna(0)`:
   * one row per total, carrying the detected windows, 0 where there are none.
   */
  function MergeCounts<K(==)>(totals: map<K, nat>, detected: map<K, nat>): (r: map<K, NightRow>)
    ensures r.Keys == totals.Keys
    ensures forall k | k in r :: r[k].maxPossible == totals[k]
    ensures forall k | k in r :: r[k].count == if k in detected then detected[k] else 0
  {
    map k | k in totals :: NightRow(if k in detected then detected[k] else 0, totals[k])
  }

  /**
   * Merging the group sums of the detections onto window totals: every
   * total keeps its row, with the number of detections of its own key, 0
   * exactly when there is none; keys with detections and no total are dropped.
   */
  lemma MergedRows<K>(minutes: seq<K>, detections: seq<K>)
    ensures var r := MergeCounts(WindowTotals(minutes), GroupSizes(detections));
            && r.Keys == (set k | k in minutes)
            && (forall k | k in r :: r[k].count == multiset(detections)[k])
            && (forall k | k in r :: r[k].maxPossible == 12 * multiset(minutes)[k] && r[k].maxPossible >= 12)
            && (forall k | k in r :: r[k].maxPossible % 12 == 0 && LogGuarded(r[k].maxPossible) == LogOf(r[k].maxPossible))
            && (forall k | k in r :: r[k].count == 0 <==> k !in detections)
  {
    MergedTotals(minutes, detections);
    MergedCounts(minutes, detections);
  }

  /** The merged rows are those of the totals, each with its 12 windows per minute file. */
  lemma MergedTotals<K>(minutes: seq<K>, detections: seq<K>)
    ensures var r := MergeCounts(WindowTotals(minutes), GroupSizes(detections));
            && r.Keys == (set k | k in minutes)
            && (forall k | k in r :: r[k].maxPossible == 12 * multiset(minutes)[k] && r[k].maxPossible >= 12)
            && (forall k | k in r :: r[k].maxPossible % 12 == 0 && LogGuarded(r[k].maxPossible) == LogOf(r[k].maxPossible))
  {
  }

  /** Each merged row counts the detections of its key, 0 exactly when there is none. */
  lemma MergedCounts<K>(minutes: seq<K>, detections: seq<K>)
    ensures var r := MergeCounts(WindowTotals(minutes), GroupSizes(detections));
            && (forall k | k in r :: r[k].count == multiset(detections)[k])
            && (forall k | k in r :: r[k].count == 0 <==> k !in detections)
  {
    var r := MergeCounts(WindowTotals(minutes), GroupSizes(detections));
    forall k | k in r
      ensures r[k].count == multiset(detections)[k]
    {
      if k !in GroupSizes(detections) {
        assert k !in detections;
      }
    }
  }
}
