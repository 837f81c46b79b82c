/**
 * What a recording's file name says about it, as `combine_counts.py` reads
 * it, and the shapes of the inputs every count script walks: the raw file
 * list and the `agile_outputs/<sound>/<sound>_inference.csv` tables.
 *
 * A canonical recording name is `ind_D2_20220830_130600.WAV`: a three-letter
 * country prefix, the site (whose first letter is the treatment), and a
 * `YYYYMMDD_HHMMSS` local timestamp starting at index 7.
 */
module Recording {
  import opened Wrappers
  import opened Text
  import opened Calendar
  import opened Strptime
  import Tables

  // ------------------------------------------------------------ treatments

  datatype Treatment = Healthy | Degraded | Restored | NewlyRestored | Unknown {
    /** The label written to the output tables. */
    function Label(): (r: string) {
      match this
      case Healthy => "healthy"
      case Degraded => "degraded"
      case Restored => "restored"
      case NewlyRestored => "newly_restored"
      case Unknown => "unknown"
    }
  }

  /** The five labels are distinct, so the label determines the treatment. */
  lemma LabelInjective(a: Treatment, b: Treatment)
    ensures a.Label() == b.Label() <==> a == b
  {
  }

  /** `parse_treatment`: the letter at index 4 (H, D, R, N), anything else or a short name is unknown. */
  function ParseTreatment(name: string): (t: Treatment)
    ensures t == Healthy <==> |name| > 4 && name[4] == 'H'
    ensures t == Degraded <==> |name| > 4 && name[4] == 'D'
    ensures t == Restored <==> |name| > 4 && name[4] == 'R'
    ensures t == NewlyRestored <==> |name| > 4 && name[4] == 'N'
    ensures |name| <= 4 ==> t == Unknown
  {
    if |name| <= 4 then Unknown
    else match name[4]
      case 'H' => Healthy
      case 'D' => Degraded
      case 'R' => Restored
      case 'N' => NewlyRestored
      case _ => Unknown
  }

  // ------------------------------------------------------------ sites

  /** `parse_site`: the second `_`-separated field, `"unknown"` when there is no `_`. */
  function ParseSite(name: string): (site: string)
    ensures '_' !in name ==> site == "unknown"
    ensures '_' in name ==> '_' !in site
  {
    var parts := Split(name, '_');
    if |parts| > 1 then parts[1] else "unknown"
  }

  /** In `<prefix>_<site>_<rest>` with no `_` in the prefix or the site, the site is read back. */
  lemma SiteOfName(prefix: string, site: string, rest: string)
    requires '_' !in prefix && '_' !in site
    ensures ParseSite(prefix + "_" + site + "_" + rest) == site
  {
    SplitAfterField(prefix, '_', site + "_" + rest);
    assert prefix + "_" + site + "_" + rest == prefix + ['_'] + (site + "_" + rest);
    SplitAfterField(site, '_', rest);
    assert site + "_" + rest == site + ['_'] + rest;
  }

  /** The part of a listed path after its first `/`, or the whole name when there is none. */
  function FilenamePart(full: string): (r: string)
    ensures '/' !in full ==> r == full
  {
    AfterFirst(full, '/')
  }

  /** The name under a top directory is read back from `<dir>/<name>`, whatever `/` the name holds. */
  lemma FilenamePartOfPath(dir: string, name: string)
    requires '/' !in dir
    ensures FilenamePart(dir + "/" + name) == name
  {
    var u := dir + "/" + name;
    assert u[|dir|] == '/';
    var a := AfterFirst(u, '/');
    var k := |u| - |a| - 1;
    assert u == u[..k] + ['/'] + a;
    assert '/' !in u[..k];
    assert k == |dir|;
    assert u[k + 1..] == a;
    assert u[|dir| + 1..] == name;
  }

  // ------------------------------------------------------------ countries

  datatype Country = Australia | Kenya | Indonesia | Maldives | Mexico

  /** The hours added to a recorder's clock to reach local time. */
  function Offset(c: Country): (r: int) {
    match c
    case Australia => -10
    case Kenya => -3
    case Indonesia => 0
    case Maldives => 5
    case Mexico => 7
  }

  /** Minutes per recording cycle: one minute recorded in every `DutyCycle` minutes. */
  function DutyCycle(c: Country): (r: nat) {
    match c
    case Indonesia => 2
    case _ => 4
  }

  /** `get_expected_daily_recordings`: the number of whole cycles in a day. */
  function ExpectedDaily(duty: nat): (r: nat)
    requires duty > 0
    ensures r * duty <= 1440 < (r + 1) * duty
  {
    1440 / duty
  }

  /** Every configured country expects 360 or 720 files a day, and 90% of that is a whole number of files. */
  lemma ConfiguredExpectations(c: Country)
    ensures DutyCycle(c) > 0
    ensures ExpectedDaily(DutyCycle(c)) == (if c == Indonesia then 720 else 360)
    ensures forall n: nat :: Tables.Covered(n, ExpectedDaily(DutyCycle(c)), 9, 10)
                             <==> n >= (if c == Indonesia then 648 else 324)
  {
  }

  // ------------------------------------------------------------ timestamps

  /** The 15 characters where the `YYYYMMDD_HHMMSS` stamp sits (fewer when the name is short). */
  function StampText(name: string): (r: string)
    ensures |name| >= 22 ==> r == name[7..22]
  {
    Slice(name, 7, 22)
  }

  /**
   * `strptime(name[7:22], "%Y%m%d_%H%M%S") + timedelta(hours=offset)`:
   * `None` for a stamp strptime refuses or a result outside years 1..9999.
   */
  function ShiftedDateTime(name: string, offset: int): (r: Option<DateTime>)
    ensures r.Some? ==> Valid(r.value) && InPythonRange(r.value.date)
    ensures r.Some? ==> exists dt :: Parse(StampText(name), StampFormat) == Some(dt)
                                    && EpochSeconds(r.value) == EpochSeconds(dt) + 3600 * offset
  {
    match Parse(StampText(name), StampFormat)
    case None => None
    case Some(dt) =>
      var s := ShiftHours(dt, offset);
      ShiftHoursSeconds(dt, offset);
      if InPythonRange(s.date) then Some(s) else None
  }

  /** With no offset the shift is `strptime` alone: every date it accepts is already in range. */
  lemma NoOffsetIsStrptime(name: string)
    ensures ShiftedDateTime(name, 0) == Parse(StampText(name), StampFormat)
  {
    match Parse(StampText(name), StampFormat)
    case None =>
    case Some(dt) =>
      assert ShiftHours(dt, 0) == dt;
  }

  /**
   * `parse_date_time` as the night and overlap scripts import it: the
   * characters `[7:22]` of a name read with `%Y%m%d_%H%M%S`, with no offset.
   */
  function ParseDateTime(name: string): (r: Option<DateTime>)
    ensures r.Some? ==> Valid(r.value) && InPythonRange(r.value.date)
    ensures r == ShiftedDateTime(name, 0)
  {
    NoOffsetIsStrptime(name);
    Parse(StampText(name), StampFormat)
  }

  /** `parse_date`: the local date, as `YYYYMMDD`, of the shifted timestamp. */
  function ParseDate(name: string, offset: int): (r: Option<string>)
    ensures r.Some? <==> ShiftedDateTime(name, offset).Some?
    ensures r.Some? ==> |r.value| == 8 && r.value == RenderDate(ShiftedDateTime(name, offset).value.date)
  {
    match ShiftedDateTime(name, offset)
    case None => None
    case Some(dt) => Some(RenderDate(dt.date))
  }

  /** A canonical name: a seven-character head, then the stamp of `dt`, then anything. */
  function CanonicalName(head: string, dt: DateTime, tail: string): (r: string)
    requires Valid(dt) && InPythonRange(dt.date)
  {
    head + RenderDate(dt.date) + "_" + RenderTime(dt) + tail
  }

  /** The stamp of a canonical name is read back, then shifted by exactly `offset` hours. */
  lemma {:induction false} ShiftedCanonical(head: string, dt: DateTime, tail: string, offset: int)
    requires |head| == 7 && Valid(dt) && InPythonRange(dt.date)
    ensures ShiftedDateTime(CanonicalName(head, dt, tail), offset)
         == if InPythonRange(ShiftHours(dt, offset).date) then Some(ShiftHours(dt, offset)) else None
  {
    var name := CanonicalName(head, dt, tail);
    var stamp := RenderDate(dt.date) + "_" + RenderTime(dt);
    assert name == head + stamp + tail;
    assert StampText(name) == stamp;
    StampRoundTrip(dt);
  }

  /** Without an offset, the date of a canonical name is its characters `[7:15]`. */
  lemma DateWithoutOffset(head: string, dt: DateTime, tail: string)
    requires |head| == 7 && Valid(dt) && InPythonRange(dt.date)
    ensures ParseDate(CanonicalName(head, dt, tail), 0) == Some(CanonicalName(head, dt, tail)[7..15])
  {
    CanonicalParsed(head, dt, tail);
  }

  /** A canonical name parses back to its own timestamp, and its characters `[7:15]` are its date. */
  lemma CanonicalParsed(head: string, dt: DateTime, tail: string)
    requires |head| == 7 && Valid(dt) && InPythonRange(dt.date)
    ensures ParseDateTime(CanonicalName(head, dt, tail)) == Some(dt)
    ensures |CanonicalName(head, dt, tail)| >= 15 && CanonicalName(head, dt, tail)[7..15] == RenderDate(dt.date)
  {
    assert ShiftHours(dt, 0) == dt;
    ShiftedCanonical(head, dt, tail, 0);
    CanonicalDate(head, dt, tail);
  }

  /** Characters `[7:15]` of a canonical name are its rendered date. */
  lemma CanonicalDate(head: string, dt: DateTime, tail: string)
    requires |head| == 7 && Valid(dt) && InPythonRange(dt.date)
    ensures |CanonicalName(head, dt, tail)| >= 15 && CanonicalName(head, dt, tail)[7..15] == RenderDate(dt.date)
  {
    RenderedDigits(dt);
    var name := CanonicalName(head, dt, tail);
    assert name == head + (RenderDate(dt.date) + ("_" + RenderTime(dt) + tail));
  }

  /** Characters `[16:18]` of a canonical name are its rendered hour. */
  lemma CanonicalHour(head: string, dt: DateTime, tail: string)
    requires |head| == 7 && Valid(dt) && InPythonRange(dt.date)
    ensures |CanonicalName(head, dt, tail)| >= 18 && CanonicalName(head, dt, tail)[16..18] == Pad(dt.hour, 2)
  {
    RenderedDigits(dt);
    var name := CanonicalName(head, dt, tail);
    var front := head + RenderDate(dt.date) + "_";
    assert |front| == 16;
    assert name == front + (Pad(dt.hour, 2) + (Pad(dt.minute, 2) + Pad(dt.second, 2) + tail));
  }

  /** A canonical name whose head and tail hold no `/` is its own file-name part. */
  lemma CanonicalIsOwnPart(head: string, dt: DateTime, tail: string)
    requires Valid(dt) && InPythonRange(dt.date) && '/' !in head && '/' !in tail
    ensures FilenamePart(CanonicalName(head, dt, tail)) == CanonicalName(head, dt, tail)
  {
    RenderedDigits(dt);
    var stamp := RenderDate(dt.date) + "_" + RenderTime(dt);
    assert forall i | 0 <= i < |stamp| :: stamp[i] != '/';
    assert CanonicalName(head, dt, tail) == head + stamp + tail;
  }

  /**
   * Every configured offset is under a day, so the local date is the
   * recorder's date, the day before or the day after, in the offset's direction.
   */
  lemma OffsetMovesAtMostOneDay(name: string, c: Country)
    requires ShiftedDateTime(name, Offset(c)).Some?
    ensures var dt := Parse(StampText(name), StampFormat).value;
            var local := ShiftedDateTime(name, Offset(c)).value.date;
            (Offset(c) < 0 ==> local == dt.date || local == PrevDay(dt.date))
            && (Offset(c) == 0 ==> local == dt.date)
            && (Offset(c) > 0 ==> local == dt.date || local == NextDay(dt.date))
  {
    var dt := Parse(StampText(name), StampFormat).value;
    ShiftHoursDate(dt, Offset(c));
  }

  // ------------------------------------------------------------ inputs

  /** One row of an inference table: the clip's path and the classifier's logit. */
  datatype Detection = Detection(filename: string, logit: real)

  /**
   * One entry of `agile_outputs/`: its name, whether it is a directory, and
   * the rows of `<name>/<name>_inference.csv` when that file exists.
   */
  datatype Folder = Folder(name: string, isDir: bool, inference: Option<seq<Detection>>)

  /** What a script does with one detection that passed the logit cut. */
  datatype Outcome<T> = Keep(row: T) | Drop | Fail

  /** The rows one sound folder contributes, in order; `None` when a row raises. */
  function CollectFolder<T>(sound: string, dets: seq<Detection>, cutoff: real,
                            parse: (string, string) -> Outcome<T>): (r: Option<seq<T>>)
  {
    if dets == [] then Some([])
    else
      match CollectFolder(sound, dets[..|dets| - 1], cutoff, parse)
      case None => None
      case Some(rows) =>
        var d := dets[|dets| - 1];
        if d.logit < cutoff then Some(rows)
        else match parse(sound, d.filename)
          case Fail => None
          case Drop => Some(rows)
          case Keep(row) => Some(rows + [row])
  }

  /** A folder is read when it is a directory that `usable` accepts and holds its inference table. */
  predicate Read(f: Folder, usable: string -> bool) {
    f.isDir && usable(f.name) && f.inference.Some?
  }

  /** The rows of all folders read, folder by folder; `None` when any row raises. */
  function Collect<T>(folders: seq<Folder>, usable: string -> bool, cutoff: real,
                      parse: (string, string) -> Outcome<T>): (r: Option<seq<T>>)
  {
    if folders == [] then Some([])
    else
      match Collect(folders[..|folders| - 1], usable, cutoff, parse)
      case None => None
      case Some(rows) =>
        var f := folders[|folders| - 1];
        if !Read(f, usable) then Some(rows)
        else match CollectFolder(f.name, f.inference.value, cutoff, parse)
          case None => None
          case Some(more) => Some(rows + more)
  }

  /** A row is collected from one sound exactly when a detection of it passes the cut and is kept. */
  lemma {:induction false} CollectFolderRows<T>(sound: string, dets: seq<Detection>, cutoff: real,
                                                parse: (string, string) -> Outcome<T>)
    requires CollectFolder(sound, dets, cutoff, parse).Some?
    ensures forall row :: row in CollectFolder(sound, dets, cutoff, parse).value <==>
              exists d | d in dets :: d.logit >= cutoff && parse(sound, d.filename) == Keep(row)
  {
    if dets != [] {
      var init := dets[..|dets| - 1];
      CollectFolderRows(sound, init, cutoff, parse);
      assert forall d :: d in dets <==> d in init || d == dets[|dets| - 1] by {
        assert dets == init + [dets[|dets| - 1]];
      }
    }
  }

  /**
   * A row is collected exactly when some folder that is read holds a
   * detection that passes the cut and is kept; nothing comes from a folder
   * that is not a directory, is refused, or has no inference table.
   */
  lemma {:induction false} CollectRows<T>(folders: seq<Folder>, usable: string -> bool, cutoff: real,
                                          parse: (string, string) -> Outcome<T>)
    requires Collect(folders, usable, cutoff, parse).Some?
    ensures forall row :: row in Collect(folders, usable, cutoff, parse).value <==>
              exists f, d | f in folders && Read(f, usable) && d in f.inference.value ::
                d.logit >= cutoff && parse(f.name, d.filename) == Keep(row)
  {
    if folders != [] {
      var init := folders[..|folders| - 1];
      var f := folders[|folders| - 1];
      CollectRows(init, usable, cutoff, parse);
      assert forall g :: g in folders <==> g in init || g == f by {
        assert folders == init + [f];
      }
      if Read(f, usable) {
        CollectFolderRows(f.name, f.inference.value, cutoff, parse);
      }
    }
  }

  /** A detection read by its file name and keyed with the folder it sits in; a name `read` refuses raises. */
  function KeyedRow<C>(read: string -> Option<C>): (r: (string, string) -> Outcome<(C, string)>) {
    (sound: string, full: string) =>
      match read(full)
      case None => Fail
      case Some(c) => Keep((c, sound))
  }

  /**
   * A keyed row `(c, s)` is collected exactly when a folder named `s` is
   * read and holds a detection that passes the cut and reads as `c`.
   */
  lemma KeyedRowMember<C>(folders: seq<Folder>, usable: string -> bool, cutoff: real,
                          read: string -> Option<C>, c: C, s: string)
    requires Collect(folders, usable, cutoff, KeyedRow(read)).Some?
    ensures (c, s) in Collect(folders, usable, cutoff, KeyedRow(read)).value <==>
            exists f, d | f in folders && Read(f, usable) && d in f.inference.value ::
              f.name == s && d.logit >= cutoff && read(d.filename) == Some(c)
  {
    var parse := KeyedRow(read);
    CollectRows(folders, usable, cutoff, parse);
    if (c, s) in Collect(folders, usable, cutoff, parse).value {
      var f, d :| f in folders && Read(f, usable) && d in f.inference.value
                  && d.logit >= cutoff && parse(f.name, d.filename) == Keep((c, s));
      assert f.name == s && read(d.filename) == Some(c);
    }
    if exists f, d | f in folders && Read(f, usable) && d in f.inference.value ::
         f.name == s && d.logit >= cutoff && read(d.filename) == Some(c) {
      var f, d :| f in folders && Read(f, usable) && d in f.inference.value
                  && f.name == s && d.logit >= cutoff && read(d.filename) == Some(c);
      assert parse(f.name, d.filename) == Keep((c, s));
    }
  }

  /** A failure in a prefix of the folders is a failure of the whole listing. */
  lemma {:induction false} CollectFailurePersists<T>(folders: seq<Folder>, k: nat, usable: string -> bool,
                                                     cutoff: real, parse: (string, string) -> Outcome<T>)
    requires k <= |folders| && Collect(folders[..k], usable, cutoff, parse).None?
    ensures Collect(folders, usable, cutoff, parse).None?
  {
    if k < |folders| {
      assert folders[..|folders| - 1][..k] == folders[..k];
      CollectFailurePersists(folders[..|folders| - 1], k, usable, cutoff, parse);
    } else {
      assert folders[..k] == folders;
    }
  }

  /** The loop over one inference table: cut on the logit, parse each row that passes, stop when one raises. */
  method GatherTable<T>(sound: string, dets: seq<Detection>, cutoff: real,
                        parse: (string, string) -> Outcome<T>) returns (rows: Option<seq<T>>)
    ensures rows == CollectFolder(sound, dets, cutoff, parse)
  {
    var acc: seq<T> := [];
    var j := 0;
    while j < |dets|
      invariant 0 <= j <= |dets|
      invariant CollectFolder(sound, dets[..j], cutoff, parse) == Some(acc)
    {
      var d := dets[j];
      assert dets[..j + 1][..j] == dets[..j];
      if d.logit >= cutoff {
        var out := parse(sound, d.filename);
        if out.Fail? {
          CollectFolderFailure(sound, dets, j + 1, cutoff, parse);
          return None;
        } else if out.Keep? {
          acc := acc + [out.row];
        }
      }
      j := j + 1;
    }
    assert dets[..j] == dets;
    rows := Some(acc);
  }

  /**
   * The loop over the sound folders that every gather step runs: skip what
   * is not read, and collect each table's rows; a row that raises stops the script.
   */
  method GatherRows<T>(folders: seq<Folder>, usable: string -> bool, cutoff: real,
                       parse: (string, string) -> Outcome<T>) returns (rows: Option<seq<T>>)
    ensures rows == Collect(folders, usable, cutoff, parse)
  {
    var acc: seq<T> := [];
    var i := 0;
    while i < |folders|
      invariant 0 <= i <= |folders|
      invariant Collect(folders[..i], usable, cutoff, parse) == Some(acc)
    {
      var f := folders[i];
      assert folders[..i + 1][..i] == folders[..i];
      if f.isDir && usable(f.name) && f.inference.Some? {
        var here := GatherTable(f.name, f.inference.value, cutoff, parse);
        if here.None? {
          CollectFailurePersists(folders, i + 1, usable, cutoff, parse);
          return None;
        }
        acc := acc + here.value;
      }
      i := i + 1;
    }
    assert folders[..i] == folders;
    rows := Some(acc);
  }

  lemma {:induction false} CollectFolderFailure<T>(sound: string, dets: seq<Detection>, k: nat, cutoff: real,
                                                   parse: (string, string) -> Outcome<T>)
    requires k <= |dets| && CollectFolder(sound, dets[..k], cutoff, parse).None?
    ensures CollectFolder(sound, dets, cutoff, parse).None?
  {
    if k < |dets| {
      assert dets[..|dets| - 1][..k] == dets[..k];
      CollectFolderFailure(sound, dets[..|dets| - 1], k, cutoff, parse);
    } else {
      assert dets[..k] == dets;
    }
  }

  /** Every item parsed in order; `None` when any of them raises. */
  function ParseEach<T>(items: seq<string>, parse: string -> Option<T>): (r: Option<seq<T>>)
    ensures r.Some? ==> |r.value| == |items|
    ensures r.Some? ==> forall i | 0 <= i < |items| :: parse(items[i]) == Some(r.value[i])
    ensures r.None? ==> exists i | 0 <= i < |items| :: parse(items[i]).None?
  {
    if items == [] then Some([])
    else
      match ParseEach(items[..|items| - 1], parse)
      case None => None
      case Some(rows) =>
        match parse(items[|items| - 1])
        case None => None
        case Some(row) => Some(rows + [row])
  }

  /** The rows of a successful parse are exactly the parses of its items. */
  lemma ParseEachMembers<T>(items: seq<string>, parse: string -> Option<T>)
    requires ParseEach(items, parse).Some?
    ensures forall x :: x in ParseEach(items, parse).value <==> exists f | f in items :: parse(f) == Some(x)
  {
    var rows := ParseEach(items, parse).value;
    forall x ensures x in rows <==> exists f | f in items :: parse(f) == Some(x) {
      if x in rows {
        var i :| 0 <= i < |rows| && rows[i] == x;
        assert items[i] in items;
      }
      if exists f | f in items :: parse(f) == Some(x) {
        var f :| f in items && parse(f) == Some(x);
        var i :| 0 <= i < |items| && items[i] == f;
        assert rows[i] == x;
      }
    }
  }

  /** The loop over the raw file list appending one parsed row per listed file. */
  method ParseRows<T>(items: seq<string>, parse: string -> Option<T>) returns (rows: Option<seq<T>>)
    ensures rows == ParseEach(items, parse)
  {
    var acc: seq<T> := [];
    var i := 0;
    while i < |items|
      invariant 0 <= i <= |items|
      invariant ParseEach(items[..i], parse) == Some(acc)
    {
      assert items[..i + 1][..i] == items[..i];
      var row := parse(items[i]);
      if row.None? {
        assert ParseEach(items[..i + 1], parse).None?;
        ParseEachFailurePersists(items, i + 1, parse);
        return None;
      }
      acc := acc + [row.value];
      i := i + 1;
    }
    assert items[..i] == items;
    rows := Some(acc);
  }

  lemma {:induction false} ParseEachFailurePersists<T>(items: seq<string>, k: nat, parse: string -> Option<T>)
    requires k <= |items| && ParseEach(items[..k], parse).None?
    ensures ParseEach(items, parse).None?
  {
    if k < |items| {
      assert items[..|items| - 1][..k] == items[..k];
      ParseEachFailurePersists(items[..|items| - 1], k, parse);
    } else {
      assert items[..k] == items;
    }
  }
  /** Each item's outcome in order, dropped ones left out; `None` when any item raises. */
  function KeepEach<S, T>(items: seq<S>, step: S -> Outcome<T>): (r: Option<seq<T>>)
  {
    if items == [] then Some([])
    else
      match KeepEach(items[..|items| - 1], step)
      case None => None
      case Some(rows) =>
        match step(items[|items| - 1])
        case Fail => None
        case Drop => Some(rows)
        case Keep(row) => Some(rows + [row])
  }

  /**
   * The kept rows are those of the items, each as often as an item keeps it:
   * nothing is invented, a dropped item leaves no row, and no item fails.
   */
  lemma KeepEachRows<S, T>(items: seq<S>, step: S -> Outcome<T>)
    requires KeepEach(items, step).Some?
    ensures forall x | x in items :: !step(x).Fail?
    ensures forall row :: row in KeepEach(items, step).value <==> exists x | x in items :: step(x) == Keep(row)
    ensures forall row :: multiset(KeepEach(items, step).value)[row] == multiset(Tables.Keys(items, step))[Keep(row)]
  {
    KeepEachCounts(items, step);
    forall row ensures row in KeepEach(items, step).value <==> exists x | x in items :: step(x) == Keep(row) {
      assert row in KeepEach(items, step).value <==> multiset(KeepEach(items, step).value)[row] > 0;
      assert Keep(row) in Tables.Keys(items, step) <==> multiset(Tables.Keys(items, step))[Keep(row)] > 0;
      if Keep(row) in Tables.Keys(items, step) {
        var i :| 0 <= i < |items| && Tables.Keys(items, step)[i] == Keep(row);
        assert items[i] in items;
      }
      if exists x | x in items :: step(x) == Keep(row) {
        var x :| x in items && step(x) == Keep(row);
        var i :| 0 <= i < |items| && items[i] == x;
        assert Tables.Keys(items, step)[i] == Keep(row);
      }
    }
  }

  /** Each row is kept as often as an item keeps it, and no item fails. */
  lemma {:induction false} KeepEachCounts<S, T>(items: seq<S>, step: S -> Outcome<T>)
    requires KeepEach(items, step).Some?
    ensures forall x | x in items :: !step(x).Fail?
    ensures forall row :: multiset(KeepEach(items, step).value)[row] == multiset(Tables.Keys(items, step))[Keep(row)]
  {
    if items != [] {
      var init := items[..|items| - 1];
      var x := items[|items| - 1];
      KeepEachCounts(init, step);
      assert items == init + [x];
      assert Tables.Keys(items, step) == Tables.Keys(init, step) + [step(x)];
    }
  }

  /** One more item of a prefix that went through: its row appended when kept, nothing when dropped, `None` when it fails. */
  lemma KeepEachStep<S, T>(items: seq<S>, i: nat, step: S -> Outcome<T>, acc: seq<T>)
    requires i < |items| && KeepEach(items[..i], step) == Some(acc)
    ensures KeepEach(items[..i + 1], step) == match step(items[i])
                                              case Fail => None
                                              case Drop => Some(acc)
                                              case Keep(row) => Some(acc + [row])
  {
    assert items[..i + 1][..i] == items[..i];
  }

  /** A failure in a prefix of the items is a failure of them all. */
  lemma {:induction false} KeepEachFailurePersists<S, T>(items: seq<S>, k: nat, step: S -> Outcome<T>)
    requires k <= |items| && KeepEach(items[..k], step).None?
    ensures KeepEach(items, step).None?
  {
    if k < |items| {
      assert items[..|items| - 1][..k] == items[..k];
      KeepEachFailurePersists(items[..|items| - 1], k, step);
    } else {
      assert items[..k] == items;
    }
  }

  /** A loop over rows with `continue` for the rows it skips; a row that raises stops the script. */
  method KeepRows<S, T>(items: seq<S>, step: S -> Outcome<T>) returns (rows: Option<seq<T>>)
    ensures rows == KeepEach(items, step)
  {
    var acc: seq<T> := [];
    var i := 0;
    while i < |items|
      invariant 0 <= i <= |items|
      invariant KeepEach(items[..i], step) == Some(acc)
    {
      assert items[..i + 1][..i] == items[..i];
      var out := step(items[i]);
      if out.Fail? {
        KeepEachFailurePersists(items, i + 1, step);
        return None;
      } else if out.Keep? {
        acc := acc + [out.row];
      }
      i := i + 1;
    }
    assert items[..i] == items;
    rows := Some(acc);
  }

  /** Items that are all kept give one row each, in order. */
  lemma {:induction false} KeepEachAll<S, T>(items: seq<S>, step: S -> Outcome<T>)
    requires forall x | x in items :: step(x).Keep?
    ensures KeepEach(items, step).Some?
    ensures |KeepEach(items, step).value| == |items|
    ensures forall i | 0 <= i < |items| :: KeepEach(items, step).value[i] == step(items[i]).row
  {
    if items != [] {
      var init := items[..|items| - 1];
      assert forall x | x in init :: x in items;
      KeepEachAll(init, step);
    }
  }

  /**
   * A dictionary filled by a loop over rows, each row giving a key and its
   * value: `None` when a row raises, later rows overwriting earlier ones.
   */
  function StoreEach<S, K(==), V>(items: seq<S>, entry: S -> Outcome<(K, V)>): (r: Option<map<K, V>>)
  {
    match KeepEach(items, entry)
    case None => None
    case Some(pairs) => Some(Tables.Store(pairs))
  }

  /** The loop that fills the dictionary, one assignment per row. */
  method StoreRows<S, K(==), V>(items: seq<S>, entry: S -> Outcome<(K, V)>) returns (m: Option<map<K, V>>)
    ensures m == StoreEach(items, entry)
  {
    var d: map<K, V> := map[];
    ghost var pairs: seq<(K, V)> := [];
    for i := 0 to |items|
      invariant KeepEach(items[..i], entry) == Some(pairs)
      invariant d == Tables.Store(pairs)
    {
      assert items[..i + 1][..i] == items[..i];
      var out := entry(items[i]);
      if out.Fail? {
        KeepEachFailurePersists(items, i + 1, entry);
        return None;
      } else if out.Keep? {
        assert (pairs + [out.row])[..|pairs|] == pairs;
        pairs := pairs + [out.row];
        d := d[out.row.0 := out.row.1];
      }
    }
    assert items[..|items|] == items;
    m := Some(d);
  }

  // ------------------------------------------------------------ renaming loops

  /**
   * What a loop of renames has done when it stops: the renames made, in
   * order, and whether it got through every item (an uncaught exception
   * stops it, and the renames already made stay made).
   */
  datatype Run<T> = Run(done: seq<T>, completed: bool)

  function RunEach<S(!new), T>(items: seq<S>, step: S -> Outcome<T>): (r: Run<T>)
    ensures r.completed <==> forall x | x in items :: !step(x).Fail?
  {
    if items == [] then Run([], true)
    else
      assert forall x :: x in items <==> x == items[0] || x in items[1..];
      match step(items[0])
      case Fail => Run([], false)
      case Drop => RunEach(items[1..], step)
      case Keep(row) =>
        var rest := RunEach(items[1..], step);
        Run([row] + rest.done, rest.completed)
  }

  /**
   * A run that gets through every item does what the loop without the
   * exception does; a run stopped at item `k` did what the items before
   * `k` do, and nothing after.
   */
  lemma {:induction false} RunEachStops<S(!new), T>(items: seq<S>, step: S -> Outcome<T>, k: nat)
    requires k < |items| && step(items[k]).Fail?
    requires forall j | 0 <= j < k :: !step(items[j]).Fail?
    ensures RunEach(items[..k], step).completed
    ensures RunEach(items, step) == Run(RunEach(items[..k], step).done, false)
  {
    if k > 0 {
      RunEachStops(items[1..], step, k - 1);
      assert items[..k][1..] == items[1..][..k - 1];
      assert items[..k][0] == items[0];
    }
  }

  /** Every rename in a run comes from an item that asks for it. */
  lemma {:induction false} RunEachRows<S(!new), T>(items: seq<S>, step: S -> Outcome<T>)
    ensures forall row | row in RunEach(items, step).done :: exists x | x in items :: step(x) == Keep(row)
  {
    if items != [] {
      RunEachRows(items[1..], step);
      assert forall x | x in items[1..] :: x in items;
    }
  }

  /** A run over items that are all kept writes one row per item, in order. */
  lemma {:induction false} RunEachAll<S(!new), T>(items: seq<S>, step: S -> Outcome<T>)
    requires forall x | x in items :: step(x).Keep?
    ensures RunEach(items, step).completed
    ensures |RunEach(items, step).done| == |items|
    ensures forall i | 0 <= i < |items| :: RunEach(items, step).done[i] == step(items[i]).row
  {
    if items != [] {
      assert forall x | x in items[1..] :: x in items;
      RunEachAll(items[1..], step);
    }
  }

  /** The run as the prefix already done followed by what the rest of the items do. */
  function Continue<T>(done: seq<T>, rest: Run<T>): (r: Run<T>) {
    Run(done + rest.done, rest.completed)
  }

  /** A loop over items whose step may raise, stopping at the first that does. */
  method RunRows<S(!new), T>(items: seq<S>, step: S -> Outcome<T>) returns (r: Run<T>)
    ensures r == RunEach(items, step)
  {
    var done: seq<T> := [];
    var i := 0;
    while i < |items|
      invariant 0 <= i <= |items|
      invariant RunEach(items, step) == Continue(done, RunEach(items[i..], step))
    {
      assert items[i..][1..] == items[i + 1..];
      var out := step(items[i]);
      if out.Fail? {
        return Run(done, false);
      } else if out.Keep? {
        done := done + [out.row];
      }
      i := i + 1;
    }
    r := Run(done, true);
  }
}
