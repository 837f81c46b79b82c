/**
 * CPython's `datetime.strptime` and `datetime.strftime` for the two formats
 * the scripts use, `%Y%m%d_%H%M%S` and `%Y%m%d%H%M%S`, on stamps of ASCII
 * digits (CPython's `\d` also takes other Unicode decimal digits).
 *
 * `strptime` turns each directive into a regular expression with ordered
 * alternatives (`%m` is `1[0-2]|0[1-9]|[1-9]`, `%d` also allows a space
 * before a single digit), matches it at the start of the text with
 * backtracking, refuses text left over after the match, and then lets the
 * `datetime` constructor refuse an impossible date (day 31 of April, year 0,
 * second 60 or 61).  Every refusal is a `ValueError`, modelled as `None`.
 */
module Strptime {
  import opened Wrappers
  import opened Calendar

  // ---------------------------------------------------------------- digits

  function DigitChar(n: int): (r: char)
    requires 0 <= n < 10
  {
    ('0' as int + n) as char
  }

  function DigitOf(c: char): (r: int) {
    c as int - '0' as int
  }

  function Pow10(w: nat): (r: nat)
    ensures r >= 1
  {
    if w == 0 then 1 else 10 * Pow10(w - 1)
  }

  /** The value of a run of decimal digits. */
  function DigitsValue(s: string): (r: nat)
    requires forall i | 0 <= i < |s| :: '0' <= s[i] <= '9'
    ensures r < Pow10(|s|)
  {
    if s == [] then 0 else 10 * DigitsValue(s[..|s| - 1]) + DigitOf(s[|s| - 1])
  }

  /** `n` written with exactly `w` digits, zero-padded (`%04d`, `%02d`). */
  function Pad(n: nat, w: nat): (r: string)
    ensures |r| == w
    ensures forall i | 0 <= i < |r| :: '0' <= r[i] <= '9'
  {
    if w == 0 then [] else Pad(n / 10, w - 1) + [DigitChar(n % 10)]
  }

  /** Reading back a zero-padded number gives the number, when it fits the width. */
  lemma {:induction false} PadValue(n: nat, w: nat)
    requires n < Pow10(w)
    ensures DigitsValue(Pad(n, w)) == n
  {
    if w > 0 {
      var p := Pad(n, w);
      assert p[..|p| - 1] == Pad(n / 10, w - 1);
      PadValue(n / 10, w - 1);
    }
  }

  lemma Pad2(n: nat)
    requires n < 100
    ensures Pad(n, 2) == [DigitChar(n / 10), DigitChar(n % 10)]
  {
    var t := n / 10;
    assert t < 10 && t % 10 == t;
    assert Pad(t, 1) == Pad(t / 10, 0) + [DigitChar(t % 10)];
  }

  // ------------------------------------------------------- regex matching

  /** One character position of a regular-expression alternative. */
  datatype CharClass = AnyDigit | DigitIn(lo: char, hi: char) | Exactly(c: char)

  /** A numeric directive with its alternatives in the order the regex tries them, or a literal character. */
  datatype Directive = Field(alts: seq<seq<CharClass>>) | Literal(c: char)

  /** What a successful match captured for each field, and where it stopped. */
  datatype Captured = Captured(texts: seq<string>, end: nat)

  predicate InClass(k: CharClass, c: char) {
    match k
    case AnyDigit => '0' <= c <= '9'
    case DigitIn(lo, hi) => lo <= c <= hi
    case Exactly(e) => c == e
  }

  predicate AltMatches(alt: seq<CharClass>, s: string, i: nat) {
    i + |alt| <= |s| && forall j | 0 <= j < |alt| :: InClass(alt[j], s[i + j])
  }

  /** Backtracking match of `fmt` against `s` from position `i`: the first success in alternative order. */
  function Match(fmt: seq<Directive>, s: string, i: nat): (r: Option<Captured>)
    requires i <= |s|
    ensures r.Some? ==> i <= r.value.end <= |s|
    decreases |fmt|, 1, 0
  {
    if fmt == [] then Some(Captured([], i))
    else match fmt[0]
      case Literal(c) => if i < |s| && s[i] == c then Match(fmt[1..], s, i + 1) else None
      case Field(alts) => TryAlts(alts, fmt[1..], s, i)
  }

  function TryAlts(alts: seq<seq<CharClass>>, rest: seq<Directive>, s: string, i: nat): (r: Option<Captured>)
    requires i <= |s|
    ensures r.Some? ==> i <= r.value.end <= |s|
    decreases |rest| + 1, 0, |alts|
  {
    if alts == [] then None
    else if AltMatches(alts[0], s, i) then
      match Match(rest, s, i + |alts[0]|)
      case Some(c) => Some(Captured([s[i..i + |alts[0]|]] + c.texts, c.end))
      case None => TryAlts(alts[1..], rest, s, i)
    else TryAlts(alts[1..], rest, s, i)
  }

  /** When alternative `k` is the first to match and the rest of the format then matches, that is the result. */
  lemma {:induction false} TryAltsPicks(alts: seq<seq<CharClass>>, rest: seq<Directive>, s: string, i: nat, k: nat)
    requires i <= |s| && k < |alts|
    requires forall j | 0 <= j < k :: !AltMatches(alts[j], s, i)
    requires AltMatches(alts[k], s, i)
    requires Match(rest, s, i + |alts[k]|).Some?
    ensures TryAlts(alts, rest, s, i)
         == Some(Captured([s[i..i + |alts[k]|]] + Match(rest, s, i + |alts[k]|).value.texts,
                          Match(rest, s, i + |alts[k]|).value.end))
  {
    if k > 0 {
      TryAltsPicks(alts[1..], rest, s, i, k - 1);
    }
  }

  /** An alternative whose first class refuses the character at `i` does not match there. */
  lemma FirstCharFails(alt: seq<CharClass>, s: string, i: nat)
    requires |alt| > 0 && i < |s| && !InClass(alt[0], s[i])
    ensures !AltMatches(alt, s, i)
  {
  }

  // `%Y`, `%m`, `%d`, `%H`, `%M`, `%S` as CPython's `_strptime.TimeRE` writes them.
  const YearAlts: seq<seq<CharClass>> := [[AnyDigit, AnyDigit, AnyDigit, AnyDigit]]
  const MonthAlts: seq<seq<CharClass>> :=
    [[Exactly('1'), DigitIn('0', '2')], [Exactly('0'), DigitIn('1', '9')], [DigitIn('1', '9')]]
  const DayAlts: seq<seq<CharClass>> :=
    [[Exactly('3'), DigitIn('0', '1')], [DigitIn('1', '2'), AnyDigit], [Exactly('0'), DigitIn('1', '9')],
     [DigitIn('1', '9')], [Exactly(' '), DigitIn('1', '9')]]
  const HourAlts: seq<seq<CharClass>> :=
    [[Exactly('2'), DigitIn('0', '3')], [DigitIn('0', '1'), AnyDigit], [AnyDigit]]
  const MinuteAlts: seq<seq<CharClass>> := [[DigitIn('0', '5'), AnyDigit], [AnyDigit]]
  const SecondAlts: seq<seq<CharClass>> :=
    [[Exactly('6'), DigitIn('0', '1')], [DigitIn('0', '5'), AnyDigit], [AnyDigit]]

  /** `%Y%m%d_%H%M%S` */
  const StampFormat: seq<Directive> :=
    [Field(YearAlts), Field(MonthAlts), Field(DayAlts), Literal('_'),
     Field(HourAlts), Field(MinuteAlts), Field(SecondAlts)]

  /** `%Y%m%d%H%M%S` */
  const CompactFormat: seq<Directive> :=
    [Field(YearAlts), Field(MonthAlts), Field(DayAlts),
     Field(HourAlts), Field(MinuteAlts), Field(SecondAlts)]

  /** `int()` of a captured field: digits, possibly after the one space `%d` allows. */
  function FieldValue(t: string): (r: nat) {
    var u := if t != [] && t[0] == ' ' then t[1..] else t;
    if forall i | 0 <= i < |u| :: '0' <= u[i] <= '9' then DigitsValue(u) else 0
  }

  /**
   * `datetime.strptime(s, format)` for a format made of the six fields,
   * `None` for `ValueError`; the last check is the `datetime` constructor's
   * (day within its month, second below 60, year from 1 to 9999).
   */
  function Parse(s: string, fmt: seq<Directive>): (r: Option<DateTime>)
    ensures r.Some? ==> Valid(r.value) && InPythonRange(r.value.date)
  {
    match Match(fmt, s, 0)
    case None => None
    case Some(c) =>
      if c.end != |s| || |c.texts| != 6 then None
      else
        var dt := DateTime(Date(FieldValue(c.texts[0]), FieldValue(c.texts[1]), FieldValue(c.texts[2])),
                           FieldValue(c.texts[3]), FieldValue(c.texts[4]), FieldValue(c.texts[5]));
        if Valid(dt) && InPythonRange(dt.date) then Some(dt) else None
  }

  /** `strftime("%Y%m%d")`. */
  function RenderDate(d: Date): (r: string)
    requires InPythonRange(d) && ValidDate(d)
  {
    Pad(d.year, 4) + Pad(d.month, 2) + Pad(d.day, 2)
  }

  /** `strftime("%H%M%S")`. */
  function RenderTime(dt: DateTime): (r: string)
    requires Valid(dt)
  {
    Pad(dt.hour, 2) + Pad(dt.minute, 2) + Pad(dt.second, 2)
  }

  /** The rendered fields are 8 and 6 decimal digits. */
  lemma RenderedDigits(dt: DateTime)
    requires Valid(dt) && InPythonRange(dt.date)
    ensures |RenderDate(dt.date)| == 8 && |RenderTime(dt)| == 6
    ensures forall i | 0 <= i < 8 :: '0' <= RenderDate(dt.date)[i] <= '9'
    ensures forall i | 0 <= i < 6 :: '0' <= RenderTime(dt)[i] <= '9'
  {
    var y, m, d := Pad(dt.date.year, 4), Pad(dt.date.month, 2), Pad(dt.date.day, 2);
    assert forall i | 0 <= i < 8 :: RenderDate(dt.date)[i] == if i < 4 then y[i] else if i < 6 then m[i - 4] else d[i - 6];
    var h, n, c := Pad(dt.hour, 2), Pad(dt.minute, 2), Pad(dt.second, 2);
    assert forall i | 0 <= i < 6 :: RenderTime(dt)[i] == if i < 2 then h[i] else if i < 4 then n[i - 2] else c[i - 4];
  }

  /** Rendered fields hold no `_`, `.` or `/`, so each stays one field of a file name. */
  lemma StampFieldsPlain(dt: DateTime)
    requires Valid(dt) && InPythonRange(dt.date)
    ensures '_' !in RenderDate(dt.date) && '.' !in RenderDate(dt.date) && '/' !in RenderDate(dt.date)
    ensures '_' !in RenderTime(dt) && '.' !in RenderTime(dt) && '/' !in RenderTime(dt)
  {
    RenderedDigits(dt);
  }

  // ---------------------------------------------- canonical text round trip

  lemma FieldValuePad(n: nat, w: nat)
    requires n < Pow10(w)
    ensures FieldValue(Pad(n, w)) == n
  {
    PadValue(n, w);
  }

  /** A four-digit year is matched by `%Y`. */
  lemma YearStep(rest: seq<Directive>, s: string, i: nat, y: nat)
    requires y < 10000 && i + 4 <= |s| && s[i..i + 4] == Pad(y, 4)
    requires Match(rest, s, i + 4).Some?
    ensures Match([Field(YearAlts)] + rest, s, i)
         == Some(Captured([Pad(y, 4)] + Match(rest, s, i + 4).value.texts, Match(rest, s, i + 4).value.end))
  {
    assert ([Field(YearAlts)] + rest)[1..] == rest;
    assert forall j | 0 <= j < 4 :: s[i + j] == Pad(y, 4)[j];
    TryAltsPicks(YearAlts, rest, s, i, 0);
  }

  /** A two-digit field whose canonical text is matched by alternative `k`, all earlier ones failing. */
  lemma TwoDigitStep(alts: seq<seq<CharClass>>, rest: seq<Directive>, s: string, i: nat, n: nat, k: nat)
    requires n < 100 && i + 2 <= |s| && s[i..i + 2] == Pad(n, 2)
    requires k < |alts| && |alts[k]| == 2
    requires forall j | 0 <= j < k :: !AltMatches(alts[j], s, i)
    requires AltMatches(alts[k], s, i)
    requires Match(rest, s, i + 2).Some?
    ensures Match([Field(alts)] + rest, s, i)
         == Some(Captured([Pad(n, 2)] + Match(rest, s, i + 2).value.texts, Match(rest, s, i + 2).value.end))
  {
    assert ([Field(alts)] + rest)[1..] == rest;
    TryAltsPicks(alts, rest, s, i, k);
  }

  lemma MonthStep(rest: seq<Directive>, s: string, i: nat, m: nat)
    requires 1 <= m <= 12 && i + 2 <= |s| && s[i..i + 2] == Pad(m, 2)
    requires Match(rest, s, i + 2).Some?
    ensures Match([Field(MonthAlts)] + rest, s, i)
         == Some(Captured([Pad(m, 2)] + Match(rest, s, i + 2).value.texts, Match(rest, s, i + 2).value.end))
  {
    Pad2(m);
    assert s[i] == Pad(m, 2)[0] && s[i + 1] == Pad(m, 2)[1];
    if m >= 10 {
      TwoDigitStep(MonthAlts, rest, s, i, m, 0);
    } else {
      FirstCharFails(MonthAlts[0], s, i);
      TwoDigitStep(MonthAlts, rest, s, i, m, 1);
    }
  }

  lemma DayStep(rest: seq<Directive>, s: string, i: nat, d: nat)
    requires 1 <= d <= 31 && i + 2 <= |s| && s[i..i + 2] == Pad(d, 2)
    requires Match(rest, s, i + 2).Some?
    ensures Match([Field(DayAlts)] + rest, s, i)
         == Some(Captured([Pad(d, 2)] + Match(rest, s, i + 2).value.texts, Match(rest, s, i + 2).value.end))
  {
    Pad2(d);
    assert s[i] == Pad(d, 2)[0] && s[i + 1] == Pad(d, 2)[1];
    if d >= 30 {
      TwoDigitStep(DayAlts, rest, s, i, d, 0);
    } else if d >= 10 {
      DayStepTens(rest, s, i, d);
    } else {
      DayStepUnits(rest, s, i, d);
    }
  }

  /** Days 10..29 are matched by the second alternative of `%d`. */
  lemma DayStepTens(rest: seq<Directive>, s: string, i: nat, d: nat)
    requires 10 <= d <= 29 && i + 2 <= |s| && s[i..i + 2] == Pad(d, 2)
    requires s[i] == DigitChar(d / 10) && s[i + 1] == DigitChar(d % 10)
    requires Match(rest, s, i + 2).Some?
    ensures Match([Field(DayAlts)] + rest, s, i)
         == Some(Captured([Pad(d, 2)] + Match(rest, s, i + 2).value.texts, Match(rest, s, i + 2).value.end))
  {
    FirstCharFails(DayAlts[0], s, i);
    TwoDigitStep(DayAlts, rest, s, i, d, 1);
  }

  /** Days 1..9, written `01`..`09`, are matched by the third alternative of `%d`. */
  lemma DayStepUnits(rest: seq<Directive>, s: string, i: nat, d: nat)
    requires 1 <= d <= 9 && i + 2 <= |s| && s[i..i + 2] == Pad(d, 2)
    requires s[i] == DigitChar(d / 10) && s[i + 1] == DigitChar(d % 10)
    requires Match(rest, s, i + 2).Some?
    ensures Match([Field(DayAlts)] + rest, s, i)
         == Some(Captured([Pad(d, 2)] + Match(rest, s, i + 2).value.texts, Match(rest, s, i + 2).value.end))
  {
    FirstCharFails(DayAlts[0], s, i);
    FirstCharFails(DayAlts[1], s, i);
    TwoDigitStep(DayAlts, rest, s, i, d, 2);
  }

  lemma HourStep(rest: seq<Directive>, s: string, i: nat, h: nat)
    requires h < 24 && i + 2 <= |s| && s[i..i + 2] == Pad(h, 2)
    requires Match(rest, s, i + 2).Some?
    ensures Match([Field(HourAlts)] + rest, s, i)
         == Some(Captured([Pad(h, 2)] + Match(rest, s, i + 2).value.texts, Match(rest, s, i + 2).value.end))
  {
    Pad2(h);
    assert s[i] == Pad(h, 2)[0] && s[i + 1] == Pad(h, 2)[1];
    if h >= 20 {
      TwoDigitStep(HourAlts, rest, s, i, h, 0);
    } else {
      FirstCharFails(HourAlts[0], s, i);
      TwoDigitStep(HourAlts, rest, s, i, h, 1);
    }
  }

  lemma MinuteStep(rest: seq<Directive>, s: string, i: nat, n: nat)
    requires n < 60 && i + 2 <= |s| && s[i..i + 2] == Pad(n, 2)
    requires Match(rest, s, i + 2).Some?
    ensures Match([Field(MinuteAlts)] + rest, s, i)
         == Some(Captured([Pad(n, 2)] + Match(rest, s, i + 2).value.texts, Match(rest, s, i + 2).value.end))
  {
    Pad2(n);
    assert s[i] == Pad(n, 2)[0] && s[i + 1] == Pad(n, 2)[1];
    TwoDigitStep(MinuteAlts, rest, s, i, n, 0);
  }

  lemma SecondStep(rest: seq<Directive>, s: string, i: nat, n: nat)
    requires n < 60 && i + 2 <= |s| && s[i..i + 2] == Pad(n, 2)
    requires Match(rest, s, i + 2).Some?
    ensures Match([Field(SecondAlts)] + rest, s, i)
         == Some(Captured([Pad(n, 2)] + Match(rest, s, i + 2).value.texts, Match(rest, s, i + 2).value.end))
  {
    Pad2(n);
    assert s[i] == Pad(n, 2)[0] && s[i + 1] == Pad(n, 2)[1];
    FirstCharFails(SecondAlts[0], s, i);
    TwoDigitStep(SecondAlts, rest, s, i, n, 1);
  }

  /** The fields `%H%M%S` match a canonical time text starting at `i`, up to the end of `s`. */
  lemma TimeFields(s: string, i: nat, dt: DateTime)
    requires Valid(dt) && i + 6 == |s| && s[i..] == RenderTime(dt)
    ensures Match([Field(HourAlts), Field(MinuteAlts), Field(SecondAlts)], s, i)
         == Some(Captured([Pad(dt.hour, 2), Pad(dt.minute, 2), Pad(dt.second, 2)], |s|))
  {
    var ph, pm, ps := Pad(dt.hour, 2), Pad(dt.minute, 2), Pad(dt.second, 2);
    assert s[i..] == ph + pm + ps;
    assert s[i..i + 2] == ph;
    assert s[i + 2..i + 4] == pm;
    assert s[i + 4..i + 6] == ps;
    assert Match([], s, i + 6) == Some(Captured([], |s|));
    SecondStep([], s, i + 4, dt.second);
    var f2 := [Field(SecondAlts)];
    assert [Field(SecondAlts)] + [] == f2;
    assert [ps] + [] == [ps];
    assert Match(f2, s, i + 4) == Some(Captured([ps], |s|));
    MinuteStep(f2, s, i + 2, dt.minute);
    var f1 := [Field(MinuteAlts), Field(SecondAlts)];
    assert [Field(MinuteAlts)] + f2 == f1;
    assert [pm] + [ps] == [pm, ps];
    assert Match(f1, s, i + 2) == Some(Captured([pm, ps], |s|));
    HourStep(f1, s, i, dt.hour);
    assert [Field(HourAlts)] + f1 == [Field(HourAlts), Field(MinuteAlts), Field(SecondAlts)];
    assert [ph] + [pm, ps] == [ph, pm, ps];
  }

  /** The fields `%Y%m%d` match a canonical date text at the start of `s`, and the rest of the format follows. */
  lemma DateFields(rest: seq<Directive>, s: string, dt: DateTime)
    requires Valid(dt) && InPythonRange(dt.date) && 8 <= |s| && s[..8] == RenderDate(dt.date)
    requires Match(rest, s, 8).Some?
    ensures Match([Field(YearAlts), Field(MonthAlts), Field(DayAlts)] + rest, s, 0)
         == Some(Captured([Pad(dt.date.year, 4), Pad(dt.date.month, 2), Pad(dt.date.day, 2)]
                          + Match(rest, s, 8).value.texts, Match(rest, s, 8).value.end))
  {
    var d := dt.date;
    var py, pm, pd := Pad(d.year, 4), Pad(d.month, 2), Pad(d.day, 2);
    var c := Match(rest, s, 8).value;
    DateSlices(s, py, pm, pd);
    DayStep(rest, s, 6, d.day);
    var f2 := [Field(DayAlts)] + rest;
    assert Match(f2, s, 6) == Some(Captured([pd] + c.texts, c.end));
    MonthStep(f2, s, 4, d.month);
    var f1 := [Field(MonthAlts)] + f2;
    assert Match(f1, s, 4) == Some(Captured([pm] + ([pd] + c.texts), c.end));
    YearStep(f1, s, 0, d.year);
    assert [Field(YearAlts)] + f1 == [Field(YearAlts), Field(MonthAlts), Field(DayAlts)] + rest;
    assert [py] + ([pm] + ([pd] + c.texts)) == [py, pm, pd] + c.texts;
  }

  /** The three fields of a date text at the start of `s`. */
  lemma DateSlices(s: string, py: string, pm: string, pd: string)
    requires |py| == 4 && |pm| == 2 && |pd| == 2 && 8 <= |s| && s[..8] == py + pm + pd
    ensures s[0..4] == py && s[4..6] == pm && s[6..8] == pd
  {
    assert s[0..4] == s[..8][0..4];
    assert s[4..6] == s[..8][4..6];
    assert s[6..8] == s[..8][6..8];
  }

  lemma ValuesOfCanonical(dt: DateTime)
    requires Valid(dt) && InPythonRange(dt.date)
    ensures FieldValue(Pad(dt.date.year, 4)) == dt.date.year
    ensures FieldValue(Pad(dt.date.month, 2)) == dt.date.month
    ensures FieldValue(Pad(dt.date.day, 2)) == dt.date.day
    ensures FieldValue(Pad(dt.hour, 2)) == dt.hour
    ensures FieldValue(Pad(dt.minute, 2)) == dt.minute
    ensures FieldValue(Pad(dt.second, 2)) == dt.second
  {
    FieldValuePad(dt.date.year, 4);
    FieldValuePad(dt.date.month, 2);
    FieldValuePad(dt.date.day, 2);
    FieldValuePad(dt.hour, 2);
    FieldValuePad(dt.minute, 2);
    FieldValuePad(dt.second, 2);
  }

  /** `strptime(strftime(dt, "%Y%m%d_%H%M%S"), "%Y%m%d_%H%M%S") == dt`. */
  lemma StampRoundTrip(dt: DateTime)
    requires Valid(dt) && InPythonRange(dt.date)
    ensures Parse(RenderDate(dt.date) + "_" + RenderTime(dt), StampFormat) == Some(dt)
  {
    var s := RenderDate(dt.date) + "_" + RenderTime(dt);
    var tf := [Field(HourAlts), Field(MinuteAlts), Field(SecondAlts)];
    assert s[9..] == RenderTime(dt);
    TimeFields(s, 9, dt);
    assert Match([Literal('_')] + tf, s, 8) == Match(tf, s, 9) by {
      assert s[8] == '_';
      assert ([Literal('_')] + tf)[1..] == tf;
    }
    assert s[..8] == RenderDate(dt.date);
    DateFields([Literal('_')] + tf, s, dt);
    assert StampFormat == [Field(YearAlts), Field(MonthAlts), Field(DayAlts)] + ([Literal('_')] + tf);
    ValuesOfCanonical(dt);
  }

  /** `strptime(strftime(dt, "%Y%m%d%H%M%S"), "%Y%m%d%H%M%S") == dt`. */
  lemma CompactRoundTrip(dt: DateTime)
    requires Valid(dt) && InPythonRange(dt.date)
    ensures Parse(RenderDate(dt.date) + RenderTime(dt), CompactFormat) == Some(dt)
  {
    var s := RenderDate(dt.date) + RenderTime(dt);
    var tf := [Field(HourAlts), Field(MinuteAlts), Field(SecondAlts)];
    assert s[8..] == RenderTime(dt);
    TimeFields(s, 8, dt);
    assert s[..8] == RenderDate(dt.date);
    DateFields(tf, s, dt);
    assert CompactFormat == [Field(YearAlts), Field(MonthAlts), Field(DayAlts)] + tf;
    ValuesOfCanonical(dt);
  }
}
