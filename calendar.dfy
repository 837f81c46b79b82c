/**
 * Naive Python `datetime` values on the proleptic Gregorian calendar: whole
 * seconds, no time zone.  Shifting by whole hours (`dt + timedelta(hours=h)`)
 * carries through days, months and years one calendar day at a time, and is
 * specified against a seconds-since-epoch count (day 0 is 0001-01-01, as for
 * Python's `date.toordinal() - 1`).
 */
module Calendar {

  datatype Date = Date(year: int, month: int, day: int)

  datatype DateTime = DateTime(date: Date, hour: int, minute: int, second: int)

  predicate IsLeap(y: int) {
    y % 4 == 0 && (y % 100 != 0 || y % 400 == 0)
  }

  function DaysInMonth(y: int, m: int): (r: int) {
    if m == 2 then (if IsLeap(y) then 29 else 28)
    else if m == 4 || m == 6 || m == 9 || m == 11 then 30
    else 31
  }

  predicate ValidDate(d: Date) {
    1 <= d.month <= 12 && 1 <= d.day <= DaysInMonth(d.year, d.month)
  }

  predicate Valid(dt: DateTime) {
    ValidDate(dt.date) && 0 <= dt.hour < 24 && 0 <= dt.minute < 60 && 0 <= dt.second < 60
  }

  /** Python's `datetime` only holds years 1 to 9999; leaving them raises `OverflowError`. */
  predicate InPythonRange(d: Date) {
    1 <= d.year <= 9999
  }

  function NextDay(d: Date): (r: Date) {
    if d.day < DaysInMonth(d.year, d.month) then Date(d.year, d.month, d.day + 1)
    else if d.month < 12 then Date(d.year, d.month + 1, 1)
    else Date(d.year + 1, 1, 1)
  }

  function PrevDay(d: Date): (r: Date) {
    if d.day > 1 then Date(d.year, d.month, d.day - 1)
    else if d.month > 1 then Date(d.year, d.month - 1, DaysInMonth(d.year, d.month - 1))
    else Date(d.year - 1, 12, 31)
  }

  /** `d + timedelta(days=n)`, one day at a time. */
  function AddDays(d: Date, n: int): (r: Date)
    decreases if n < 0 then -n else n
  {
    if n == 0 then d
    else if n > 0 then AddDays(NextDay(d), n - 1)
    else AddDays(PrevDay(d), n + 1)
  }

  /** `dt + timedelta(hours=h)`: the hour wraps modulo 24 and the overflow moves the date. */
  function ShiftHours(dt: DateTime, h: int): (r: DateTime) {
    var t := dt.hour + h;
    DateTime(AddDays(dt.date, t / 24), t % 24, dt.minute, dt.second)
  }

  /** Days in the years before `y`. */
  function DaysBeforeYear(y: int): (r: int) {
    var p := y - 1;
    365 * p + p / 4 - p / 100 + p / 400
  }

  /** Days in the months of year `y` before month `m`. */
  function DaysBeforeMonth(y: int, m: int): (r: int)
    requires 1 <= m <= 12
  {
    var base :=
      if m == 1 then 0 else if m == 2 then 31 else if m == 3 then 59 else if m == 4 then 90
      else if m == 5 then 120 else if m == 6 then 151 else if m == 7 then 181 else if m == 8 then 212
      else if m == 9 then 243 else if m == 10 then 273 else if m == 11 then 304 else 334;
    if m > 2 && IsLeap(y) then base + 1 else base
  }

  /** Days since 0001-01-01. */
  function DayNumber(d: Date): (r: int)
    requires ValidDate(d)
  {
    DaysBeforeYear(d.year) + DaysBeforeMonth(d.year, d.month) + d.day - 1
  }

  /** Seconds since 0001-01-01 00:00:00. */
  function EpochSeconds(dt: DateTime): (r: int)
    requires Valid(dt)
  {
    DayNumber(dt.date) * 86400 + dt.hour * 3600 + dt.minute * 60 + dt.second
  }

  /** Seconds since midnight. */
  function SecondOfDay(dt: DateTime): (r: int)
    requires Valid(dt)
    ensures 0 <= r < 86400
  {
    dt.hour * 3600 + dt.minute * 60 + dt.second
  }

  lemma DivStep4(p: int)
    ensures (p + 1) / 4 == p / 4 + (if (p + 1) % 4 == 0 then 1 else 0)
  {
  }

  lemma DivStep100(p: int)
    ensures (p + 1) / 100 == p / 100 + (if (p + 1) % 100 == 0 then 1 else 0)
  {
  }

  lemma DivStep400(p: int)
    ensures (p + 1) / 400 == p / 400 + (if (p + 1) % 400 == 0 then 1 else 0)
  {
  }

  lemma YearLength(y: int)
    ensures DaysBeforeYear(y + 1) == DaysBeforeYear(y) + (if IsLeap(y) then 366 else 365)
  {
    DivStep4(y - 1);
    DivStep100(y - 1);
    DivStep400(y - 1);
  }

  /** The day after a valid date is a valid date, one day later. */
  lemma NextDayStep(d: Date)
    requires ValidDate(d)
    ensures ValidDate(NextDay(d))
    ensures DayNumber(NextDay(d)) == DayNumber(d) + 1
  {
    if d.day == DaysInMonth(d.year, d.month) && d.month == 12 {
      YearLength(d.year);
    }
  }

  /** The day before a valid date is a valid date, one day earlier. */
  lemma PrevDayStep(d: Date)
    requires ValidDate(d)
    ensures ValidDate(PrevDay(d))
    ensures DayNumber(PrevDay(d)) == DayNumber(d) - 1
  {
    if d.day == 1 && d.month == 1 {
      YearLength(d.year - 1);
    }
  }

  lemma PrevNext(d: Date)
    requires ValidDate(d)
    ensures PrevDay(NextDay(d)) == d && NextDay(PrevDay(d)) == d
  {
  }

  /** Moving by `n` days keeps a date valid and moves its day number by exactly `n`. */
  lemma {:induction false} AddDaysNumber(d: Date, n: int)
    requires ValidDate(d)
    ensures ValidDate(AddDays(d, n))
    ensures DayNumber(AddDays(d, n)) == DayNumber(d) + n
    decreases if n < 0 then -n else n
  {
    if n > 0 {
      NextDayStep(d);
      AddDaysNumber(NextDay(d), n - 1);
    } else if n < 0 {
      PrevDayStep(d);
      AddDaysNumber(PrevDay(d), n + 1);
    }
  }

  lemma {:induction false} AddDaysAfterNext(d: Date, n: int)
    requires ValidDate(d)
    ensures AddDays(NextDay(d), n) == AddDays(d, n + 1)
  {
    if n < 0 {
      PrevNext(d);
    }
  }

  lemma {:induction false} AddDaysAfterPrev(d: Date, n: int)
    requires ValidDate(d)
    ensures AddDays(PrevDay(d), n) == AddDays(d, n - 1)
  {
    if n > 0 {
      PrevNext(d);
    }
  }

  /** Moving by `a` days and then by `b` days is moving by `a + b` days. */
  lemma {:induction false} AddDaysAdd(d: Date, a: int, b: int)
    requires ValidDate(d)
    ensures AddDays(AddDays(d, a), b) == AddDays(d, a + b)
    decreases if a < 0 then -a else a
  {
    if a > 0 {
      NextDayStep(d);
      AddDaysAdd(NextDay(d), a - 1, b);
      AddDaysAfterNext(d, a - 1 + b);
    } else if a < 0 {
      PrevDayStep(d);
      AddDaysAdd(PrevDay(d), a + 1, b);
      AddDaysAfterPrev(d, a + 1 + b);
    }
  }

  /**
   * Shifting by `h` hours gives a valid datetime exactly `3600 * h` seconds
   * later, with minutes and seconds untouched.
   */
  lemma ShiftHoursSeconds(dt: DateTime, h: int)
    requires Valid(dt)
    ensures Valid(ShiftHours(dt, h))
    ensures EpochSeconds(ShiftHours(dt, h)) == EpochSeconds(dt) + 3600 * h
    ensures ShiftHours(dt, h).minute == dt.minute && ShiftHours(dt, h).second == dt.second
  {
    var t := dt.hour + h;
    var q, r := t / 24, t % 24;
    assert t == 24 * q + r;
    AddDaysNumber(dt.date, q);
    var n := DayNumber(dt.date);
    calc {
      EpochSeconds(ShiftHours(dt, h));
      (n + q) * 86400 + r * 3600 + dt.minute * 60 + dt.second;
      n * 86400 + (24 * q + r) * 3600 + dt.minute * 60 + dt.second;
      EpochSeconds(dt) + 3600 * h;
    }
  }

  /** Shifting by `h` hours and then by `-h` hours gives back the original datetime. */
  lemma ShiftHoursInverse(dt: DateTime, h: int)
    requires Valid(dt)
    ensures ShiftHours(ShiftHours(dt, h), -h) == dt
  {
    var t := dt.hour + h;
    var q, r := t / 24, t % 24;
    assert r - h == dt.hour - 24 * q;
    assert (r - h) / 24 == -q && (r - h) % 24 == dt.hour;
    AddDaysAdd(dt.date, q, -q);
  }

  /** A shift of less than a day moves the calendar date by at most one day. */
  lemma ShiftHoursDate(dt: DateTime, h: int)
    requires Valid(dt)
    requires -24 < h < 24
    ensures var d := ShiftHours(dt, h).date;
      d == PrevDay(dt.date) || d == dt.date || d == NextDay(dt.date)
    ensures h >= 0 ==> ShiftHours(dt, h).date != PrevDay(dt.date) || PrevDay(dt.date) == dt.date
    ensures h <= 0 ==> ShiftHours(dt, h).date != NextDay(dt.date) || NextDay(dt.date) == dt.date
  {
    var t := dt.hour + h;
    assert -24 <= t < 48;
    assert -1 <= t / 24 <= 1;
    assert h >= 0 ==> t / 24 >= 0;
    assert h <= 0 ==> t / 24 <= 0;
    if t / 24 == 1 {
      assert AddDays(NextDay(dt.date), 0) == NextDay(dt.date);
    } else if t / 24 == -1 {
      assert AddDays(PrevDay(dt.date), 0) == PrevDay(dt.date);
    }
  }
  /** More years before means at least as many days before. */
  lemma {:induction false} DaysBeforeYearMonotone(a: int, b: int)
    requires a <= b
    ensures DaysBeforeYear(a) <= DaysBeforeYear(b)
    decreases b - a
  {
    if a < b {
      DaysBeforeYearMonotone(a, b - 1);
      YearLength(b - 1);
    }
  }

  /** A valid date's day number lies inside its own year. */
  lemma DayNumberInYear(d: Date)
    requires ValidDate(d)
    ensures DaysBeforeYear(d.year) <= DayNumber(d) < DaysBeforeYear(d.year + 1)
  {
    YearLength(d.year);
  }

  /** A valid date in an earlier year has a smaller day number. */
  lemma YearOrder(a: Date, b: Date)
    requires ValidDate(a) && ValidDate(b)
    ensures a.year < b.year ==> DayNumber(a) < DayNumber(b)
  {
    DayNumberInYear(a);
    DayNumberInYear(b);
    if a.year < b.year {
      DaysBeforeYearMonotone(a.year + 1, b.year);
    }
  }

  /** Within one year, a valid date in an earlier month has a smaller day number. */
  lemma MonthOrder(a: Date, b: Date)
    requires ValidDate(a) && ValidDate(b) && a.year == b.year
    ensures a.month < b.month ==> DayNumber(a) < DayNumber(b)
  {
  }

  /** Distinct valid dates have distinct day numbers. */
  lemma DayNumberInjective(a: Date, b: Date)
    requires ValidDate(a) && ValidDate(b) && DayNumber(a) == DayNumber(b)
    ensures a == b
  {
    YearOrder(a, b);
    YearOrder(b, a);
    MonthOrder(a, b);
    MonthOrder(b, a);
  }
}
