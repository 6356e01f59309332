/** The slice of Python's `datetime` the source uses: calendar dates to the
    second, and stepping back one hour or one day with `timedelta`. */
module Calendar {
  import opened Wrappers

  /** A `datetime` to the second; microseconds are not modelled. */
  datatype DateTime = DateTime(year: int, month: int, day: int, hour: int, minute: int, second: int)

  predicate IsLeapYear(y: int) {
    y % 4 == 0 && (y % 100 != 0 || y % 400 == 0)
  }

  function DaysInMonth(y: int, m: int): int
    requires 1 <= m <= 12
  {
    if m == 2 then (if IsLeapYear(y) then 29 else 28)
    else if m == 4 || m == 6 || m == 9 || m == 11 then 30
    else 31
  }

  function DaysInYear(y: int): int {
    if IsLeapYear(y) then 366 else 365
  }

  /** The values `datetime` accepts (years 1 to 9999). */
  predicate Valid(t: DateTime) {
    && 1 <= t.year <= 9999
    && 1 <= t.month <= 12
    && 1 <= t.day <= DaysInMonth(t.year, t.month)
    && 0 <= t.hour < 24 && 0 <= t.minute < 60 && 0 <= t.second < 60
  }

  function DaysBeforeYear(y: int): nat
    requires y >= 1
  {
    if y == 1 then 0 else DaysBeforeYear(y - 1) + DaysInYear(y - 1)
  }

  function DaysBeforeMonth(y: int, m: int): nat
    requires 1 <= m <= 12
  {
    if m == 1 then 0 else DaysBeforeMonth(y, m - 1) + DaysInMonth(y, m - 1)
  }

  /** Whole days since 0001-01-01 (Python's `toordinal() - 1`). */
  function DayNumber(t: DateTime): int
    requires Valid(t)
  {
    DaysBeforeYear(t.year) + DaysBeforeMonth(t.year, t.month) + t.day - 1
  }

  /** Seconds since 0001-01-01T00:00:00: the time line on which the source
      subtracts and compares datetimes. */
  function Seconds(t: DateTime): int
    requires Valid(t)
  {
    DayNumber(t) * 86400 + t.hour * 3600 + t.minute * 60 + t.second
  }

  lemma DaysBeforeDecember(y: int)
    ensures DaysBeforeMonth(y, 12) + 31 == DaysInYear(y)
  {
    assert DaysBeforeMonth(y, 2) == 31;
    assert DaysBeforeMonth(y, 3) == 31 + DaysInMonth(y, 2);
    assert DaysBeforeMonth(y, 4) == 62 + DaysInMonth(y, 2);
    assert DaysBeforeMonth(y, 5) == 92 + DaysInMonth(y, 2);
    assert DaysBeforeMonth(y, 6) == 123 + DaysInMonth(y, 2);
    assert DaysBeforeMonth(y, 7) == 153 + DaysInMonth(y, 2);
    assert DaysBeforeMonth(y, 8) == 184 + DaysInMonth(y, 2);
    assert DaysBeforeMonth(y, 9) == 215 + DaysInMonth(y, 2);
    assert DaysBeforeMonth(y, 10) == 245 + DaysInMonth(y, 2);
    assert DaysBeforeMonth(y, 11) == 276 + DaysInMonth(y, 2);
    assert DaysBeforeMonth(y, 12) == 306 + DaysInMonth(y, 2);
  }

  /** `t - timedelta(days=1)`: the same time of day on the previous calendar
      day; `None` where Python raises OverflowError (before 0001-01-01). */
  function PrevDay(t: DateTime): (r: Option<DateTime>)
    requires Valid(t)
    ensures r.None? <==> (t.year == 1 && t.month == 1 && t.day == 1)
    ensures r.Some? ==> Valid(r.value) && Seconds(r.value) == Seconds(t) - 86400
    ensures r.Some? ==> r.value.hour == t.hour && r.value.minute == t.minute && r.value.second == t.second
  {
    if t.day > 1 then Some(t.(day := t.day - 1))
    else if t.month > 1 then Some(t.(month := t.month - 1, day := DaysInMonth(t.year, t.month - 1)))
    else if t.year > 1 then
      DaysBeforeDecember(t.year - 1);
      Some(t.(year := t.year - 1, month := 12, day := 31))
    else None
  }

  /** `t - timedelta(hours=1)`; `None` where Python raises OverflowError. */
  function PrevHour(t: DateTime): (r: Option<DateTime>)
    requires Valid(t)
    ensures r.None? <==> (t.year == 1 && t.month == 1 && t.day == 1 && t.hour == 0)
    ensures r.Some? ==> Valid(r.value) && Seconds(r.value) == Seconds(t) - 3600
  {
    if t.hour > 0 then Some(t.(hour := t.hour - 1))
    else
      match PrevDay(t)
      case None => None
      case Some(d) => Some(d.(hour := 23))
  }

  /** At hour 0 the previous hour falls on the previous calendar date, so
      its date differs from that of `t`. */
  lemma PrevHourAtMidnight(t: DateTime)
    requires Valid(t) && t.hour == 0 && PrevHour(t).Some?
    ensures var q := PrevHour(t).value;
      q.hour == 23 && (q.year, q.month, q.day) != (t.year, t.month, t.day)
  {
    var d := PrevDay(t).value;
    assert PrevHour(t).value == d.(hour := 23);
  }
}
