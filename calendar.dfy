/** Python `datetime.datetime` values as the back office uses them: as
    timestamps that are stored and compared, as the start of a loan's calendar
    month arithmetic, and rendered with `str()` inside bug comments. The clock
    itself is not modelled: every operation receives the current time `now`. */
module Calendar {
  import opened Wrappers
  import Text

  datatype DateTime = DateTime(year: int, month: int, day: int,
                               hour: int, minute: int, second: int, microsecond: int)

  /** `datetime.MINYEAR` and `datetime.MAXYEAR`. */
  const MinYear: int := 1
  const MaxYear: int := 9999

  predicate IsLeapYear(y: int)
  {
    y % 4 == 0 && (y % 100 != 0 || y % 400 == 0)
  }

  function DaysInMonth(y: int, m: int): (n: int)
    requires 1 <= m <= 12
    ensures 28 <= n <= 31
  {
    if m == 2 then (if IsLeapYear(y) then 29 else 28)
    else if m == 4 || m == 6 || m == 9 || m == 11 then 30
    else 31
  }

  /** Every field within the range Python's `datetime` accepts. */
  predicate ValidDateTime(d: DateTime)
  {
    && MinYear <= d.year <= MaxYear
    && 1 <= d.month <= 12
    && 1 <= d.day <= DaysInMonth(d.year, d.month)
    && 0 <= d.hour < 24 && 0 <= d.minute < 60 && 0 <= d.second < 60
    && 0 <= d.microsecond < 1000000
  }

  /** A position on the time line. For valid values it orders them as Python
      compares datetimes (and as SQLite compares their stored ISO text): field
      by field, year first. `ORDER BY … DESC` sorts on this key. */
  function Instant(d: DateTime): int
  {
    ((((((d.year * 12 + d.month - 1) * 31 + d.day - 1) * 24 + d.hour) * 60
      + d.minute) * 60 + d.second) * 1000000) + d.microsecond
  }

  /** The year increase and the 1-based month reached by adding `months`
      calendar months to `month` (src/loan.py:117-118). Python's `//` and `%`
      floor; with the positive divisor 12 they agree with Dafny's. The result
      is the only pair with a month in 1..12 whose month index is the old
      index plus `months`. */
  function MonthShift(month: int, months: int): (r: (int, int))
    ensures 1 <= r.1 <= 12
    ensures r.0 * 12 + r.1 - 1 == month - 1 + months
  {
    ((month + months - 1) / 12, (month + months - 1) % 12 + 1)
  }

  /** The end date of a loan approved at `d` for `months` months:
      `d.replace(year=…, month=…)`, which fails (ValueError) when the target
      month has no day `d.day` or the year leaves 1..9999. */
  function AddMonths(d: DateTime, months: int): (r: Option<DateTime>)
    requires ValidDateTime(d)
    ensures r.Some? ==> ValidDateTime(r.value)
    ensures r.Some? ==> r.value.(year := d.year, month := d.month) == d
    ensures r.Some? ==> r.value.year * 12 + r.value.month - 1 == d.year * 12 + d.month - 1 + months
  {
    var shift := MonthShift(d.month, months);
    var year := d.year + shift.0;
    if MinYear <= year <= MaxYear && d.day <= DaysInMonth(year, shift.1)
    then Some(d.(year := year, month := shift.1))
    else None
  }

  /** Adding months never fails for a day that every month has. */
  lemma AddMonthsEarlyDay(d: DateTime, months: int)
    requires ValidDateTime(d) && d.day <= 28
    requires MinYear <= d.year + MonthShift(d.month, months).0 <= MaxYear
    ensures AddMonths(d, months).Some?
  {
  }

  /** A month-end start whose target month is shorter fails: 31 January
      plus one month would be 31 February. */
  lemma AddMonthsMonthEnd()
    ensures AddMonths(DateTime(2025, 1, 31, 9, 0, 0, 0), 1) == None
    ensures AddMonths(DateTime(2024, 1, 29, 9, 0, 0, 0), 1) == Some(DateTime(2024, 2, 29, 9, 0, 0, 0))
  {
  }

  /** Python's `str(d)`: `YYYY-MM-DD HH:MM:SS`, followed by `.ffffff` only
      when the microsecond is not zero. */
  function Format(d: DateTime): string
    requires ValidDateTime(d)
  {
    Text.ZeroPad(d.year, 4) + "-" + Text.ZeroPad(d.month, 2) + "-" + Text.ZeroPad(d.day, 2) + " "
    + Text.ZeroPad(d.hour, 2) + ":" + Text.ZeroPad(d.minute, 2) + ":" + Text.ZeroPad(d.second, 2)
    + (if d.microsecond == 0 then "" else "." + Text.ZeroPad(d.microsecond, 6))
  }
}
