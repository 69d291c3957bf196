/**
 * Calendar months and dates as the calculator uses them.
 *
 * A `Period` is a (year, month) pair: the key of one CPI observation and the
 * month of one update point. Months are counted on a single line by
 * `MonthIndex`, so that "n months later" is plain integer addition.
 */
module Calendar {

  datatype Period = Period(year: int, month: int)

  /** A today-style date: `datetime.now()` without its time of day. */
  datatype Date = Date(year: int, month: int, day: int)

  predicate ValidMonth(m: int) {
    1 <= m <= 12
  }

  predicate ValidPeriod(p: Period) {
    ValidMonth(p.month)
  }

  predicate IsLeapYear(y: int) {
    y % 4 == 0 && (y % 100 != 0 || y % 400 == 0)
  }

  function DaysInMonth(year: int, month: int): (n: int)
    requires ValidMonth(month)
    ensures 28 <= n <= 31
  {
    if month == 2 then (if IsLeapYear(year) then 29 else 28)
    else if month == 4 || month == 6 || month == 9 || month == 11 then 30
    else 31
  }

  predicate ValidDate(d: Date) {
    ValidMonth(d.month) && 1 <= d.day <= DaysInMonth(d.year, d.month)
  }

  /** Number of months since January of year 0. */
  function MonthIndex(p: Period): int {
    p.year * 12 + (p.month - 1)
  }

  function FromMonthIndex(n: int): (p: Period)
    ensures ValidPeriod(p)
    ensures MonthIndex(p) == n
  {
    Period(n / 12, n % 12 + 1)
  }

  lemma FromMonthIndexOf(p: Period)
    requires ValidPeriod(p)
    ensures FromMonthIndex(MonthIndex(p)) == p
  {
  }

  /** The month `k` months after `p` (before it, for negative `k`). */
  function ShiftMonths(p: Period, k: int): (q: Period)
    ensures ValidPeriod(q)
    ensures MonthIndex(q) == MonthIndex(p) + k
  {
    FromMonthIndex(MonthIndex(p) + k)
  }

  lemma ShiftMonthsTwice(p: Period, j: int, k: int)
    ensures ShiftMonths(ShiftMonths(p, j), k) == ShiftMonths(p, j + k)
  {
  }

  /** The month `p` seen as a date: the first of that month. */
  function FirstOf(p: Period): Date {
    Date(p.year, p.month, 1)
  }

  function PeriodOf(d: Date): Period {
    Period(d.year, d.month)
  }

  /**
   * Date comparison `a <= b`. A `datetime(y, m, 1)` is midnight, so it is at
   * or before a `datetime.now()` on the same day whatever the time of day:
   * comparing (year, month, day) lexicographically is exact for that case.
   */
  predicate OnOrBefore(a: Date, b: Date) {
    a.year < b.year || (a.year == b.year && (a.month < b.month || (a.month == b.month && a.day <= b.day)))
  }

  /** A first-of-month is on or before `today` exactly when its month is not later than today's. */
  lemma FirstOfOnOrBefore(p: Period, today: Date)
    requires ValidPeriod(p) && ValidDate(today)
    ensures OnOrBefore(FirstOf(p), today) <==> MonthIndex(p) <= MonthIndex(PeriodOf(today))
  {
  }

  /**
   * Month addition with year rollover (`next_month = month + freq` followed
   * by `while next_month > 12`).
   */
  method AddMonths(p: Period, freq: int) returns (q: Period)
    requires ValidPeriod(p) && freq >= 0
    ensures q == ShiftMonths(p, freq)
  {
    var nextMonth := p.month + freq;
    var nextYear := p.year;
    while nextMonth > 12
      invariant nextMonth >= 1
      invariant nextYear * 12 + nextMonth == p.year * 12 + p.month + freq
    {
      nextMonth := nextMonth - 12;
      nextYear := nextYear + 1;
    }
    q := Period(nextYear, nextMonth);
    FromMonthIndexOf(q);
  }

  /** The month before `p`: January steps back to December of the year before. */
  method MonthBefore(p: Period) returns (q: Period)
    requires ValidPeriod(p)
    ensures q == ShiftMonths(p, -1)
  {
    var month := p.month;
    var year := p.year;
    month := month - 1;
    if month == 0 {
      month := 12;
      year := year - 1;
    }
    q := Period(year, month);
    FromMonthIndexOf(q);
  }

  /** The month before January of year y is December of year y - 1, and otherwise it is in the same year. */
  lemma MonthBeforeRollover(p: Period)
    requires ValidPeriod(p)
    ensures p.month == 1 ==> ShiftMonths(p, -1) == Period(p.year - 1, 12)
    ensures p.month > 1 ==> ShiftMonths(p, -1) == Period(p.year, p.month - 1)
  {
  }
}
