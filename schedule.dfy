/**
 * The update schedule: the base month and every `freq` months after it. The
 * next-update cursor walks it until it passes today.
 */
module Schedule {
  import opened Calendar

  /** The update frequencies the calculator offers, in months. */
  predicate ValidFrequency(freq: int) {
    freq == 1 || freq == 3 || freq == 6 || freq == 12
  }

  /** The k-th schedule point: `k * freq` months after the base month. */
  function SchedulePoint(base: Period, freq: int, k: int): (p: Period)
    ensures ValidPeriod(p)
    ensures MonthIndex(p) == MonthIndex(base) + k * freq
  {
    ShiftMonths(base, k * freq)
  }

  /** How many schedule points fall on or before today's month. */
  function PointsUpTo(base: Period, freq: int, today: Date): nat
    requires freq >= 1
  {
    var t := MonthIndex(PeriodOf(today)) - MonthIndex(base);
    if t < 0 then 0 else t / freq + 1
  }

  /** Each schedule point is the previous one plus `freq` months. */
  lemma SchedulePointStep(base: Period, freq: int, k: int)
    ensures SchedulePoint(base, freq, k + 1) == ShiftMonths(SchedulePoint(base, freq, k), freq)
  {
  }

  /** The schedule points are strictly increasing. */
  lemma SchedulePointsIncrease(base: Period, freq: int, j: nat, k: nat)
    requires freq >= 1 && j < k
    ensures MonthIndex(SchedulePoint(base, freq, j)) < MonthIndex(SchedulePoint(base, freq, k))
  {
  }

  /** Point k is on or before today exactly when k is below the count of points up to today. */
  lemma OnOrBeforeIffBelowCount(base: Period, freq: int, today: Date, k: nat)
    requires ValidPeriod(base) && ValidDate(today) && freq >= 1
    ensures OnOrBefore(FirstOf(SchedulePoint(base, freq, k)), today) <==> k < PointsUpTo(base, freq, today)
  {
    FirstOfOnOrBefore(SchedulePoint(base, freq, k), today);
    WithinQuotient(MonthIndex(PeriodOf(today)) - MonthIndex(base), freq, k);
  }

  /** `k` steps of `freq` fit in `t` exactly when `t` is not negative and `k` is at most `t / freq`. */
  lemma WithinQuotient(t: int, freq: int, k: nat)
    requires freq >= 1
    ensures k * freq <= t <==> t >= 0 && k <= t / freq
  {
    var q := t / freq;
    assert q * freq <= t < q * freq + freq;
    if k <= q {
      MulMonotone(k, q, freq);
    } else {
      MulMonotone(q + 1, k, freq);
      assert (q + 1) * freq == q * freq + freq;
    }
    assert k * freq >= 0 by {
      MulMonotone(0, k, freq);
    }
  }

  lemma MulMonotone(a: int, b: int, c: int)
    requires a <= b && c >= 0
    ensures a * c <= b * c
  {
  }

  /**
   * Lines 251-267: start at the base month and step by `freq` months while
   * the cursor is on or before today. The result is the first schedule point
   * after today: the base month itself when that is already after today, and
   * otherwise a point whose predecessor is on or before today.
   */
  method NextUpdate(base: Period, freq: int, today: Date) returns (next: Period)
    requires ValidPeriod(base) && ValidFrequency(freq) && ValidDate(today)
    ensures next == SchedulePoint(base, freq, PointsUpTo(base, freq, today))
    ensures !OnOrBefore(FirstOf(next), today)
    ensures next == base || OnOrBefore(FirstOf(ShiftMonths(next, -freq)), today)
  {
    ghost var k: nat := 0;
    ghost var count := PointsUpTo(base, freq, today);
    next := base;
    FromMonthIndexOf(base);
    while OnOrBefore(FirstOf(next), today)
      invariant k <= count
      invariant next == SchedulePoint(base, freq, k)
      invariant k == 0 || OnOrBefore(FirstOf(SchedulePoint(base, freq, k - 1)), today)
      decreases count - k
    {
      OnOrBeforeIffBelowCount(base, freq, today, k);
      next := AddMonths(next, freq);
      SchedulePointStep(base, freq, k);
      k := k + 1;
    }
    OnOrBeforeIffBelowCount(base, freq, today, k);
    if k > 0 {
      SchedulePointStep(base, freq, k - 1);
      ShiftMonthsTwice(SchedulePoint(base, freq, k - 1), freq, -freq);
      FromMonthIndexOf(SchedulePoint(base, freq, k - 1));
    }
  }

  /**
   * The point the cursor stops at is the first one after today: every earlier
   * schedule point is on or before today.
   */
  lemma NextUpdateIsFirstAfterToday(base: Period, freq: int, today: Date, j: nat)
    requires ValidPeriod(base) && ValidFrequency(freq) && ValidDate(today)
    ensures !OnOrBefore(FirstOf(SchedulePoint(base, freq, PointsUpTo(base, freq, today))), today)
    ensures j < PointsUpTo(base, freq, today) ==> OnOrBefore(FirstOf(SchedulePoint(base, freq, j)), today)
    ensures !OnOrBefore(FirstOf(base), today) ==> SchedulePoint(base, freq, PointsUpTo(base, freq, today)) == base
  {
    FromMonthIndexOf(base);
    OnOrBeforeIffBelowCount(base, freq, today, 0);
    OnOrBeforeIffBelowCount(base, freq, today, PointsUpTo(base, freq, today));
    OnOrBeforeIffBelowCount(base, freq, today, j);
  }
}
