/**
 * The latest published CPI month. The CPI of a month is published on the
 * 15th of the following month, so before the 15th the newest value is two
 * months back and from the 15th on it is one month back.
 */
module Publication {
  import opened Calendar

  /** How many months before today's month the newest published CPI is. */
  function PublicationLag(day: int): (lag: int)
    ensures lag == 1 || lag == 2
  {
    if day < 15 then 2 else 1
  }

  /** The newest published CPI month, as a month count. */
  function LaggedPeriod(today: Date): (p: Period)
    ensures ValidPeriod(p)
  {
    ShiftMonths(PeriodOf(today), -PublicationLag(today.day))
  }

  /** The "requested index is not in the future" test: a later year, or the same year and a later month. */
  predicate IsFuture(p: Period, today: Date) {
    p.year > today.year || (p.year == today.year && p.month > today.month)
  }

  /**
   * The newest published month lies `lag` months before today's month; its
   * year is today's year less one exactly when the subtraction crosses
   * January, and today's year otherwise.
   */
  lemma LaggedPeriodShape(today: Date)
    requires ValidDate(today)
    ensures MonthIndex(LaggedPeriod(today)) == MonthIndex(PeriodOf(today)) - PublicationLag(today.day)
    ensures today.month <= PublicationLag(today.day) ==>
      LaggedPeriod(today) == Period(today.year - 1, today.month - PublicationLag(today.day) + 12)
    ensures today.month > PublicationLag(today.day) ==>
      LaggedPeriod(today) == Period(today.year, today.month - PublicationLag(today.day))
  {
  }

  /** The newest published month is strictly before today's, so the future guard never fires on it. */
  lemma LaggedPeriodNotFuture(today: Date)
    requires ValidDate(today)
    ensures MonthIndex(LaggedPeriod(today)) < MonthIndex(PeriodOf(today))
    ensures !IsFuture(LaggedPeriod(today), today)
  {
  }

  /** Lines 190-201: subtract the lag from today's month, then roll the year back if the month fell to 0 or below. */
  method LaggedLookup(today: Date) returns (p: Period)
    requires ValidDate(today)
    ensures p == LaggedPeriod(today)
  {
    var lookupMonth := today.month;
    var lookupYear := today.year;
    if today.day < 15 {
      lookupMonth := lookupMonth - 2;
    } else {
      lookupMonth := lookupMonth - 1;
    }
    if lookupMonth <= 0 {
      lookupMonth := lookupMonth + 12;
      lookupYear := lookupYear - 1;
    }
    p := Period(lookupYear, lookupMonth);
    LaggedPeriodShape(today);
  }

  /** Lines 203-218: a period in the future is replaced by today's month less the lag, recomputed from scratch. */
  method GuardAgainstFuture(p: Period, today: Date) returns (q: Period)
    requires ValidDate(today)
    ensures q == if IsFuture(p, today) then LaggedPeriod(today) else p
  {
    var lookupYear := p.year;
    var lookupMonth := p.month;
    if lookupYear > today.year || (lookupYear == today.year && lookupMonth > today.month) {
      lookupYear := today.year;
      lookupMonth := today.month;
      if today.day < 15 {
        lookupMonth := lookupMonth - 2;
        if lookupMonth <= 0 {
          lookupMonth := lookupMonth + 12;
          lookupYear := lookupYear - 1;
        }
      } else {
        lookupMonth := lookupMonth - 1;
        if lookupMonth <= 0 {
          lookupMonth := lookupMonth + 12;
          lookupYear := lookupYear - 1;
        }
      }
      LaggedPeriodShape(today);
    }
    q := Period(lookupYear, lookupMonth);
  }

  /** Lines 190-218: the CPI month the current amount is computed from; strictly before today's month. */
  method LatestPublishedPeriod(today: Date) returns (p: Period)
    requires ValidDate(today)
    ensures ValidPeriod(p)
    ensures p == LaggedPeriod(today)
    ensures MonthIndex(p) < MonthIndex(PeriodOf(today))
  {
    var lagged := LaggedLookup(today);
    p := GuardAgainstFuture(lagged, today);
    LaggedPeriodNotFuture(today);
  }
}
