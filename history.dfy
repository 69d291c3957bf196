/**
 * The simulated update history (lines 275-324): one row per schedule point
 * up to today, each indexed with the CPI of the month before it, stopping at
 * the first point whose CPI is not available.
 */
module History {
  import opened Wrappers
  import opened Calendar
  import opened Indexation
  import opened Schedule

  /** One history row: the update date, the CPI month it was indexed with, that CPI and the amount. */
  datatype Row = Row(effective: Period, cpiPeriod: Period, cpi: real, amount: real)

  /** The CPI month used at an update point: the month before it. */
  function HistoryCpiPeriod(effective: Period): Period {
    ShiftMonths(effective, -1)
  }

  /** Line 294: the walk stops at point k when its CPI, or the base CPI, is missing, or the base CPI is 0. */
  predicate StopsAt(cpi: Period -> Option<real>, baseCpi: Option<real>, base: Period, freq: int, k: int) {
    cpi(HistoryCpiPeriod(SchedulePoint(base, freq, k))).None? || baseCpi.None? || baseCpi.value == 0.0
  }

  /** The row written for schedule point k when the walk does not stop there. */
  function RowAt(cpi: Period -> Option<real>, baseAmount: real, baseCpi: Option<real>, linkFactor: real,
                 base: Period, freq: int, k: int): Row
    requires !StopsAt(cpi, baseCpi, base, freq, k)
  {
    var effective := SchedulePoint(base, freq, k);
    var c := cpi(HistoryCpiPeriod(effective));
    Row(effective, HistoryCpiPeriod(effective), c.value, UpdatedAmount(baseAmount, baseCpi, c, linkFactor).value)
  }

  /**
   * `rows` is the history: the rows of schedule points 0 .. |rows| - 1, none
   * of which stops the walk, and either every point up to today is covered or
   * the next point stops it.
   */
  ghost predicate IsHistory(rows: seq<Row>, cpi: Period -> Option<real>, baseAmount: real, baseCpi: Option<real>,
                            linkFactor: real, base: Period, freq: int, today: Date)
    requires freq >= 1
  {
    && |rows| <= PointsUpTo(base, freq, today)
    && (forall i :: 0 <= i < |rows| ==>
          !StopsAt(cpi, baseCpi, base, freq, i) && rows[i] == RowAt(cpi, baseAmount, baseCpi, linkFactor, base, freq, i))
    && (|rows| < PointsUpTo(base, freq, today) ==> StopsAt(cpi, baseCpi, base, freq, |rows|))
  }

  /** Lines 275-324: walk the schedule from the base month while on or before today. */
  method SimulateHistory(cpi: Period -> Option<real>, baseAmount: real, baseCpi: Option<real>, linkFactor: real,
                         base: Period, freq: int, today: Date) returns (rows: seq<Row>)
    requires ValidPeriod(base) && ValidFrequency(freq) && ValidDate(today)
    ensures IsHistory(rows, cpi, baseAmount, baseCpi, linkFactor, base, freq, today)
  {
    ghost var count := PointsUpTo(base, freq, today);
    rows := [];
    var current := base;
    FromMonthIndexOf(base);
    while OnOrBefore(FirstOf(current), today)
      invariant |rows| <= count
      invariant current == SchedulePoint(base, freq, |rows|)
      invariant forall i :: 0 <= i < |rows| ==>
        !StopsAt(cpi, baseCpi, base, freq, i) && rows[i] == RowAt(cpi, baseAmount, baseCpi, linkFactor, base, freq, i)
      decreases count - |rows|
    {
      OnOrBeforeIffBelowCount(base, freq, today, |rows|);
      var lookup := MonthBefore(current);
      var cpiForHistory := cpi(lookup);
      if cpiForHistory.None? || baseCpi.None? || baseCpi.value == 0.0 {
        return;
      }
      SchedulePointStep(base, freq, |rows|);
      var amount := UpdatedAmount(baseAmount, baseCpi, cpiForHistory, linkFactor);
      if amount.Some? {
        rows := rows + [Row(current, lookup, cpiForHistory.value, amount.value)];
      }
      current := AddMonths(current, freq);
    }
    OnOrBeforeIffBelowCount(base, freq, today, |rows|);
  }

  /** The rows are in strictly increasing date order. */
  lemma HistoryOrdered(rows: seq<Row>, cpi: Period -> Option<real>, baseAmount: real, baseCpi: Option<real>,
                       linkFactor: real, base: Period, freq: int, today: Date, i: nat, j: nat)
    requires ValidFrequency(freq)
    requires IsHistory(rows, cpi, baseAmount, baseCpi, linkFactor, base, freq, today)
    requires i < j < |rows|
    ensures MonthIndex(rows[i].effective) < MonthIndex(rows[j].effective)
  {
  }

  /**
   * Row i is dated at schedule point i, which is on or before today; it is
   * indexed with the CPI of the month before (December of the year before for
   * January), and its amount is the indexation formula applied to that CPI.
   */
  lemma HistoryRow(rows: seq<Row>, cpi: Period -> Option<real>, baseAmount: real, baseCpi: Option<real>,
                   linkFactor: real, base: Period, freq: int, today: Date, i: nat)
    requires ValidPeriod(base) && ValidFrequency(freq) && ValidDate(today)
    requires IsHistory(rows, cpi, baseAmount, baseCpi, linkFactor, base, freq, today)
    requires i < |rows|
    ensures MonthIndex(rows[i].effective) == MonthIndex(base) + i * freq
    ensures OnOrBefore(FirstOf(rows[i].effective), today)
    ensures MonthIndex(rows[i].cpiPeriod) + 1 == MonthIndex(rows[i].effective)
    ensures rows[i].effective.month == 1 ==> rows[i].cpiPeriod == Period(rows[i].effective.year - 1, 12)
    ensures rows[i].effective.month > 1 ==> rows[i].cpiPeriod == Period(rows[i].effective.year, rows[i].effective.month - 1)
    ensures cpi(rows[i].cpiPeriod) == Some(rows[i].cpi)
    ensures baseCpi.Some? && baseCpi.value != 0.0
    ensures rows[i].amount * baseCpi.value == baseAmount * rows[i].cpi * linkFactor
  {
  }

  /** The history is determined by the schedule and the CPI values: two histories of the same inputs are equal. */
  lemma HistoryUnique(rows: seq<Row>, other: seq<Row>, cpi: Period -> Option<real>, baseAmount: real,
                      baseCpi: Option<real>, linkFactor: real, base: Period, freq: int, today: Date)
    requires ValidFrequency(freq)
    requires IsHistory(rows, cpi, baseAmount, baseCpi, linkFactor, base, freq, today)
    requires IsHistory(other, cpi, baseAmount, baseCpi, linkFactor, base, freq, today)
    ensures rows == other
  {
  }

  /** Without a usable base CPI (missing, or 0) no history row is produced. */
  lemma NoBaseCpiNoHistory(rows: seq<Row>, cpi: Period -> Option<real>, baseAmount: real, baseCpi: Option<real>,
                           linkFactor: real, base: Period, freq: int, today: Date)
    requires ValidFrequency(freq)
    requires baseCpi.None? || baseCpi.value == 0.0
    requires IsHistory(rows, cpi, baseAmount, baseCpi, linkFactor, base, freq, today)
    ensures rows == []
  {
    assert rows != [] ==> !StopsAt(cpi, baseCpi, base, freq, 0);
  }

  /** When no schedule point up to today lacks its CPI, every one of them gets a row. */
  lemma CompleteHistory(rows: seq<Row>, cpi: Period -> Option<real>, baseAmount: real, baseCpi: Option<real>,
                        linkFactor: real, base: Period, freq: int, today: Date)
    requires ValidFrequency(freq)
    requires forall k :: 0 <= k < PointsUpTo(base, freq, today) ==> !StopsAt(cpi, baseCpi, base, freq, k)
    requires IsHistory(rows, cpi, baseAmount, baseCpi, linkFactor, base, freq, today)
    ensures |rows| == PointsUpTo(base, freq, today)
  {
  }
}
