# CPI-linked support payment calculator: a Dafny model

This project models the calculation engine of `mizon_app2.py`, a small web
app that re-indexes a child-support (mezonot) payment to Israel's consumer
price index (CPI). The engine has four parts:

- **Period key.** `get_date_for_cpi_lookup` formats a (year, month) as the
  `YYYYMM` key that the price-index API expects.
- **Indexed amount.** `calculate_updated_mizono_with_link_factor` computes
  `base_amount * (current * link / base)`. It returns no amount when a CPI is
  missing or the base CPI is 0.
- **Latest published month.** The CPI of a month is published on the 15th of
  the next month. Before the 15th the newest value is two months back; from
  the 15th on it is one month back. A second guard then replaces a period in
  the future, and it never fires.
- **Schedule walks.** The update points are the base month plus every
  `update_frequency_months` months after it. One loop moves a cursor to the
  first point after today (the "next update date"). A second loop builds the
  simulated history: one row per point up to today, each indexed with the CPI
  of the month before it. It stops at the first point whose CPI is missing,
  or when the base CPI is missing or 0 (line 294).

Modules (one file each):

- `Wrappers`: `Option`.
- `Calendar`: periods, dates, month counting, month addition with rollover, the previous month.
- `PeriodKey`: the period key and a parser that reads it back.
- `Indexation`: the formula.
- `Publication`: lines 190–218.
- `Schedule`: the schedule and the next-update cursor.
- `History`: the history walk.
- `Calculator`: one press of the "calculate" button.

How the model is built:

- The CPI service is a parameter `cpi: Period -> Option<real>`. `None` stands
  for every failure: not yet published, network failure and malformed reply.
- "Today" is an input `Date(year, month, day)`.
- Amounts and CPI values are `real`.
- The source compares `datetime(y, m, 1) <= datetime.now()`. The model
  compares (year, month, day) lexicographically, which is exact here because
  the first of a month is at midnight. Lemma `Calendar.FirstOfOnOrBefore` turns
  this into a comparison of month counts.
- Each state-changing part of the source is a method. Its `ensures`, and
  the invariants of its loop where it has one, tie it to specification
  functions and predicates (`ShiftMonths`, `SchedulePoint`, `PointsUpTo`,
  `LaggedPeriod`, `IsHistory`). Lemmas state what the source promises about
  those.

Behaviour of the code that the model keeps:

- The history walk indexes each update point with the CPI of the month
  before it (lines 284-288).
- The current amount uses the CPI published most recently: two months back
  before the 15th, one month back from the 15th on (lines 190-201).
- The history walk stops at the first point it cannot index (line 298).
- The only factor applied on top of the CPI ratio is the constant link factor
  (lines 95, 241, 304).
- The history has one row per update point (lines 279-324).

Note that the history's first row, at the base month, is indexed with the CPI
of the month *before* the base month. The base CPI itself is that of the base
month (line 174), so this row is generally not the base amount. The model keeps
this as written.

## Model

| member | source | states |
|---|---|---|
| `Calendar.AddMonths` | mizon_app2.py:257-261 | month plus frequency, reduced by 12 while above 12: the result month is in 1..12 and the month count grows by exactly the frequency |
| `Calendar.MonthBefore` | mizon_app2.py:284-288 | the history's CPI month is exactly one month before the update point, with a valid month |
| `Calendar.MonthBeforeRollover` | mizon_app2.py:285-288 | January maps to December of the previous year; any other month maps to the previous month of the same year |
| `Calendar.FirstOfOnOrBefore` | mizon_app2.py:255 | the first of a month is on or before today exactly when that month's count is not after today's |
| `PeriodKey.FormatPadded` | mizon_app2.py:19 | Python's `0<width>d` field: it reads back as the number (all digits for a non-negative number, a minus sign followed by the digits of the magnitude for a negative one); it is at least `width` long, the sign included, and exactly `width` for a non-negative number that fits; a longer result has no padding zero |
| `PeriodKey.CpiLookupKey` | mizon_app2.py:15-19 | for a year in 0..9999 and a month in 0..99, the key is 6 digits and parses back to (year, month) |
| `PeriodKey.KeyInjective` | mizon_app2.py:15-19 | in that range, two keys are equal exactly when the periods are equal |
| `Indexation.UpdatedAmount` | mizon_app2.py:76-96 | no amount exactly when the base CPI is missing, the current CPI is missing or the base CPI is 0; otherwise amount × base CPI = base amount × current CPI × link factor |
| `Indexation.UnchangedIndexKeepsAmount` | mizon_app2.py:76-96 | with current CPI equal to base CPI and link factor 1.0, the amount is the base amount |
| `Indexation.NoChaining` | mizon_app2.py:95 | re-indexing an amount from CPI c1 to c2 gives the same result as indexing the base amount directly to c2 |
| `Indexation.Monotone` | mizon_app2.py:95 | for a positive amount, base CPI and link factor, a higher current CPI never gives a lower amount |
| `Publication.LaggedPeriodShape` | mizon_app2.py:190-201 | the lookup month lies 2 months before today's month when day < 15, and 1 month before otherwise; the year drops by one exactly when the subtraction crosses January |
| `Publication.LaggedLookup` | mizon_app2.py:190-201 | the mutated month/year counters end at exactly that lagged period |
| `Publication.LaggedPeriodNotFuture` | mizon_app2.py:190-205 | the lagged period is strictly before today's month, so the future test at lines 204-205 is false for it |
| `Publication.GuardAgainstFuture` | mizon_app2.py:203-218 | a future period is replaced by today's month minus the lag; any other period is unchanged |
| `Publication.LatestPublishedPeriod` | mizon_app2.py:190-218 | the lookup period is valid, equals the lagged period (so the guard changes nothing), and is strictly before today's month |
| `Schedule.SchedulePointStep` | mizon_app2.py:255-267 | each schedule point is the previous point plus the frequency in months |
| `Schedule.SchedulePointsIncrease` | mizon_app2.py:255-267 | schedule points are strictly increasing |
| `Schedule.OnOrBeforeIffBelowCount` | mizon_app2.py:255 | point k is on or before today exactly when k is below the number of points up to today |
| `Schedule.NextUpdate` | mizon_app2.py:251-267 | the loop terminates at the first schedule point after today: the base month when that is after today, otherwise a point whose predecessor is on or before today |
| `Schedule.NextUpdateIsFirstAfterToday` | mizon_app2.py:251-267 | every schedule point before the one the cursor stops at is on or before today; the stopping point is after today; a base month after today is returned unchanged |
| `History.SimulateHistory` | mizon_app2.py:275-324 | the rows are those of schedule points 0..n-1, none of which stops the walk; either n covers every point up to today or point n stops it (missing CPI, missing base CPI, or base CPI 0) |
| `History.HistoryOrdered` | mizon_app2.py:279-324 | rows are in strictly increasing date order |
| `History.HistoryRow` | mizon_app2.py:281-316 | row i is dated base + i·freq months, on or before today; it is indexed with the CPI of the previous month (January → December of the year before); it has a usable base CPI and the formula's amount |
| `History.HistoryUnique` | mizon_app2.py:279-324 | the history is fully determined by the inputs: two results that meet the specification are equal |
| `History.NoBaseCpiNoHistory` | mizon_app2.py:294-298 | with a missing or zero base CPI the history is empty |
| `History.CompleteHistory` | mizon_app2.py:279-324 | when no point up to today lacks its CPI, every schedule point up to today gets exactly one row |
| `Calculator.Calculate` | mizon_app2.py:170-324 | a missing base CPI ends the calculation first; then a missing current CPI (looked up at the lagged period); then a zero base CPI (no amount); otherwise the result holds the formula's amount, the next update point after today, and the specified history |

## Left out

- The HTTP request, XML parsing and exception handling of `get_cpi_value_and_base` (lines 23–72). These are network I/O and a foreign library; the model replaces them with the `cpi` parameter.
- The base descriptor that a CPI reply carries. Its text is only displayed (lines 182, 236), so the `cpi` parameter returns the value alone. A reply with a value but no descriptor is treated as no value (lines 54-58); the `cpi` parameter's `None` covers that case.
- The 12-hour cache (line 23). It also makes every lookup of a period within 12 hours return the same answer, a failure included (the `(None, None)` of lines 63-72 is cached too). The `cpi` function, fixed for one calculation, models exactly that; a service that answers differently for the same period within one calculation is not modelled.
- All user-interface code: inputs, messages, spinner and table display (lines 100–169, 182, 221–247, 269–272, 326–329). The input widgets' bounds (base year from 1990, link factor 0.5–2.0, amount at least 1) are not required, because the engine does not depend on them.
- `st.session_state` (lines 264–267). It is written and read back at once, so the model uses a local variable.
- Floating point and the 2-decimal display formatting (lines 246, 313–314). Amounts are exact `real`s.
- The wall clock. Each `datetime.now()` call (lines 185, 204–216) reads the same `today` input, and the time of day is dropped; the `strftime` strings are not modelled.
- `datetime`'s year range 1..9999. The model does not raise when the cursor moves past year 9999.
