/**
 * One press of the "calculate" button (lines 170-324 of `main`): fetch the
 * base CPI, find and fetch the newest published CPI, compute the updated
 * amount, the next update date and the simulated history.
 *
 * The CPI service is the parameter `cpi`: the value published for a
 * (year, month), or `None` when the service has none (not yet published,
 * network failure or a malformed reply are all `None`).
 */
module Calculator {
  import opened Wrappers
  import opened Calendar
  import opened Indexation
  import opened Publication
  import opened Schedule
  import opened History

  /** The form's inputs. */
  datatype Request = Request(baseAmount: real, base: Period, linkFactor: real, frequency: int)

  predicate ValidRequest(req: Request) {
    ValidPeriod(req.base) && ValidFrequency(req.frequency)
  }

  /** How a calculation ends. */
  datatype Outcome =
    | MissingBaseCpi                      // lines 176-180
    | MissingCurrentCpi(lookup: Period)   // lines 228-233
    | NoAmount(lookup: Period)            // the amount is `None` (line 244): the base CPI is 0
    | Computed(lookup: Period, amount: real, nextUpdate: Period, history: seq<Row>)

  method Calculate(req: Request, today: Date, cpi: Period -> Option<real>) returns (out: Outcome)
    requires ValidRequest(req) && ValidDate(today)
    ensures out.MissingBaseCpi? <==> cpi(req.base).None?
    ensures !out.MissingBaseCpi? ==> out.lookup == LaggedPeriod(today)
    ensures out.MissingCurrentCpi? <==> cpi(req.base).Some? && cpi(LaggedPeriod(today)).None?
    ensures out.NoAmount? <==> cpi(req.base).Some? && cpi(LaggedPeriod(today)).Some? && cpi(req.base).value == 0.0
    ensures out.Computed? ==>
      && Some(out.amount) == UpdatedAmount(req.baseAmount, cpi(req.base), cpi(LaggedPeriod(today)), req.linkFactor)
      && out.nextUpdate == SchedulePoint(req.base, req.frequency, PointsUpTo(req.base, req.frequency, today))
      && IsHistory(out.history, cpi, req.baseAmount, cpi(req.base), req.linkFactor, req.base, req.frequency, today)
    ensures out.Computed? ==> MonthIndex(out.lookup) < MonthIndex(PeriodOf(today)) && !OnOrBefore(FirstOf(out.nextUpdate), today)
  {
    var baseCpi := cpi(req.base);
    if baseCpi.None? {
      return MissingBaseCpi;
    }
    var lookup := LatestPublishedPeriod(today);
    var currentCpi := cpi(lookup);
    if currentCpi.None? {
      return MissingCurrentCpi(lookup);
    }
    var amount := UpdatedAmount(req.baseAmount, baseCpi, currentCpi, req.linkFactor);
    if amount.None? {
      return NoAmount(lookup);
    }
    var next := NextUpdate(req.base, req.frequency, today);
    var history := SimulateHistory(cpi, req.baseAmount, baseCpi, req.linkFactor, req.base, req.frequency, today);
    out := Computed(lookup, amount.value, next, history);
  }
}
