/**
 * The indexed-amount formula (`calculate_updated_mizono_with_link_factor`):
 * the base amount scaled by the current CPI, times a link factor that bridges
 * a change of index base, over the fixed base CPI.
 */
module Indexation {
  import opened Wrappers

  /** No amount when either CPI is missing or the base CPI is 0; otherwise `baseAmount * (current * link / base)`. */
  function UpdatedAmount(baseAmount: real, baseCpi: Option<real>, currentCpi: Option<real>, linkFactor: real): (r: Option<real>)
    ensures r.None? <==> baseCpi.None? || currentCpi.None? || baseCpi.value == 0.0
    ensures r.Some? ==> r.value * baseCpi.value == baseAmount * currentCpi.value * linkFactor
  {
    if baseCpi.None? || currentCpi.None? || baseCpi.value == 0.0 then None
    else Some(baseAmount * (currentCpi.value * linkFactor / baseCpi.value))
  }

  /** With the default link factor 1.0, an unchanged index leaves the amount as it was. */
  lemma UnchangedIndexKeepsAmount(baseAmount: real, cpi: real)
    requires cpi != 0.0
    ensures UpdatedAmount(baseAmount, Some(cpi), Some(cpi), 1.0) == Some(baseAmount)
  {
  }

  /**
   * Fixed-base indexation does not depend on intermediate months: re-indexing
   * an amount computed at CPI `c1` from `c1` to `c2` (link factor 1.0) gives
   * the amount computed directly at `c2`.
   */
  lemma {:induction false} NoChaining(baseAmount: real, baseCpi: real, c1: real, c2: real, linkFactor: real)
    requires baseCpi != 0.0 && c1 != 0.0
    ensures UpdatedAmount(UpdatedAmount(baseAmount, Some(baseCpi), Some(c1), linkFactor).value, Some(c1), Some(c2), 1.0)
         == UpdatedAmount(baseAmount, Some(baseCpi), Some(c2), linkFactor)
  {
    var a1 := UpdatedAmount(baseAmount, Some(baseCpi), Some(c1), linkFactor).value;
    var r := UpdatedAmount(a1, Some(c1), Some(c2), 1.0).value;
    var d := UpdatedAmount(baseAmount, Some(baseCpi), Some(c2), linkFactor).value;
    assert a1 * baseCpi == baseAmount * c1 * linkFactor;
    assert r * c1 == a1 * c2;
    assert d * baseCpi == baseAmount * c2 * linkFactor;
    calc {
      r * c1 * baseCpi;
      a1 * baseCpi * c2;
      baseAmount * linkFactor * c2 * c1;
      d * baseCpi * c1;
    }
  }

  /** A higher current CPI never lowers the amount (for a positive amount, base and link factor). */
  lemma Monotone(baseAmount: real, baseCpi: real, c1: real, c2: real, linkFactor: real)
    requires baseAmount > 0.0 && baseCpi > 0.0 && linkFactor > 0.0 && c1 <= c2
    ensures UpdatedAmount(baseAmount, Some(baseCpi), Some(c1), linkFactor).value
         <= UpdatedAmount(baseAmount, Some(baseCpi), Some(c2), linkFactor).value
  {
  }
}
