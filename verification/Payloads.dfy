/** What the client is later shown of a stored request: the quote, read back from the row. */
module Payloads {
  import opened Pricing
  import opened Desk
  import opened Submissions

  /** `converted_iqd`. */
  function ConvertedIqd(r: Request): int {
    HalfUp(r.amountUsd * r.rateApplied, 10_000)
  }

  function Metered(r: Request): int {
    if r.kind.Withdrawal? then ConvertedIqd(r) - r.commissionApplied else ConvertedIqd(r) + r.commissionApplied
  }

  /** The request still carries the figures it was priced at. */
  predicate CarriesItsPrice(r: Request) {
    var priced := Price(r.rateApplied, r.commissionRateApplied, r.amountUsd, r.kind);
    priced.Ok? && r.amountIqd == priced.value.total && r.commissionApplied == priced.value.commission
  }

  /** `rounding_iqd`: of a request that carries its price, the rounding of that price,
      never more than half a step; of any request, what makes its figures add up. */
  method RoundingIqd(r: Request) returns (rounding: int)
    ensures CarriesItsPrice(r) ==>
              && rounding == Price(r.rateApplied, r.commissionRateApplied, r.amountUsd, r.kind).value.rounding
              && -500 <= rounding <= 500
    ensures rounding + Metered(r) == r.amountIqd
  {
    var metered := ConvertedIqd(r);
    if r.kind.Withdrawal? {
      metered := metered - r.commissionApplied;
    } else {
      metered := metered + r.commissionApplied;
    }
    rounding := r.amountIqd - metered;
    if CarriesItsPrice(r) {
      Reconciles(r.rateApplied, r.commissionRateApplied, r.amountUsd, r.kind);
    }
  }

  /** The figures as a client reads them back. */
  function FiguresShown(r: Request): Figures {
    Figures(ConvertedIqd(r), r.commissionApplied, r.amountIqd - Metered(r), r.amountIqd)
  }
}
