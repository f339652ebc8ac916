/** The dinar figures of a quote.  US dollars are counted in cents, a rate and a
    commission in hundredths of a dinar, the four figures in whole dinars. */
module Pricing {
  import opened Basics

  datatype RequestType = Deposit | Withdrawal

  const TRANSFER_STEP := 1000

  datatype Figures = Figures(converted: int, commission: int, rounding: int, total: int)

  datatype PriceError = AmountBelowCommission(fee: int)

  /** ROUND_HALF_UP of n/d to a whole number: to nearest, ties away from zero. */
  function HalfUp(n: int, d: nat): int
    requires d > 0
  {
    if n >= 0 then (2 * n + d) / (2 * d) else -((-2 * n + d) / (2 * d))
  }

  function ToTransferStep(value: int): int {
    HalfUp(value, TRANSFER_STEP) * TRANSFER_STEP
  }

  function Converted(rate: int, amount: int): int {
    HalfUp(amount * rate, 10_000)
  }

  function Commission(per100: int, amount: int): int {
    HalfUp(amount * per100, 1_000_000)
  }

  function Subtotal(rate: int, per100: int, amount: int, kind: RequestType): int {
    if kind.Withdrawal?
    then Converted(rate, amount) - Commission(per100, amount)
    else Converted(rate, amount) + Commission(per100, amount)
  }

  function Price(rate: int, per100: int, amount: int, kind: RequestType): Result<Figures, PriceError> {
    var converted := Converted(rate, amount);
    var commission := Commission(per100, amount);
    var subtotal := if kind.Withdrawal? then converted - commission else converted + commission;
    var total := ToTransferStep(subtotal);
    if kind.Withdrawal? && total < TRANSFER_STEP then Refused(AmountBelowCommission(commission))
    else Ok(Figures(converted, commission, total - subtotal, total))
  }

  /** The exact, unrounded figure in millionths of a dinar: amount x (rate +- commission/100). */
  function Exact(rate: int, per100: int, amount: int, kind: RequestType): int {
    if kind.Withdrawal? then amount * (100 * rate - per100) else amount * (100 * rate + per100)
  }

  // ------------------------------------------------------------- rounding --

  lemma ProductMonotone(a: int, b: int, k: int)
    requires a <= b && 0 <= k
    ensures a * k <= b * k
  {
    assert (b - a) * k >= 0;
  }

  /** Integer division, characterised by its quotient. */
  lemma QuotientUnique(x: int, y: int, q: int)
    requires y > 0
    ensures q == x / y <==> q * y <= x < (q + 1) * y
  {
    var h := x / y;
    assert x == h * y + x % y && (h + 1) * y == h * y + y;
    if q < h {
      ProductMonotone(q + 1, h, y);
    } else if h < q {
      ProductMonotone(h + 1, q, y);
    }
  }

  /** HalfUp is the one integer within half of n/d that takes ties upwards. */
  lemma HalfUpNearest(n: int, d: nat, q: int)
    requires d > 0 && n >= 0
    ensures q == HalfUp(n, d) <==> (2 * q - 1) * d <= 2 * n < (2 * q + 1) * d
  {
    QuotientUnique(2 * n + d, 2 * d, q);
    var p := q * d;
    assert q * (2 * d) == 2 * p && (q + 1) * (2 * d) == 2 * p + 2 * d;
    assert (2 * q - 1) * d == 2 * p - d && (2 * q + 1) * d == 2 * p + d;
  }

  /** Below zero the tie goes the other way, away from zero. */
  lemma HalfUpOdd(n: int, d: nat)
    requires d > 0
    ensures HalfUp(-n, d) == -HalfUp(n, d)
  {
    if n == 0 {
      assert d / (2 * d) == 0;
    }
  }

  /** Rounding is monotone on the whole line. */
  lemma HalfUpMonotone(m: int, n: int, d: nat)
    requires d > 0 && m <= n
    ensures HalfUp(m, d) <= HalfUp(n, d)
  {
    if 0 <= m {
      Nonnegative(m, n, d);
    } else if n <= 0 {
      Nonnegative(-n, -m, d);
      HalfUpOdd(-m, d);
      HalfUpOdd(-n, d);
    } else {
      HalfUpNearest(n, d, HalfUp(n, d));
      HalfUpNearest(-m, d, HalfUp(-m, d));
      HalfUpOdd(-m, d);
    }
  }

  lemma Nonnegative(m: int, n: int, d: nat)
    requires d > 0 && 0 <= m <= n
    ensures HalfUp(m, d) <= HalfUp(n, d)
  {
    var x, y := 2 * m + d, 2 * n + d;
    QuotientUnique(x, 2 * d, x / (2 * d));
    QuotientUnique(y, 2 * d, y / (2 * d));
    if y / (2 * d) < x / (2 * d) {
      ProductMonotone(y / (2 * d) + 1, x / (2 * d), 2 * d);
    }
  }

  /** A transfer total is a multiple of 1000 and no multiple of 1000 is nearer. */
  lemma StepIsNearest(value: int, k: int)
    ensures ToTransferStep(value) % TRANSFER_STEP == 0
    ensures -500 <= ToTransferStep(value) - value <= 500
    ensures Abs(ToTransferStep(value) - value) <= Abs(k * TRANSFER_STEP - value)
  {
    StepWithinHalf(value);
    var q := HalfUp(value, TRANSFER_STEP);
    hide HalfUp;
    assert q < k ==> k * TRANSFER_STEP - value >= 500;
    assert k < q ==> value - k * TRANSFER_STEP >= 500;
  }

  lemma StepWithinHalf(value: int)
    ensures -500 <= HalfUp(value, TRANSFER_STEP) * TRANSFER_STEP - value <= 500
  {
  }

  function Abs(x: int): nat {
    if x < 0 then -x else x
  }

  // ------------------------------------------------------- reconciliation --

  /** The figures shown on a receipt add up, the total is a whole step, and the
      company's own contribution never passes half a step. */
  lemma Reconciles(rate: int, per100: int, amount: int, kind: RequestType)
    requires Price(rate, per100, amount, kind).Ok?
    ensures var f := Price(rate, per100, amount, kind).value;
      && f.total == (if kind.Withdrawal? then f.converted - f.commission else f.converted + f.commission) + f.rounding
      && f.total % TRANSFER_STEP == 0
      && -500 <= f.rounding <= 500
      && (kind.Withdrawal? ==> f.total >= TRANSFER_STEP)
  {
    StepIsNearest(Subtotal(rate, per100, amount, kind), 0);
  }

  /** A withdrawal is refused exactly when less than half a step would be paid. */
  lemma RefusedIff(rate: int, per100: int, amount: int, kind: RequestType)
    ensures Price(rate, per100, amount, kind).Refused?
      <==> kind.Withdrawal? && Converted(rate, amount) - Commission(per100, amount) < 500
  {
  }

  // ---------------------------------------------------------- error bound --

  lemma ConvertedError(rate: int, amount: int)
    requires 0 <= rate && 0 <= amount
    ensures -5_000 <= 10_000 * Converted(rate, amount) - amount * rate <= 5_000
  {
    assert amount * rate >= 0;
  }

  lemma CommissionError(per100: int, amount: int)
    requires 0 <= per100 && 0 <= amount
    ensures -500_000 <= 1_000_000 * Commission(per100, amount) - amount * per100 <= 500_000
  {
    assert amount * per100 >= 0;
  }

  /** Two roundings to a dinar cost at most one dinar between them. */
  lemma SubtotalError(rate: int, per100: int, amount: int, kind: RequestType)
    requires 0 <= rate && 0 <= per100 && 0 <= amount
    ensures -1_000_000 <= 1_000_000 * Subtotal(rate, per100, amount, kind) - Exact(rate, per100, amount, kind)
          <= 1_000_000
  {
    ConvertedError(rate, amount);
    CommissionError(per100, amount);
    ExactExpanded(rate, per100, amount, kind);
  }

  lemma ExactExpanded(rate: int, per100: int, amount: int, kind: RequestType)
    ensures Exact(rate, per100, amount, kind)
         == 100 * (amount * rate) + (if kind.Withdrawal? then -(amount * per100) else amount * per100)
  {
    var x, y := amount * rate, amount * per100;
    assert amount * (100 * rate) == 100 * x;
    assert amount * (100 * rate - per100) == amount * (100 * rate) - y;
    assert amount * (100 * rate + per100) == amount * (100 * rate) + y;
  }

  /** Every quoted total is within 501 dinars of the exact figure. */
  lemma TotalError(rate: int, per100: int, amount: int, kind: RequestType)
    requires 0 <= rate && 0 <= per100 && 0 <= amount
    requires Price(rate, per100, amount, kind).Ok?
    ensures -501_000_000
          <= 1_000_000 * Price(rate, per100, amount, kind).value.total - Exact(rate, per100, amount, kind)
                <= 501_000_000
  {
    SubtotalError(rate, per100, amount, kind);
    StepIsNearest(Subtotal(rate, per100, amount, kind), 0);
  }

  // ------------------------------------------------------------ splitting --

  function Sum(xs: seq<int>): int {
    if xs == [] then 0 else Sum(xs[..|xs| - 1]) + xs[|xs| - 1]
  }

  predicate AllQuoted(rate: int, per100: int, amounts: seq<int>, kind: RequestType) {
    forall i :: 0 <= i < |amounts| ==> 0 <= amounts[i] && Price(rate, per100, amounts[i], kind).Ok?
  }

  /** What a client pays, or is paid, across separately quoted amounts. */
  function SumOfTotals(rate: int, per100: int, amounts: seq<int>, kind: RequestType): int
    requires AllQuoted(rate, per100, amounts, kind)
  {
    if amounts == [] then 0
    else
      SumOfTotals(rate, per100, amounts[..|amounts| - 1], kind)
      + Price(rate, per100, amounts[|amounts| - 1], kind).value.total
  }

  lemma {:induction false} SumError(rate: int, per100: int, amounts: seq<int>, kind: RequestType)
    requires 0 <= rate && 0 <= per100
    requires AllQuoted(rate, per100, amounts, kind)
    ensures 0 <= Sum(amounts)
    ensures -501_000_000 * |amounts|
          <= 1_000_000 * SumOfTotals(rate, per100, amounts, kind) - Exact(rate, per100, Sum(amounts), kind)
                <= 501_000_000 * |amounts|
    ensures kind.Withdrawal? ==> 499_000_000 * |amounts| <= Exact(rate, per100, Sum(amounts), kind)
  {
    if amounts == [] {
      assert Exact(rate, per100, 0, kind) == 0;
    } else {
      var init, last := amounts[..|amounts| - 1], amounts[|amounts| - 1];
      SumError(rate, per100, init, kind);
      TotalError(rate, per100, last, kind);
      SubtotalError(rate, per100, last, kind);
      RefusedIff(rate, per100, last, kind);
      ExactIsLinear(rate, per100, Sum(init), last, kind);
    }
  }

  lemma ExactIsLinear(rate: int, per100: int, a: int, b: int, kind: RequestType)
    ensures Exact(rate, per100, a + b, kind) == Exact(rate, per100, a, kind) + Exact(rate, per100, b, kind)
  {
    var k := if kind.Withdrawal? then 100 * rate - per100 else 100 * rate + per100;
    assert (a + b) * k == a * k + b * k;
  }

  /** Splitting an amount into n quotes moves the money by at most 501 dinars a
      quote, and amounts that can each be withdrawn can be withdrawn together. */
  lemma SplittingBound(rate: int, per100: int, amounts: seq<int>, kind: RequestType)
    requires 0 <= rate && 0 <= per100
    requires amounts != []
    requires AllQuoted(rate, per100, amounts, kind)
    ensures Price(rate, per100, Sum(amounts), kind).Ok?
    ensures Abs(SumOfTotals(rate, per100, amounts, kind) - Price(rate, per100, Sum(amounts), kind).value.total)
          <= 501 * (|amounts| + 1)
  {
    SumError(rate, per100, amounts, kind);
    if |amounts| == 1 {
      assert amounts[..0] == [];
      assert Sum(amounts) == Sum(amounts[..0]) + amounts[0];
    } else {
      SubtotalError(rate, per100, Sum(amounts), kind);
      RefusedIff(rate, per100, Sum(amounts), kind);
    }
    TotalError(rate, per100, Sum(amounts), kind);
  }

  // --------------------------------------------------------- monotonicity --

  /** A larger deposit never costs less. */
  lemma DepositMonotone(rate: int, per100: int, a: int, b: int)
    requires 0 <= rate && 0 <= per100 && 0 <= a <= b
    ensures Price(rate, per100, a, Deposit).Ok? && Price(rate, per100, b, Deposit).Ok?
    ensures Price(rate, per100, a, Deposit).value.total <= Price(rate, per100, b, Deposit).value.total
  {
    ProductMonotone(a, b, rate);
    ProductMonotone(a, b, per100);
    HalfUpMonotone(a * rate, b * rate, 10_000);
    HalfUpMonotone(a * per100, b * per100, 1_000_000);
    HalfUpMonotone(Subtotal(rate, per100, a, Deposit), Subtotal(rate, per100, b, Deposit), TRANSFER_STEP);
  }

  /** What a withdrawal pays: its total, or nothing when it is refused. */
  function Payout(rate: int, per100: int, amount: int): int {
    match Price(rate, per100, amount, Withdrawal)
    case Ok(figures) => figures.total
    case Refused(_) => 0
  }

  const DINAR := 1_000_000
  const HALF_DINAR := 500_000

  /** The exact figure of a withdrawal, in millionths of a dinar. */
  function Net(rate: int, per100: int, amount: int): int {
    Exact(rate, per100, amount, Withdrawal)
  }

  /** Which of its two neighbouring dinars an inexact figure becomes: the higher one
      when its fraction exceeds the fraction of the conversion plus a half. */
  predicate RoundsUp(rate: int, per100: int, amount: int) {
    Net(rate, per100, amount) % DINAR > (100 * (amount * rate) + HALF_DINAR) % DINAR
  }

  /** Two half-up roundings and a subtraction come to one of the two dinars around
      the exact figure, and to the figure itself when it is whole. */
  lemma SubtotalIsNet(rate: int, per100: int, amount: int)
    requires 0 <= rate && 0 <= per100 && 0 <= amount
    ensures Subtotal(rate, per100, amount, Withdrawal)
         == Net(rate, per100, amount) / DINAR + (if RoundsUp(rate, per100, amount) then 1 else 0)
  {
    var x, y := amount * rate, amount * per100;
    assert x >= 0 && y >= 0;
    ExactExpanded(rate, per100, amount, Withdrawal);
    HalfUpsDiffer(x, y);
  }

  lemma HalfUpsDiffer(x: nat, y: nat)
    ensures var net := 100 * x - y;
      HalfUp(x, 10_000) - HalfUp(y, 1_000_000)
      == net / DINAR + (if net % DINAR > (100 * x + HALF_DINAR) % DINAR then 1 else 0)
  {
    assert HalfUp(x, 10_000) == (100 * x + HALF_DINAR) / DINAR;
    assert HalfUp(y, 1_000_000) == (y + HALF_DINAR) / DINAR;
  }

  function Paid(subtotal: int): int {
    if subtotal < 500 then 0 else (subtotal + 500) / TRANSFER_STEP * TRANSFER_STEP
  }

  lemma PayoutOfSubtotal(rate: int, per100: int, amount: int)
    ensures Payout(rate, per100, amount) == Paid(Subtotal(rate, per100, amount, Withdrawal))
  {
  }

  /** The larger withdrawal pays less exactly when both exact figures lie within the
      one dinar below a half step, and rounding carries the smaller amount over that
      half step and not the larger. */
  predicate StraddlesHalfStep(rate: int, per100: int, a: int, b: int) {
    var edge := Net(rate, per100, a) / DINAR;
    && edge == Net(rate, per100, b) / DINAR
    && 0 <= edge && edge % TRANSFER_STEP == 499
    && RoundsUp(rate, per100, a) && !RoundsUp(rate, per100, b)
  }

  /** When asking for more pays less, and how much less: always exactly one step, the
      last one when the half step is the first. */
  lemma LargerPaysLessIff(rate: int, per100: int, a: int, b: int)
    requires 0 <= rate && 0 <= per100 && 0 <= a <= b
    ensures Payout(rate, per100, b) < Payout(rate, per100, a) <==> StraddlesHalfStep(rate, per100, a, b)
    ensures StraddlesHalfStep(rate, per100, a, b) ==> Payout(rate, per100, b) == Payout(rate, per100, a) - TRANSFER_STEP
    ensures Price(rate, per100, a, Withdrawal).Ok? && Price(rate, per100, b, Withdrawal).Refused?
      <==> StraddlesHalfStep(rate, per100, a, b) && Net(rate, per100, a) / DINAR == 499
  {
    RefusedIff(rate, per100, a, Withdrawal);
    RefusedIff(rate, per100, b, Withdrawal);
    SubtotalIsNet(rate, per100, a);
    SubtotalIsNet(rate, per100, b);
    PayoutOfSubtotal(rate, per100, a);
    PayoutOfSubtotal(rate, per100, b);
    NetMonotone(rate, per100, a, b);
    PayoutDrops(Net(rate, per100, a), Net(rate, per100, b), RoundsUp(rate, per100, a), RoundsUp(rate, per100, b));
    hide Payout, Net, RoundsUp, Converted, Commission;
  }

  lemma PayoutDrops(m: int, n: int, up: bool, up': bool)
    requires m <= n || (n <= m <= 0)
    requires (up ==> m % DINAR > 0) && (up' ==> n % DINAR > 0)
    ensures var edge, s, t := m / DINAR, m / DINAR + (if up then 1 else 0), n / DINAR + (if up' then 1 else 0);
      var straddles := edge == n / DINAR && 0 <= edge && edge % TRANSFER_STEP == 499 && up && !up';
      (Paid(t) < Paid(s) <==> straddles) && (straddles ==> Paid(t) == Paid(s) - TRANSFER_STEP)
  {
  }

  /** Unless the commission outruns the conversion, in which case nothing is paid,
      the exact figure grows with the amount. */
  lemma NetMonotone(rate: int, per100: int, a: int, b: int)
    requires 0 <= a <= b
    ensures Net(rate, per100, a) <= Net(rate, per100, b) || Net(rate, per100, b) <= Net(rate, per100, a) <= 0
  {
    if 100 * rate >= per100 {
      ProductMonotone(a, b, 100 * rate - per100);
    } else {
      ProductMonotone(a, b, per100 - 100 * rate);
      ProductMonotone(0, a, per100 - 100 * rate);
    }
  }

  /** Asking for more never costs more than one step, refusals included. */
  lemma WithdrawalAlmostMonotone(rate: int, per100: int, a: int, b: int)
    requires 0 <= rate && 0 <= per100 && 0 <= a <= b
    ensures Payout(rate, per100, b) >= Payout(rate, per100, a) - TRANSFER_STEP
  {
    LargerPaysLessIff(rate, per100, a, b);
  }

  /** Amounts whose exact figures are a dinar apart are paid in order. */
  lemma ADinarApartIsMonotone(rate: int, per100: int, a: int, b: int)
    requires 0 <= rate && 0 <= per100 && 0 <= a <= b
    requires (b - a) * (100 * rate - per100) >= DINAR
    ensures Payout(rate, per100, a) <= Payout(rate, per100, b)
  {
    ExactIsLinear(rate, per100, a, b - a, Withdrawal);
    LargerPaysLessIff(rate, per100, a, b);
  }

  /** That step can really be lost: one cent more, less than half a dinar more in
      exact terms, and a thousand dinars less. */
  lemma WithdrawalNotMonotone()
    ensures exists rate, per100, a, b ::
      0 <= per100 <= 100 * rate && 0 <= a < b
      && (b - a) * (100 * rate - per100) < DINAR
      && Price(rate, per100, a, Withdrawal).Ok? && Price(rate, per100, b, Withdrawal).Ok?
      && Price(rate, per100, b, Withdrawal).value.total
            == Price(rate, per100, a, Withdrawal).value.total - TRANSFER_STEP
  {
    var rate, per100, a, b := 145_000, 14_064_806, 24_125, 24_126;
    assert Price(rate, per100, a, Withdrawal).value.total == 11_000;
    assert Price(rate, per100, b, Withdrawal).value.total == 10_000;
  }

  /** It can be the last one: an amount is paid, and one cent more is refused as too
      little, with the advice to withdraw more. */
  lemma LargerCanBeRefused()
    ensures exists rate, per100, a, b ::
      0 <= per100 <= 100 * rate && 0 <= a < b
      && Price(rate, per100, a, Withdrawal).Ok? && Price(rate, per100, a, Withdrawal).value.total == TRANSFER_STEP
      && Price(rate, per100, b, Withdrawal).Refused?
  {
    var rate, per100, a, b := 145_000, 14_485_826, 35_223, 35_224;
    assert Price(rate, per100, a, Withdrawal).Ok? && Price(rate, per100, a, Withdrawal).value.total == TRANSFER_STEP;
    assert Price(rate, per100, b, Withdrawal).Refused?;
  }
}
