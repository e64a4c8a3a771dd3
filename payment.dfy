/**
  The payment arithmetic of the loan form: `calculate_monthly_payment` and the
  "total amount paid" figure. Amounts are exact reals; Python's `round(x, 2)` is
  written out as round-half-to-even on hundredths of the exact value.
 */
module Payment {

  /** The status whose payment figures are forced to zero everywhere. */
  const SETTLED: string := "Settled"

  /** `x` is a whole number of cents. */
  ghost predicate IsCents(x: real) {
    (x * 100.0).Floor as real == x * 100.0
  }

  /** The integer nearest to `x`; an exact tie goes to the even neighbour. */
  function RoundHalfEven(x: real): (n: int)
    ensures -0.5 <= n as real - x <= 0.5
    ensures (n as real - x == 0.5 || x - n as real == 0.5) ==> n % 2 == 0
    ensures x.Floor as real == x ==> n == x.Floor
  {
    var f := x.Floor;
    var d := x - f as real;
    if d < 0.5 then f
    else if d > 0.5 then f + 1
    else if f % 2 == 0 then f
    else f + 1
  }

  /** `round(x, 2)`: `x` to the nearest cent. */
  function Round2(x: real): (r: real)
    ensures IsCents(r)
    ensures -0.005 <= r - x <= 0.005
    ensures IsCents(x) ==> r == x
  {
    var n := RoundHalfEven(x * 100.0);
    var r := n as real / 100.0;
    assert r * 100.0 == n as real;
    assert (r * 100.0).Floor == n;
    assert IsCents(x) ==> n as real == x * 100.0;
    r
  }

  /** What a loan of `amount` at `rate` percent simple interest costs in all. */
  function Repayment(amount: real, rate: real): real {
    amount * (rate / 100.0) + amount
  }

  /**
    `calculate_monthly_payment`: zero for a term that is not positive, otherwise
    the whole repayment spread evenly over the term, to the nearest cent.
   */
  function MonthlyPayment(amount: real, rate: real, term: int): (p: real)
    ensures term <= 0 ==> p == 0.0
    ensures term > 0 ==> -0.005 <= p - Repayment(amount, rate) / term as real <= 0.005
    ensures IsCents(p)
  {
    if term <= 0 then 0.0
    else Round2((amount * (rate / 100.0) + amount) / term as real)
  }

  /** The "total amount paid" figure: the monthly payment times the term, to the nearest cent. */
  function TotalPaid(monthly: real, term: int): (t: real)
    ensures IsCents(t)
    ensures -0.005 <= t - monthly * term as real <= 0.005
  {
    Round2(monthly * term as real)
  }

  /**
    Paying the monthly payment for the whole term repays the principal plus its
    simple interest, up to half a cent per month and half a cent of final rounding.
   */
  lemma TotalPaidIsRepayment(amount: real, rate: real, term: int)
    requires term > 0
    ensures var total := TotalPaid(MonthlyPayment(amount, rate, term), term);
      -0.005 * (term + 1) as real <= total - Repayment(amount, rate) <= 0.005 * (term + 1) as real
  {
    var p := MonthlyPayment(amount, rate, term);
    RoundingAccumulates(Repayment(amount, rate), term as real, p, TotalPaid(p, term));
  }

  /**
    If `p` is within half a cent of `owed / t` and `total` within half a cent of
    `p * t`, then `total` is within half a cent per month, plus half a cent, of `owed`.
   */
  lemma RoundingAccumulates(owed: real, t: real, p: real, total: real)
    requires t > 0.0
    requires -0.005 <= p - owed / t <= 0.005
    requires -0.005 <= total - p * t <= 0.005
    ensures -0.005 * (t + 1.0) <= total - owed <= 0.005 * (t + 1.0)
  {
    var q := owed / t;
    var e := p - q;
    assert q * t == owed;
    MultiplyBound(e, 0.005, t);
    assert p * t == q * t + e * t;
    assert -0.005 * t <= e * t <= 0.005 * t;
    assert total - owed == (total - p * t) + e * t;
    assert total - owed <= 0.005 + 0.005 * t;
    assert 0.005 * (t + 1.0) == 0.005 * t + 0.005;
  }

  /** |e| <= b and t > 0 give |e * t| <= b * t. */
  lemma MultiplyBound(e: real, b: real, t: real)
    requires -b <= e <= b && t > 0.0
    ensures -b * t <= e * t <= b * t
  {
  }

  /** A loan of 10000 at 5% over 12 months: 875.00 a month, 10500.00 in all. */
  lemma TwelveMonthExample()
    ensures MonthlyPayment(10000.0, 5.0, 12) == 875.0
    ensures TotalPaid(875.0, 12) == 10500.0
  {
  }
}
