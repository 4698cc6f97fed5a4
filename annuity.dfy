/**
 * The closed-form annuity algebra of a fixed-rate, level-payment loan:
 * the monthly payment, the remaining balance after t months and the
 * principal scheduled for month t, for an original balance `lb`, an annual
 * rate `i` given in percent (7.5 means 7.5%) and a term of `n` years.
 *
 * All arithmetic is exact `real` arithmetic.
 */
module Annuity {

  /** x raised to the natural power k. */
  function Pow(x: real, k: nat): real
  {
    if k == 0 then 1.0 else x * Pow(x, k - 1)
  }

  /** The growth of one unit over k months at monthly rate r: (1 + r)^k. */
  function Growth(r: real, k: nat): real
  {
    Pow(1.0 + r, k)
  }

  /** The monthly rate for an annual rate in percent. */
  function MonthlyRate(i: real): real
  {
    (i * 0.01) / 12.0
  }

  /** A month's interest on a balance at the annual rate i (in percent). */
  function MonthlyInterest(balance: real, i: real): real
  {
    balance * MonthlyRate(i)
  }

  /** The number of monthly payments in a term of n years. */
  function Duration(n: nat): nat
  {
    n * 12
  }

  /** (1 + r)^dur - 1, the denominator all three formulas share. */
  function DiscountFactor(i: real, n: nat): real
  {
    Growth(MonthlyRate(i), Duration(n)) - 1.0
  }

  /** The formulas divide by the discount factor: they are defined exactly when it is not zero. */
  predicate Defined(i: real, n: nat)
  {
    DiscountFactor(i, n) != 0.0
  }

  /** The level monthly payment. */
  function LoanPayment(lb: real, i: real, n: nat): real
    requires Defined(i, n)
  {
    var r := MonthlyRate(i);
    lb * ((r * Growth(r, Duration(n))) / DiscountFactor(i, n))
  }

  /** The balance still owed at the end of month t. */
  function RemainingBalance(lb: real, i: real, n: nat, t: nat): real
    requires Defined(i, n)
  {
    var r := MonthlyRate(i);
    lb * ((Growth(r, Duration(n)) - Growth(r, t)) / DiscountFactor(i, n))
  }

  /** The principal repaid by the payment of month t (months count from 1). */
  function ScheduledPrincipal(lb: real, i: real, n: nat, t: nat): real
    requires Defined(i, n)
    requires 1 <= t
  {
    var r := MonthlyRate(i);
    lb * (r * Growth(r, t - 1)) / DiscountFactor(i, n)
  }

  // ---------------------------------------------------------------------
  // Field identities on plain reals, one per proof step below

  lemma StepAlgebra(lb: real, r: real, p: real, q: real, q': real, d: real,
                    before: real, after: real, principal: real)
    requires d != 0.0
    requires q' == (1.0 + r) * q
    requires before == lb * ((p - q) / d)
    requires after == lb * ((p - q') / d)
    requires principal == lb * (r * q) / d
    ensures before - after == principal
  {
  }

  lemma InterestAlgebra(lb: real, r: real, p: real, q: real, d: real,
                        balance: real, principal: real, payment: real)
    requires d != 0.0
    requires balance == lb * ((p - q) / d)
    requires principal == lb * (r * q) / d
    requires payment == lb * ((r * p) / d)
    ensures balance * r + principal == payment
  {
  }

  lemma AccrualAlgebra(lb: real, r: real, payment: real, q: real, q': real, b: real, b': real)
    requires q' == (1.0 + r) * q
    requires r * b == r * lb * q - payment * (q - 1.0)
    requires b' == b + b * r - payment
    ensures r * b' == r * lb * q' - payment * (q' - 1.0)
  {
  }

  lemma PaymentAlgebra(lb: real, r: real, p: real, d: real, owed: real, payment: real, level: real)
    requires r != 0.0 && d == p - 1.0 && d != 0.0
    requires r * owed == r * lb * p - payment * (p - 1.0)
    requires level == lb * ((r * p) / d)
    ensures owed == 0.0 <==> payment == level
  {
  }

  lemma BoundsAlgebra(lb: real, p: real, q: real, d: real, balance: real)
    requires lb >= 0.0 && d > 0.0 && 0.0 <= p - q <= d
    requires balance == lb * ((p - q) / d)
    ensures 0.0 <= balance <= lb
  {
    assert 0.0 <= (p - q) / d <= 1.0;
  }

  lemma SignAlgebra(lb: real, r: real, q: real, d: real, principal: real)
    requires lb >= 0.0 && r >= 0.0 && q >= 0.0 && d > 0.0
    requires principal == lb * (r * q) / d
    ensures principal >= 0.0
  {
  }

  // ---------------------------------------------------------------------
  // Growth factors

  lemma GrowthStep(r: real, k: nat)
    ensures Growth(r, k + 1) == (1.0 + r) * Growth(r, k)
  {
  }

  lemma {:induction false} GrowthAtZeroRate(k: nat)
    ensures Growth(0.0, k) == 1.0
  {
    if k > 0 {
      GrowthAtZeroRate(k - 1);
      GrowthStep(0.0, k - 1);
    }
  }

  lemma {:induction false} GrowthAtLeastOne(r: real, k: nat)
    requires r >= 0.0
    ensures Growth(r, k) >= 1.0
  {
    if k > 0 {
      GrowthAtLeastOne(r, k - 1);
      GrowthStep(r, k - 1);
      assert (1.0 + r) * Growth(r, k - 1) >= Growth(r, k - 1);
    }
  }

  lemma {:induction false} GrowthMonotone(r: real, j: nat, k: nat)
    requires r >= 0.0 && j <= k
    ensures Growth(r, j) <= Growth(r, k)
  {
    if j < k {
      GrowthMonotone(r, j, k - 1);
      GrowthAtLeastOne(r, k - 1);
      GrowthStep(r, k - 1);
      assert (1.0 + r) * Growth(r, k - 1) >= Growth(r, k - 1);
    }
  }

  lemma GrowthAboveOne(r: real, k: nat)
    requires r > 0.0 && k >= 1
    ensures Growth(r, k) > 1.0
  {
    GrowthAtLeastOne(r, k - 1);
    GrowthStep(r, k - 1);
    assert (1.0 + r) * Growth(r, k - 1) > Growth(r, k - 1);
  }

  // ---------------------------------------------------------------------
  // When the formulas are defined

  /** A positive rate over a positive term gives a positive denominator. */
  lemma PositiveRateIsDefined(i: real, n: nat)
    requires i > 0.0 && n > 0
    ensures DiscountFactor(i, n) > 0.0
    ensures Defined(i, n)
  {
    GrowthAboveOne(MonthlyRate(i), Duration(n));
  }

  /** A defined loan has a positive term and a non-zero rate. */
  lemma DefinedHasTermAndRate(i: real, n: nat)
    requires Defined(i, n)
    ensures n > 0 && Duration(n) > 0
    ensures MonthlyRate(i) != 0.0
  {
    if MonthlyRate(i) == 0.0 {
      GrowthAtZeroRate(Duration(n));
    }
  }

  // ---------------------------------------------------------------------
  // The identities between the formulas

  /** Before the first payment the whole original balance is owed. */
  lemma BalanceAtStart(lb: real, i: real, n: nat)
    requires Defined(i, n)
    ensures RemainingBalance(lb, i, n, 0) == lb
  {
  }

  /** After the last payment nothing is owed. */
  lemma BalanceAtMaturity(lb: real, i: real, n: nat)
    requires Defined(i, n)
    ensures RemainingBalance(lb, i, n, Duration(n)) == 0.0
  {
  }

  /** Between two consecutive months the balance falls by exactly the scheduled principal. */
  lemma BalanceStep(lb: real, i: real, n: nat, t: nat)
    requires Defined(i, n) && 1 <= t
    ensures RemainingBalance(lb, i, n, t - 1) - RemainingBalance(lb, i, n, t)
            == ScheduledPrincipal(lb, i, n, t)
  {
    var r := MonthlyRate(i);
    GrowthStep(r, t - 1);
    StepAlgebra(lb, r, Growth(r, Duration(n)), Growth(r, t - 1), Growth(r, t), DiscountFactor(i, n),
                RemainingBalance(lb, i, n, t - 1), RemainingBalance(lb, i, n, t),
                ScheduledPrincipal(lb, i, n, t));
  }

  /** The interest on the balance at the start of month t + 1 plus that month's principal is the level payment. */
  lemma InterestPlusPrincipal(lb: real, i: real, n: nat, t: nat)
    requires Defined(i, n)
    ensures MonthlyInterest(RemainingBalance(lb, i, n, t), i) + ScheduledPrincipal(lb, i, n, t + 1)
            == LoanPayment(lb, i, n)
  {
    var r := MonthlyRate(i);
    assert t + 1 - 1 == t;
    InterestAlgebra(lb, r, Growth(r, Duration(n)), Growth(r, t), DiscountFactor(i, n),
                    RemainingBalance(lb, i, n, t), ScheduledPrincipal(lb, i, n, t + 1),
                    LoanPayment(lb, i, n));
  }

  /** The principal scheduled over months 1..m. */
  function PrincipalPaid(lb: real, i: real, n: nat, m: nat): real
    requires Defined(i, n)
  {
    if m == 0 then 0.0 else PrincipalPaid(lb, i, n, m - 1) + ScheduledPrincipal(lb, i, n, m)
  }

  /** The principal scheduled so far is what the balance has fallen by (the sum telescopes). */
  lemma {:induction false} PrincipalPaidIsBalanceReduction(lb: real, i: real, n: nat, m: nat)
    requires Defined(i, n)
    ensures PrincipalPaid(lb, i, n, m) == lb - RemainingBalance(lb, i, n, m)
  {
    if m > 0 {
      PrincipalPaidIsBalanceReduction(lb, i, n, m - 1);
      BalanceStep(lb, i, n, m);
    }
  }

  /** Over the whole term the scheduled principals add up to the original balance. */
  lemma PrincipalSumsToBalance(lb: real, i: real, n: nat)
    requires Defined(i, n)
    ensures PrincipalPaid(lb, i, n, Duration(n)) == lb
  {
    PrincipalPaidIsBalanceReduction(lb, i, n, Duration(n));
  }

  /** With a positive rate and a non-negative loan the balance never leaves [0, lb] during the term. */
  lemma BalanceBounds(lb: real, i: real, n: nat, t: nat)
    requires i > 0.0 && n > 0 && lb >= 0.0 && t <= Duration(n)
    ensures Defined(i, n)
    ensures 0.0 <= RemainingBalance(lb, i, n, t) <= lb
  {
    PositiveRateIsDefined(i, n);
    var r := MonthlyRate(i);
    GrowthAtLeastOne(r, t);
    GrowthMonotone(r, t, Duration(n));
    BoundsAlgebra(lb, Growth(r, Duration(n)), Growth(r, t), DiscountFactor(i, n),
                  RemainingBalance(lb, i, n, t));
  }

  /** With a positive rate and a non-negative loan the scheduled principal is never negative, so the balance never rises. */
  lemma BalanceNonIncreasing(lb: real, i: real, n: nat, t: nat)
    requires i > 0.0 && n > 0 && lb >= 0.0 && 1 <= t
    ensures Defined(i, n)
    ensures ScheduledPrincipal(lb, i, n, t) >= 0.0
    ensures RemainingBalance(lb, i, n, t) <= RemainingBalance(lb, i, n, t - 1)
  {
    PositiveRateIsDefined(i, n);
    var r := MonthlyRate(i);
    GrowthAtLeastOne(r, t - 1);
    SignAlgebra(lb, r, Growth(r, t - 1), DiscountFactor(i, n), ScheduledPrincipal(lb, i, n, t));
    BalanceStep(lb, i, n, t);
  }

  // ---------------------------------------------------------------------
  // The level payment against an independent month-by-month account

  /**
   * The balance of a loan of `lb` after t months, when each month adds a
   * month's interest at the annual rate i and then takes off `payment`.
   */
  function AccruedBalance(lb: real, i: real, payment: real, t: nat): real
  {
    if t == 0 then lb
    else
      var b := AccruedBalance(lb, i, payment, t - 1);
      b + MonthlyInterest(b, i) - payment
  }

  lemma {:induction false} AccruedBalanceClosedForm(lb: real, i: real, payment: real, t: nat)
    ensures MonthlyRate(i) * AccruedBalance(lb, i, payment, t)
            == MonthlyRate(i) * lb * Growth(MonthlyRate(i), t) - payment * (Growth(MonthlyRate(i), t) - 1.0)
  {
    if t > 0 {
      var r := MonthlyRate(i);
      AccruedBalanceClosedForm(lb, i, payment, t - 1);
      GrowthStep(r, t - 1);
      AccrualAlgebra(lb, r, payment, Growth(r, t - 1), Growth(r, t),
                     AccruedBalance(lb, i, payment, t - 1), AccruedBalance(lb, i, payment, t));
    }
  }

  /** Month by month, the closed-form balance is the balance accrued while paying the level payment. */
  lemma {:induction false} RemainingBalanceIsAccrued(lb: real, i: real, n: nat, t: nat)
    requires Defined(i, n)
    ensures RemainingBalance(lb, i, n, t)
            == AccruedBalance(lb, i, LoanPayment(lb, i, n), t)
  {
    if t > 0 {
      RemainingBalanceIsAccrued(lb, i, n, t - 1);
      BalanceStep(lb, i, n, t);
      InterestPlusPrincipal(lb, i, n, t - 1);
      assert t - 1 + 1 == t;
    }
  }

  /** The level payment is the one and only constant payment that clears the loan in exactly Duration(n) months. */
  lemma LevelPaymentIsUnique(lb: real, i: real, n: nat, payment: real)
    requires Defined(i, n)
    ensures AccruedBalance(lb, i, payment, Duration(n)) == 0.0
            <==> payment == LoanPayment(lb, i, n)
  {
    DefinedHasTermAndRate(i, n);
    AccruedBalanceClosedForm(lb, i, payment, Duration(n));
    PaymentAlgebra(lb, MonthlyRate(i), Growth(MonthlyRate(i), Duration(n)), DiscountFactor(i, n),
                   AccruedBalance(lb, i, payment, Duration(n)), payment, LoanPayment(lb, i, n));
  }
}
