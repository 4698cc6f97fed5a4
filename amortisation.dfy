/**
 * The amortisation schedule of a fixed-rate, level-payment loan: per month
 * the beginning balance, the scheduled principal, the interest and the
 * ending balance, followed by the due dates and the due payments, with the
 * first month's interest and payment adjusted for a stub period when the
 * loan closes on a day other than its pay date.
 *
 * Inputs the schedule takes from its environment are parameters: the
 * rounding of the installment to cents (`round2`), the current date
 * (`today`), calendar month arithmetic (`addMonths`) and the number of days
 * from the closing date to the end of its month (`stubDays`).
 */
module Amortisation {
  import opened Annuity
  import opened BusinessDays

  /** A date argument as a caller passes it: text such as "2019-02-01", or a calendar date. */
  datatype DateValue = Text(text: string) | Calendar(day: Date)

  /** The columns of the schedule, and the rounded installment. */
  datatype Schedule = Schedule(
    installment: real,
    beginningBalance: seq<real>,
    principalRepayment: seq<real>,
    interestAmount: seq<real>,
    endingBalance: seq<real>,
    payDates: seq<Date>,
    duePayments: seq<real>)

  /** The number of due dates and due payments generated, whatever the term of the loan. */
  const DueDateCount: nat := 360

  /**
   * The stub-period adjustment applies when the pay date differs from the
   * closing date. A date given as text never equals a calendar date, so a
   * textual pay date always triggers it.
   */
  function StubApplies(payDate: DateValue, closingDate: Date): (applies: bool)
    ensures payDate.Text? ==> applies
    ensures !applies <==> payDate.Calendar? && payDate.day == closingDate
  {
    payDate != Calendar(closingDate)
  }

  /** Simple interest at the annual rate i (in percent) on lb for the given number of days, on an actual/365 basis. */
  function StubInterest(lb: real, i: real, stubDays: nat): real
  {
    lb * (i * 0.01) * (stubDays as real) / 365.0
  }

  /** The extra interest charged in the first month: the stub interest when the adjustment applies, else nothing. */
  function FirstMonthExtra(lb: real, i: real, payDate: DateValue, closingDate: Date, stubDays: nat): real
  {
    if StubApplies(payDate, closingDate) then StubInterest(lb, i, stubDays) else 0.0
  }

  /** What the schedule of a loan consists of, column by column. */
  ghost predicate IsSchedule(s: Schedule, lb: real, i: real, n: nat, round2: real -> real,
                             today: Date, addMonths: (Date, nat) -> Date,
                             payDate: DateValue, closingDate: Date, stubDays: nat)
    requires Defined(i, n)
  {
    var dur := Duration(n);
    var extra := FirstMonthExtra(lb, i, payDate, closingDate, stubDays);
    && s.installment == round2(LoanPayment(lb, i, n))
    && |s.beginningBalance| == dur
    && |s.principalRepayment| == dur
    && |s.interestAmount| == dur
    && |s.endingBalance| == dur
    && |s.payDates| == DueDateCount
    && |s.duePayments| == DueDateCount
    && (forall k :: 0 <= k < dur ==> s.beginningBalance[k] == RemainingBalance(lb, i, n, k))
    && (forall k :: 0 <= k < dur ==> s.principalRepayment[k] == ScheduledPrincipal(lb, i, n, k + 1))
    && s.interestAmount[0] == MonthlyInterest(s.beginningBalance[0], i) + extra
    && (forall k :: 0 < k < dur ==> s.interestAmount[k] == MonthlyInterest(s.beginningBalance[k], i))
    && (forall k :: 0 <= k < dur ==> s.endingBalance[k] == s.beginningBalance[k] - s.principalRepayment[k])
    && (forall k :: 0 <= k < DueDateCount ==> s.payDates[k] == RollForward(addMonths(today, k + 1)))
    && (forall k :: 0 < k < DueDateCount ==> s.duePayments[k] == s.installment)
    && s.duePayments[0] == (if StubApplies(payDate, closingDate) then extra + s.installment else s.installment)
  }

  /** The balance at the start of each month 0 .. dur-1. */
  method BeginningBalances(lb: real, i: real, n: nat) returns (beginning: seq<real>)
    requires Defined(i, n)
    ensures |beginning| == Duration(n)
    ensures forall k :: 0 <= k < Duration(n) ==> beginning[k] == RemainingBalance(lb, i, n, k)
  {
    beginning := [];
    var k := 0;
    while k < Duration(n)
      invariant k <= Duration(n) && |beginning| == k
      invariant forall j :: 0 <= j < k ==> beginning[j] == RemainingBalance(lb, i, n, j)
    {
      beginning := beginning + [RemainingBalance(lb, i, n, k)];
      k := k + 1;
    }
  }

  /** The scheduled principal of each month 1 .. dur, entry k holding month k + 1. */
  method PrincipalRepayments(lb: real, i: real, n: nat) returns (principal: seq<real>)
    requires Defined(i, n)
    ensures |principal| == Duration(n)
    ensures forall k :: 0 <= k < Duration(n) ==> principal[k] == ScheduledPrincipal(lb, i, n, k + 1)
  {
    principal := [];
    var k := 1;
    while k <= Duration(n)
      invariant 1 <= k <= Duration(n) + 1 && |principal| == k - 1
      invariant forall j :: 0 <= j < k - 1 ==> principal[j] == ScheduledPrincipal(lb, i, n, j + 1)
    {
      principal := principal + [ScheduledPrincipal(lb, i, n, k)];
      k := k + 1;
    }
  }

  /** A month's interest at the monthly rate on each beginning balance. */
  method InterestAmounts(beginning: seq<real>, i: real) returns (interest: seq<real>)
    ensures |interest| == |beginning|
    ensures forall k :: 0 <= k < |beginning| ==> interest[k] == MonthlyInterest(beginning[k], i)
  {
    interest := [];
    var k := 0;
    while k < |beginning|
      invariant k <= |beginning| && |interest| == k
      invariant forall j :: 0 <= j < k ==> interest[j] == MonthlyInterest(beginning[j], i)
    {
      interest := interest + [MonthlyInterest(beginning[k], i)];
      k := k + 1;
    }
  }

  /** Each beginning balance less the principal repaid that month. */
  method EndingBalances(beginning: seq<real>, principal: seq<real>) returns (ending: seq<real>)
    requires |principal| == |beginning|
    ensures |ending| == |beginning|
    ensures forall k :: 0 <= k < |beginning| ==> ending[k] == beginning[k] - principal[k]
  {
    ending := [];
    var k := 0;
    while k < |beginning|
      invariant k <= |beginning| && |ending| == k
      invariant forall j :: 0 <= j < k ==> ending[j] == beginning[j] - principal[j]
    {
      ending := ending + [beginning[k] - principal[k]];
      k := k + 1;
    }
  }

  /** The due dates: l months after today, rolled forward to a business day, for l = 1 .. 360. */
  method PayDates(today: Date, addMonths: (Date, nat) -> Date) returns (payDates: seq<Date>)
    ensures |payDates| == DueDateCount
    ensures forall k :: 0 <= k < DueDateCount ==> payDates[k] == RollForward(addMonths(today, k + 1))
  {
    payDates := [];
    var l := 1;
    while l <= DueDateCount
      invariant 1 <= l <= DueDateCount + 1 && |payDates| == l - 1
      invariant forall j :: 0 <= j < l - 1 ==> payDates[j] == RollForward(addMonths(today, j + 1))
    {
      var next := addMonths(today, l);
      if IsBusinessDay(next) {
      } else if IsBusinessDay(next + 1) {
        next := next + 1;
      } else {
        next := next + 2;
      }
      payDates := payDates + [next];
      l := l + 1;
    }
  }

  /** The installment, once for each of the 360 due dates. */
  method DuePayments(installment: real) returns (due: seq<real>)
    ensures |due| == DueDateCount
    ensures forall k :: 0 <= k < DueDateCount ==> due[k] == installment
  {
    due := [];
    var l := 1;
    while l <= DueDateCount
      invariant 1 <= l <= DueDateCount + 1 && |due| == l - 1
      invariant forall j :: 0 <= j < l - 1 ==> due[j] == installment
    {
      due := due + [installment];
      l := l + 1;
    }
  }

  /** Adds the stub interest to the first month's interest and to the first due payment. */
  method ChargeStub(interest: seq<real>, due: seq<real>, extra: real) returns (interest': seq<real>, due': seq<real>)
    requires |interest| > 0 && |due| > 0
    ensures |interest'| == |interest| && |due'| == |due|
    ensures interest'[0] == interest[0] + extra && due'[0] == extra + due[0]
    ensures forall k :: 0 < k < |interest| ==> interest'[k] == interest[k]
    ensures forall k :: 0 < k < |due| ==> due'[k] == due[k]
  {
    interest' := interest[0 := interest[0] + extra];
    due' := due[0 := extra + due[0]];
  }

  /** Builds the schedule one column at a time, then applies the stub-period adjustment to the first entry. */
  method BuildSchedule(lb: real, i: real, n: nat, round2: real -> real,
                       today: Date, addMonths: (Date, nat) -> Date,
                       payDate: DateValue, closingDate: Date, stubDays: nat)
    returns (s: Schedule)
    requires Defined(i, n)
    ensures IsSchedule(s, lb, i, n, round2, today, addMonths, payDate, closingDate, stubDays)
  {
    DefinedHasTermAndRate(i, n);
    var installment := round2(LoanPayment(lb, i, n));
    var beginning := BeginningBalances(lb, i, n);
    var principal := PrincipalRepayments(lb, i, n);
    var interest := InterestAmounts(beginning, i);
    var ending := EndingBalances(beginning, principal);
    var payDates := PayDates(today, addMonths);
    var due := DuePayments(installment);
    if StubApplies(payDate, closingDate) {
      interest, due := ChargeStub(interest, due, StubInterest(lb, i, stubDays));
    }
    s := Schedule(installment, beginning, principal, interest, ending, payDates, due);
  }

  // ---------------------------------------------------------------------
  // What every schedule satisfies

  /** Each month ends with the balance the next month begins with, and the last month ends with nothing owed. */
  lemma EndingBalancesChain(s: Schedule, lb: real, i: real, n: nat, round2: real -> real,
                            today: Date, addMonths: (Date, nat) -> Date,
                            payDate: DateValue, closingDate: Date, stubDays: nat)
    requires Defined(i, n)
    requires IsSchedule(s, lb, i, n, round2, today, addMonths, payDate, closingDate, stubDays)
    ensures Duration(n) > 0
    ensures forall k :: 0 <= k < Duration(n) - 1 ==> s.endingBalance[k] == s.beginningBalance[k + 1]
    ensures s.endingBalance[Duration(n) - 1] == 0.0
  {
    DefinedHasTermAndRate(i, n);
    var dur := Duration(n);
    forall k | 0 <= k < dur
      ensures s.endingBalance[k] == RemainingBalance(lb, i, n, k + 1)
    {
      BalanceStep(lb, i, n, k + 1);
    }
    BalanceAtMaturity(lb, i, n);
  }

  /** Every month's interest plus principal is the unrounded level payment, plus the stub interest in the first month. */
  lemma PaymentSplit(s: Schedule, lb: real, i: real, n: nat, round2: real -> real,
                     today: Date, addMonths: (Date, nat) -> Date,
                     payDate: DateValue, closingDate: Date, stubDays: nat)
    requires Defined(i, n)
    requires IsSchedule(s, lb, i, n, round2, today, addMonths, payDate, closingDate, stubDays)
    ensures Duration(n) > 0
    ensures s.interestAmount[0] + s.principalRepayment[0]
            == LoanPayment(lb, i, n) + FirstMonthExtra(lb, i, payDate, closingDate, stubDays)
    ensures forall k :: 0 < k < Duration(n) ==>
              s.interestAmount[k] + s.principalRepayment[k] == LoanPayment(lb, i, n)
  {
    DefinedHasTermAndRate(i, n);
    forall k | 0 <= k < Duration(n)
      ensures MonthlyInterest(s.beginningBalance[k], i) + s.principalRepayment[k] == LoanPayment(lb, i, n)
    {
      InterestPlusPrincipal(lb, i, n, k);
    }
  }

  /** The sum of a list of amounts. */
  function Sum(xs: seq<real>): real
  {
    if |xs| == 0 then 0.0 else Sum(xs[..|xs| - 1]) + xs[|xs| - 1]
  }

  lemma {:induction false} PrincipalPrefixSum(s: Schedule, lb: real, i: real, n: nat, round2: real -> real,
                                              today: Date, addMonths: (Date, nat) -> Date,
                                              payDate: DateValue, closingDate: Date, stubDays: nat, m: nat)
    requires Defined(i, n)
    requires IsSchedule(s, lb, i, n, round2, today, addMonths, payDate, closingDate, stubDays)
    requires m <= Duration(n)
    ensures Sum(s.principalRepayment[..m]) == PrincipalPaid(lb, i, n, m)
  {
    if m > 0 {
      PrincipalPrefixSum(s, lb, i, n, round2, today, addMonths, payDate, closingDate, stubDays, m - 1);
      assert s.principalRepayment[..m][..m - 1] == s.principalRepayment[..m - 1];
    }
  }

  /** The principal repayments of the schedule add up to the original balance. */
  lemma PrincipalRepaymentsTotal(s: Schedule, lb: real, i: real, n: nat, round2: real -> real,
                                 today: Date, addMonths: (Date, nat) -> Date,
                                 payDate: DateValue, closingDate: Date, stubDays: nat)
    requires Defined(i, n)
    requires IsSchedule(s, lb, i, n, round2, today, addMonths, payDate, closingDate, stubDays)
    ensures Sum(s.principalRepayment) == lb
  {
    PrincipalPrefixSum(s, lb, i, n, round2, today, addMonths, payDate, closingDate, stubDays, Duration(n));
    assert s.principalRepayment[..Duration(n)] == s.principalRepayment;
    PrincipalSumsToBalance(lb, i, n);
  }

  /** With a positive rate and a non-negative loan, every month's balances stay within [0, lb] and never rise. */
  lemma BalancesWithinLoan(s: Schedule, lb: real, i: real, n: nat, round2: real -> real,
                           today: Date, addMonths: (Date, nat) -> Date,
                           payDate: DateValue, closingDate: Date, stubDays: nat)
    requires i > 0.0 && lb >= 0.0 && Defined(i, n)
    requires IsSchedule(s, lb, i, n, round2, today, addMonths, payDate, closingDate, stubDays)
    ensures forall k :: 0 <= k < Duration(n) ==>
              0.0 <= s.endingBalance[k] <= s.beginningBalance[k] <= lb
  {
    DefinedHasTermAndRate(i, n);
    forall k | 0 <= k < Duration(n)
      ensures 0.0 <= s.endingBalance[k] <= s.beginningBalance[k] <= lb
    {
      BalanceBounds(lb, i, n, k);
      BalanceBounds(lb, i, n, k + 1);
      BalanceNonIncreasing(lb, i, n, k + 1);
      BalanceStep(lb, i, n, k + 1);
    }
  }

  /**
   * The stub-period adjustment touches only the first interest amount and
   * the first due payment: against the schedule of the same loan without
   * the adjustment, every other entry is the same.
   */
  lemma StubPatchIsLocal(s: Schedule, plain: Schedule, lb: real, i: real, n: nat, round2: real -> real,
                         today: Date, addMonths: (Date, nat) -> Date,
                         payDate: DateValue, closingDate: Date, stubDays: nat)
    requires Defined(i, n)
    requires IsSchedule(s, lb, i, n, round2, today, addMonths, payDate, closingDate, stubDays)
    requires IsSchedule(plain, lb, i, n, round2, today, addMonths, Calendar(closingDate), closingDate, stubDays)
    ensures s.installment == plain.installment
    ensures s.beginningBalance == plain.beginningBalance
    ensures s.principalRepayment == plain.principalRepayment
    ensures s.endingBalance == plain.endingBalance
    ensures s.payDates == plain.payDates
    ensures StubApplies(payDate, closingDate) ==>
              s.interestAmount == plain.interestAmount[0 := plain.interestAmount[0] + StubInterest(lb, i, stubDays)]
              && s.duePayments == plain.duePayments[0 := StubInterest(lb, i, stubDays) + plain.duePayments[0]]
    ensures !StubApplies(payDate, closingDate) ==>
              s.interestAmount == plain.interestAmount && s.duePayments == plain.duePayments
  {
    DefinedHasTermAndRate(i, n);
    var dur, extra := Duration(n), StubInterest(lb, i, stubDays);
    if StubApplies(payDate, closingDate) {
      var interest := plain.interestAmount[0 := plain.interestAmount[0] + extra];
      var due := plain.duePayments[0 := extra + plain.duePayments[0]];
      assert forall k :: 0 <= k < dur ==> s.interestAmount[k] == interest[k];
      assert forall k :: 0 <= k < DueDateCount ==> s.duePayments[k] == due[k];
    } else {
      assert forall k :: 0 <= k < dur ==> s.interestAmount[k] == plain.interestAmount[k];
      assert forall k :: 0 <= k < DueDateCount ==> s.duePayments[k] == plain.duePayments[k];
    }
  }

  // ---------------------------------------------------------------------
  // Assembling the table

  /** One row of the amortisation table, keyed by its due date. */
  datatype Row = Row(dueDate: Date, beginningBalance: real, interest: real,
                     principalPayment: real, endingBalance: real, duePayment: real)

  datatype Table = Rows(rows: seq<Row>) | LengthMismatch

  /**
   * Puts the columns side by side under the due dates. Columns of unequal
   * length, or an index whose length differs from theirs, cannot form a table.
   */
  function AssembleTable(s: Schedule): (t: Table)
    ensures t.Rows? <==>
              |s.beginningBalance| == |s.payDates| && |s.interestAmount| == |s.payDates|
              && |s.principalRepayment| == |s.payDates| && |s.endingBalance| == |s.payDates|
              && |s.duePayments| == |s.payDates|
    ensures t.Rows? ==> |t.rows| == |s.payDates|
    ensures t.Rows? ==> forall k :: 0 <= k < |t.rows| ==>
              t.rows[k].dueDate == s.payDates[k]
              && t.rows[k].beginningBalance == s.beginningBalance[k]
              && t.rows[k].interest == s.interestAmount[k]
              && t.rows[k].principalPayment == s.principalRepayment[k]
              && t.rows[k].endingBalance == s.endingBalance[k]
              && t.rows[k].duePayment == s.duePayments[k]
  {
    var m := |s.payDates|;
    if |s.beginningBalance| == m && |s.interestAmount| == m && |s.principalRepayment| == m
       && |s.endingBalance| == m && |s.duePayments| == m
    then
      Rows(seq(m, k requires 0 <= k < m =>
                 Row(s.payDates[k], s.beginningBalance[k], s.interestAmount[k],
                     s.principalRepayment[k], s.endingBalance[k], s.duePayments[k])))
    else LengthMismatch
  }

  /** The columns line up, and the table can be built, exactly for a thirty-year loan. */
  lemma TableOnlyForThirtyYears(s: Schedule, lb: real, i: real, n: nat, round2: real -> real,
                                today: Date, addMonths: (Date, nat) -> Date,
                                payDate: DateValue, closingDate: Date, stubDays: nat)
    requires Defined(i, n)
    requires IsSchedule(s, lb, i, n, round2, today, addMonths, payDate, closingDate, stubDays)
    ensures AssembleTable(s).Rows? <==> n == 30
  {
  }
}
