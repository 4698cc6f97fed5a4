# Fixed-rate loan amortisation, modelled in Dafny

`fabozzi_functions.py` computes the amortisation schedule of a fixed-rate,
level-payment loan with original balance `LB`, annual interest rate `i` (in
percent) and a term of `n` years. Three closed-form annuity formulas give the
monthly payment, the balance left after month `t` and the principal repaid in
month `t`. `amortisation_schedule` builds the schedule from them one list at a
time: beginning balances, scheduled principals, interest amounts, ending
balances, 360 due dates rolled forward to business days, and 360 due
payments. When the closing date differs from the pay date, it then adds
stub-period interest to the first month.

The project has three modules:

- `Annuity` (`annuity.dfy`) holds the three formulas over exact `real`
  arithmetic, with a recursive natural-number power. It proves the identities
  that link them:
  - the balance is `LB` at month 0 and 0 at maturity;
  - consecutive balances differ by the scheduled principal;
  - the principals telescope to `LB`;
  - interest plus principal is the level payment;
  - balances stay within `[0, LB]` and never rise when the rate is positive.

  It also checks the formulas against an independent month-by-month account
  (accrue a month's interest, subtract the payment). The closed-form balance
  is that account's balance when the level payment is paid. The level payment
  is the only constant payment that clears the loan in exactly `n*12` months.
- `BusinessDays` (`business_days.dfy`) holds calendar days as day numbers and
  the weekday of each. A business day is Monday to Friday. It also has the
  +0/+1/+2-day roll of each due date.
- `Amortisation` (`amortisation.dfy`) builds the schedule:
  - one `method` per list, each a `while` loop that appends one entry per
    month, with invariants that tie every entry to the formulas;
  - the stub-interest patch of entry 0;
  - `BuildSchedule`, which combines them and is proved to produce exactly the
    schedule described by `IsSchedule`;
  - lemmas about every such schedule: the balance chain, the payment split,
    the principal total, the bounds, that the patch is local, and that the
    table can be assembled only for a 30-year term.

The formulas divide by `(1 + r)^(n*12) - 1`, and the source has no branch for
a zero denominator. The model makes that denominator being non-zero the
precondition (`Annuity.Defined`). `Annuity.PositiveRateIsDefined` shows that
`i > 0` and `n > 0` imply it. `Annuity.DefinedHasTermAndRate` shows that it
rules out a zero rate and a zero term. There is no linear zero-rate
fallback, because the program has none.

The program compares `pay_date` with `closing_date` to decide whether the
stub applies. The default `pay_date` is a string and the closing date is a
calendar date, and in Python such a pair never compares equal. The model keeps
that: a pay date is a `DateValue`, which is either `Text` or a `Calendar` day.
`Amortisation.StubApplies` holds for every textual pay date. The due dates
themselves are counted from the current date, not from `pay_date`.

Things the program takes from its environment are parameters:

- `round2` is the rounding of the installment to cents;
- `today` is the current date;
- `addMonths` is the calendar month shift;
- `stubDays` is the number of days from the closing date to the end of its
  month.

## Model

| member | source | states |
|---|---|---|
| Annuity.LoanPayment | fabozzi_functions.py:25-41 | definition of the level monthly payment LB*(r*(1+r)^dur)/((1+r)^dur - 1), with r = i*0.01/12 and dur = n*12, defined when the denominator is non-zero; its meaning is proved in LevelPaymentIsUnique and InterestPlusPrincipal |
| Annuity.RemainingBalance | fabozzi_functions.py:44-60 | definition of the balance after month t, LB*((1+r)^dur - (1+r)^t)/((1+r)^dur - 1); its properties are proved in BalanceAtStart, BalanceAtMaturity, BalanceStep, BalanceBounds and RemainingBalanceIsAccrued |
| Annuity.ScheduledPrincipal | fabozzi_functions.py:63-79 | definition of the principal of month t >= 1, LB*(r*(1+r)^(t-1))/((1+r)^dur - 1); its properties are proved in BalanceStep, BalanceNonIncreasing and PrincipalSumsToBalance |
| Annuity.MonthlyInterest | fabozzi_functions.py:109 | definition of a month's interest on a balance, balance*((i*0.01)/12) |
| Annuity.BalanceAtStart | fabozzi_functions.py:59 | at month 0 the remaining balance is the whole original balance `LB` |
| Annuity.BalanceAtMaturity | fabozzi_functions.py:59 | at month `n*12` the remaining balance is exactly 0 |
| Annuity.BalanceStep | fabozzi_functions.py:44-79 | for every month t >= 1 the balance falls from month t-1 to month t by exactly the scheduled principal of month t |
| Annuity.InterestPlusPrincipal | fabozzi_functions.py:25-79 | a month's interest on the balance at month t plus the principal of month t+1 equals the unrounded level payment |
| Annuity.PrincipalPaidIsBalanceReduction | fabozzi_functions.py:63-79 | the principals of months 1..m add up to `LB` minus the balance after month m (telescoping) |
| Annuity.PrincipalSumsToBalance | fabozzi_functions.py:63-79 | the principals of months 1..n*12 add up to exactly `LB` |
| Annuity.BalanceBounds | fabozzi_functions.py:44-60 | with i > 0, n > 0 and LB >= 0 the formulas are defined and every balance within the term lies in [0, LB] |
| Annuity.BalanceNonIncreasing | fabozzi_functions.py:44-79 | with i > 0, n > 0 and LB >= 0 every scheduled principal is non-negative, so the balance never rises |
| Annuity.PositiveRateIsDefined | fabozzi_functions.py:36-37 | a positive rate over a positive term makes the shared denominator positive, so the formulas are defined |
| Annuity.DefinedHasTermAndRate | fabozzi_functions.py:30-40 | whenever the denominator is non-zero, the term is positive and the monthly rate is non-zero |
| Annuity.AccruedBalanceClosedForm | fabozzi_functions.py:30-40 | accruing one month's interest and paying a constant amount each month leaves r*balance = r*LB*(1+r)^t - payment*((1+r)^t - 1) |
| Annuity.RemainingBalanceIsAccrued | fabozzi_functions.py:44-60 | the closed-form balance after t months equals the month-by-month balance when the level payment is paid |
| Annuity.LevelPaymentIsUnique | fabozzi_functions.py:25-41 | a constant payment clears the loan in exactly n*12 months if and only if it is the level payment |
| BusinessDays.IsBusinessDay | fabozzi_functions.py:20-22 | definition: a day is a business day when its weekday is Monday to Friday |
| BusinessDays.RollForward | fabozzi_functions.py:120-127 | the rolled date is 0 to 2 days later and is a business day, with no business day skipped. Saturday rolls to the next Monday (+2) and Sunday to the next Monday (+1) |
| BusinessDays.RollForwardKeepsBusinessDay | fabozzi_functions.py:122-123 | a date that is already a business day is kept unchanged |
| BusinessDays.RollForwardIdempotent | fabozzi_functions.py:122-127 | rolling an already rolled date changes nothing |
| Amortisation.StubInterest | fabozzi_functions.py:139 | definition of the stub interest LB*(i*0.01)*days/365 |
| Amortisation.BeginningBalances | fabozzi_functions.py:95-98 | builds n*12 entries, entry k being the remaining balance after month k |
| Amortisation.PrincipalRepayments | fabozzi_functions.py:101-104 | builds n*12 entries, entry k being the scheduled principal of month k+1 |
| Amortisation.InterestAmounts | fabozzi_functions.py:107-110 | one entry per beginning balance, the month's interest on it at the monthly rate |
| Amortisation.EndingBalances | fabozzi_functions.py:113-116 | one entry per month, the beginning balance less that month's principal |
| Amortisation.PayDates | fabozzi_functions.py:119-128 | builds 360 due dates, entry k being the date k+1 months after today rolled forward to a business day |
| Amortisation.DuePayments | fabozzi_functions.py:131-133 | builds 360 entries, each the installment |
| Amortisation.ChargeStub | fabozzi_functions.py:139-141 | adds the stub interest to the first interest amount, sets the first due payment to the stub interest plus the old payment, and keeps every other entry and both lengths |
| Amortisation.BuildSchedule | fabozzi_functions.py:83-141 | the result is exactly the schedule of the loan: the rounded installment, the column lengths, every entry given by the formulas, and the stub patch on entry 0 only when it applies |
| Amortisation.EndingBalancesChain | fabozzi_functions.py:113-116 | each month's ending balance is the next month's beginning balance, and the last ending balance is 0 |
| Amortisation.PaymentSplit | fabozzi_functions.py:107-110 | in every month, interest plus principal is the unrounded level payment. In month 0 the stub interest is added when the adjustment applies |
| Amortisation.PrincipalPrefixSum | fabozzi_functions.py:101-104 | the first m principal repayments of a schedule sum to the principal scheduled over months 1..m |
| Amortisation.PrincipalRepaymentsTotal | fabozzi_functions.py:101-104 | the principal repayments of a schedule sum to exactly the original balance |
| Amortisation.BalancesWithinLoan | fabozzi_functions.py:95-116 | with a positive rate and LB >= 0, in every month 0 <= ending balance <= beginning balance <= LB |
| Amortisation.StubPatchIsLocal | fabozzi_functions.py:135-141 | against the same loan's schedule without the stub, only interest[0] and due[0] differ, each by the stub interest, and they differ only when the adjustment applies |
| Amortisation.AssembleTable | fabozzi_functions.py:144-149 | the table exists exactly when every column is as long as the due-date index. Row k then holds entry k of every column under due date k |
| Amortisation.TableOnlyForThirtyYears | fabozzi_functions.py:145-149 | the columns of a schedule line up under its 360 due dates, so the table can be built, exactly when n == 30 |

## Left out

- Floating point: the formulas are stated over exact reals. The identities hold exactly here, but only up to rounding in IEEE doubles. The check against `np.pmt` in `test_fabozzi_functions.py` is a floating-point tolerance check and is not part of this model.
- `round(..., 2)` of the installment is the parameter `round2`. Python's round-half-to-even is not modelled.
- `pd.bdate_range` in `is_business_day` is replaced by the Monday-to-Friday weekday predicate `BusinessDays.IsBusinessDay`, which has no holidays, as the default business-day calendar has none.
- `relativedelta` month arithmetic is the parameter `addMonths`. Calendar dates are day numbers, with day 0 a Monday.
- The `rrule` end-of-month lookup and `delta.days` are the parameter `stubDays`, the day count they produce.
- `datetime.date.today()` is the parameter `today`. The default `closing_date`, which is fixed when the function is defined, is just an argument.
- The due dates are kept as day numbers. Their conversion to text with `str(...)` is not modelled.
- The pandas `DataFrame` is modelled as `Amortisation.AssembleTable`. Naming its index and the console `print` are presentation and are left out.
- The parameter `t` of `amortisation_schedule` is never used, so `BuildSchedule` does not take it.
- Annuity.ScheduledPrincipal requires a month t >= 1. The Python formula also evaluates at t <= 0 (a negative power), but no caller in the program does so.
- Annuity.RemainingBalance takes the month t as a natural number. A negative t (a negative power) is not modelled.
- The term `n` is a natural number, so a negative term is not modelled. In Python a negative term leaves the four balance lists empty while the due dates and due payments still get 360 entries each. The call then fails: the stub patch raises an index error on the empty interest list, or, without the stub, the table cannot be built from columns of unequal length.
- A zero denominator (for example a zero rate) is excluded by the precondition `Annuity.Defined`. The program raises a division error there.
- BuildSchedule takes the closing date as a calendar date only. The program also accepts a textual `closing_date`. If that text equals `pay_date`, there is no stub and the table is built. Any other textual closing date makes the end-of-month lookup fail.
- BuildSchedule reads the current date once, as `today`. The program calls `datetime.date.today()` again in each of the 360 iterations, so a run that crosses midnight can mix two reference dates and is not represented.
