/** The loan engine of src/loan.py: the payment formula, the amortization
    schedule of `get_loan_summary`, and `LoanManager`, whose methods move a
    loan through `pending -> active | rejected` and `active -> paid` while
    moving account balances. */
module Loans {
  import opened Wrappers
  import opened Calendar
  import opened Schema
  import opened Store
  import opened Accounts
  import opened Journal
  import opened Transactions
  import Text
  import opened Listing

  // ----- lookups -----

  /** `get_loan`: the row with that id, if there is one. */
  function GetLoan(loans: map<int, Loan>, id: int): (r: Option<Loan>)
    ensures r.Some? <==> id in loans
    ensures r.Some? ==> r.value == loans[id]
  {
    if id in loans then Some(loans[id]) else None
  }

  // ----- the payment formula -----

  /** `x ** n` for a natural exponent. */
  function Power(x: real, n: nat): real
  {
    if n == 0 then 1.0 else x * Power(x, n - 1)
  }

  /** Python's `x ** n` for an integer exponent: a negative exponent divides,
      and raising zero to a negative power fails. */
  function IntPower(x: real, n: int): (r: Option<real>)
    ensures n >= 0 ==> r == Some(Power(x, n))
    ensures r.None? <==> n < 0 && x == 0.0
  {
    if n >= 0 then Some(Power(x, n))
    else if x == 0.0 then None
    else
      PowerNonZero(x, -n);
      Some(1.0 / Power(x, -n))
  }

  lemma {:induction false} PowerNonZero(x: real, n: nat)
    requires x != 0.0
    ensures Power(x, n) != 0.0
  {
    if n > 0 {
      PowerNonZero(x, n - 1);
    }
  }

  /** Multiplying by a factor that is not negative keeps an inequality. */
  lemma ScaleInequality(a: real, b: real, c: real)
    requires a >= 0.0 && b >= c
    ensures a * b >= a * c
  {
    assert a * b - a * c == a * (b - c);
  }

  /** Bernoulli's inequality: for a base of at least one the power grows at
      least linearly, so it is above one once the base is. */
  lemma {:induction false} Bernoulli(x: real, n: nat)
    requires x >= 1.0
    ensures Power(x, n) >= 1.0 + (n as real) * (x - 1.0)
  {
    if n > 0 {
      Bernoulli(x, n - 1);
      assert Power(x, n) == x * Power(x, n - 1);
      BernoulliStep(x, Power(x, n - 1), (n - 1) as real);
    }
  }

  /** One step of Bernoulli's inequality. */
  lemma BernoulliStep(x: real, p: real, k: real)
    requires x >= 1.0 && k >= 0.0 && p >= 1.0 + k * (x - 1.0)
    ensures x * p >= 1.0 + (k + 1.0) * (x - 1.0)
  {
    ScaleInequality(x, p, 1.0 + k * (x - 1.0));
    assert x * (1.0 + k * (x - 1.0)) == x + (k * (x - 1.0)) * x;
    ScaleInequality(k, x - 1.0, 0.0);
    ScaleInequality(k * (x - 1.0), x, 1.0);
    assert (k + 1.0) * (x - 1.0) == k * (x - 1.0) + (x - 1.0);
  }

  lemma PowerAtLeastOne(x: real, n: nat)
    requires x >= 1.0
    ensures Power(x, n) >= 1.0
  {
    Bernoulli(x, n);
    ScaleInequality(n as real, x - 1.0, 0.0);
  }

  /** The geometric bound behind the payment formula:
      `x^n - 1 = (x - 1)(x^(n-1) + ... + 1) <= n (x - 1) x^n`. */
  lemma {:induction false} GeometricBound(x: real, n: nat)
    requires x >= 1.0
    ensures Power(x, n) - 1.0 <= (n as real) * (x - 1.0) * Power(x, n)
  {
    if n > 0 {
      GeometricBound(x, n - 1);
      var p := Power(x, n - 1);
      var k := (n - 1) as real;
      var d := x - 1.0;
      PowerAtLeastOne(x, n);
      assert Power(x, n) == x * p;
      // x p - 1 == x (p - 1) + d
      ScaleInequality(x, k * d * p, p - 1.0);
      assert x * (k * d * p) == k * d * (x * p);
      // d <= d * (x p)
      ScaleInequality(d, x * p, 1.0);
      assert (n as real) * d * (x * p) == k * d * (x * p) + d * (x * p);
    }
  }

  /** The monthly rate of an annual percentage. */
  function MonthlyRate(interestRate: real): real
  {
    interestRate / 100.0 / 12.0
  }

  /** `calculate_monthly_payment`: with a zero rate the principal split
      evenly over the term; otherwise `P * r(1+r)^n / ((1+r)^n - 1)`. A
      division by zero (a zero term at zero rate, or a rate and term that make
      the denominator vanish) fails. */
  function CalculateMonthlyPayment(loanAmount: real, interestRate: real, termMonths: int): (r: Result<real>)
    ensures interestRate == 0.0 ==> (r.Ok? <==> termMonths != 0)
    ensures interestRate == 0.0 && r.Ok? ==> r.value * (termMonths as real) == loanAmount
  {
    var monthlyRate := MonthlyRate(interestRate);
    if monthlyRate == 0.0 then
      if termMonths == 0 then Err(DivisionByZero) else Ok(loanAmount / termMonths as real)
    else
      match IntPower(1.0 + monthlyRate, termMonths)
      case None => Err(DivisionByZero)
      case Some(growth) =>
        if growth - 1.0 == 0.0 then Err(DivisionByZero)
        else Ok(Annuity(loanAmount, monthlyRate, growth))
  }

  /** `P * (r * g) / (g - 1)` with `g = (1 + r)^n`. */
  function Annuity(loanAmount: real, monthlyRate: real, growth: real): real
    requires growth != 1.0
  {
    loanAmount * ((monthlyRate * growth) / (growth - 1.0))
  }

  /** For every loan `apply_for_loan` accepts (positive amount, rate in
      0..100, positive term) the formula is defined; at a positive rate the
      payment covers more than the first month's interest, and the payments
      over the term repay at least the principal. */
  lemma MonthlyPaymentCoversLoan(loanAmount: real, interestRate: real, termMonths: int)
    requires loanAmount > 0.0 && 0.0 <= interestRate <= 100.0 && termMonths > 0
    ensures CalculateMonthlyPayment(loanAmount, interestRate, termMonths).Ok?
    ensures var payment := CalculateMonthlyPayment(loanAmount, interestRate, termMonths).value;
      && payment * (termMonths as real) >= loanAmount
      && (interestRate > 0.0 ==> payment > loanAmount * MonthlyRate(interestRate))
  {
    if interestRate > 0.0 {
      PositiveRatePayment(loanAmount, interestRate, termMonths);
    }
  }

  /** At a positive rate the formula is the annuity with the growth factor
      over the whole term. */
  lemma PositiveRatePayment(loanAmount: real, interestRate: real, termMonths: int)
    requires loanAmount > 0.0 && 0.0 < interestRate && termMonths > 0
    ensures var m := MonthlyRate(interestRate);
      var g := Power(1.0 + m, termMonths);
      && g != 1.0
      && CalculateMonthlyPayment(loanAmount, interestRate, termMonths) == Ok(Annuity(loanAmount, m, g))
      && Annuity(loanAmount, m, g) * (termMonths as real) >= loanAmount
      && Annuity(loanAmount, m, g) > loanAmount * m
  {
    var m := MonthlyRate(interestRate);
    var g := Power(1.0 + m, termMonths);
    GrowthBounds(m, termMonths);
    AnnuityBounds(loanAmount, m, g, termMonths as real);
    assert IntPower(1.0 + m, termMonths) == Some(g);
  }

  /** The growth factor `(1 + m)^n` of a positive monthly rate over a
      positive term, bounded from both sides. */
  lemma GrowthBounds(m: real, n: nat)
    requires m > 0.0 && n >= 1
    ensures Power(1.0 + m, n) - 1.0 >= (n as real) * m
    ensures Power(1.0 + m, n) - 1.0 <= (n as real) * m * Power(1.0 + m, n)
  {
    Bernoulli(1.0 + m, n);
    GeometricBound(1.0 + m, n);
  }

  /** The arithmetic of `MonthlyPaymentCoversLoan`, for a growth factor
      `g = (1 + m)^n` bounded as Bernoulli's inequality and the geometric
      bound give. */
  lemma AnnuityBounds(loanAmount: real, m: real, g: real, n: real)
    requires loanAmount > 0.0 && m > 0.0 && n >= 1.0
    requires g - 1.0 >= n * m && g - 1.0 <= n * m * g
    ensures g != 1.0
    ensures Annuity(loanAmount, m, g) * n >= loanAmount
    ensures Annuity(loanAmount, m, g) > loanAmount * m
  {
    ScaleStrict(n, m, 0.0);
    var q := (m * g) / (g - 1.0);
    assert q * (g - 1.0) == m * g;
    // the payments repay the principal: n q (g - 1) == n m g >= g - 1
    assert (n * q) * (g - 1.0) == n * (m * g);
    CancelPositive(n * q, 1.0, g - 1.0);
    ScaleInequality(loanAmount, n * q, 1.0);
    assert (loanAmount * q) * n == loanAmount * (n * q);
    // the payment exceeds the interest: q (g - 1) == m (g - 1) + m
    assert q * (g - 1.0) == m * (g - 1.0) + m;
    CancelPositiveStrict(q, m, g - 1.0);
    ScaleStrict(loanAmount, q, m);
  }

  /** Dividing both sides by the same positive number keeps an inequality. */
  lemma CancelPositive(a: real, b: real, c: real)
    requires c > 0.0 && a * c >= b * c
    ensures a >= b
  {
    if a < b {
      ScaleStrict(c, b, a);
    }
  }

  lemma CancelPositiveStrict(a: real, b: real, c: real)
    requires c > 0.0 && a * c > b * c
    ensures a > b
  {
    if a <= b {
      ScaleInequality(c, b, a);
    }
  }

  lemma ScaleStrict(a: real, b: real, c: real)
    requires a > 0.0 && b > c
    ensures a * b > a * c
  {
    assert a * b - a * c == a * (b - c);
  }

  // ----- the amortization schedule -----

  /** One entry of `payment_schedule`. */
  datatype ScheduleRow = ScheduleRow(month: int, paymentAmount: real, principalPayment: real,
                                     interestPayment: real, remainingBalance: real)

  /** Python's `max(0, x)`. */
  function AtLeastZero(x: real): real
  {
    if x >= 0.0 then x else 0.0
  }

  /** A month's interest on `balance` at the monthly rate. */
  function Interest(balance: real, monthlyRate: real): real
  {
    balance * monthlyRate
  }

  /** The rows the schedule loop of `get_loan_summary` writes for months
      `month..term` with `remaining` still owed, as the source writes them:
      every month before the last pays `monthly` and lowers `remaining` by
      its principal; the last month pays off `remaining` but does not lower
      it, so its row still reports that amount as the remaining balance. */
  function ScheduleAsWritten(month: int, term: int, remaining: real, monthly: real, monthlyRate: real)
    : seq<ScheduleRow>
    decreases term - month
  {
    if month > term then []
    else
      var interest := Interest(remaining, monthlyRate);
      if month == term then
        [ScheduleRow(month, remaining + interest, remaining, interest, AtLeastZero(remaining))]
      else
        var principal := monthly - interest;
        [ScheduleRow(month, monthly, principal, interest, AtLeastZero(remaining - principal))]
          + ScheduleAsWritten(month + 1, term, remaining - principal, monthly, monthlyRate)
  }

  /** The final row of a one-month loan at zero interest still reports the
      whole principal as remaining, although it has just been paid. */
  lemma FinalRowNotCleared()
    ensures var rows := ScheduleAsWritten(1, 1, 1000.0, 1000.0, MonthlyRate(0.0));
      |rows| == 1 && rows[0].principalPayment == 1000.0 && rows[0].remainingBalance == 1000.0
  {
  }

  /** The schedule as intended: every row is as written, except that the
      last month also subtracts its principal, so its row reports nothing
      left owed. */
  function Schedule(month: int, term: int, remaining: real, monthly: real, monthlyRate: real): seq<ScheduleRow>
    decreases term - month
  {
    if month > term then []
    else
      var interest := Interest(remaining, monthlyRate);
      if month == term then
        [ScheduleRow(month, remaining + interest, remaining, interest, 0.0)]
      else
        var principal := monthly - interest;
        [ScheduleRow(month, monthly, principal, interest, AtLeastZero(remaining - principal))]
          + Schedule(month + 1, term, remaining - principal, monthly, monthlyRate)
  }

  /** The intended schedule differs from the one as written only in the
      remaining balance of its last row, which it sets to zero. */
  lemma {:induction false} ScheduleCorrectsLastRow(month: int, term: int, remaining: real, monthly: real,
                                                   monthlyRate: real)
    ensures var rows := Schedule(month, term, remaining, monthly, monthlyRate);
      var written := ScheduleAsWritten(month, term, remaining, monthly, monthlyRate);
      && |rows| == |written|
      && (forall i :: 0 <= i < |rows| - 1 ==> rows[i] == written[i])
      && (|rows| > 0 ==> rows[|rows| - 1] == written[|rows| - 1].(remainingBalance := 0.0))
    decreases term - month
  {
    if month < term {
      var interest := Interest(remaining, monthlyRate);
      ScheduleCorrectsLastRow(month + 1, term, remaining - (monthly - interest), monthly, monthlyRate);
    }
  }

  function PrincipalSum(rows: seq<ScheduleRow>): real
  {
    if |rows| == 0 then 0.0 else rows[0].principalPayment + PrincipalSum(rows[1..])
  }

  lemma {:induction false} ScheduleAsWrittenShape(month: int, term: int, remaining: real, monthly: real,
                                                  monthlyRate: real)
    ensures var rows := ScheduleAsWritten(month, term, remaining, monthly, monthlyRate);
      && |rows| == (if month > term then 0 else term - month + 1)
      && (forall i :: 0 <= i < |rows| ==> rows[i].month == month + i)
      && (forall i :: 0 <= i < |rows| ==>
            rows[i].paymentAmount == rows[i].principalPayment + rows[i].interestPayment)
      && (month <= term ==> PrincipalSum(rows) == remaining)
    decreases term - month
  {
    if month < term {
      var interest := Interest(remaining, monthlyRate);
      var principal := monthly - interest;
      ScheduleAsWrittenShape(month + 1, term, remaining - principal, monthly, monthlyRate);
      var rows := ScheduleAsWritten(month, term, remaining, monthly, monthlyRate);
      assert rows[1..] == ScheduleAsWritten(month + 1, term, remaining - principal, monthly, monthlyRate);
    }
  }

  lemma {:induction false} PrincipalSumOfPrincipals(a: seq<ScheduleRow>, b: seq<ScheduleRow>)
    requires |a| == |b|
    requires forall i :: 0 <= i < |a| ==> a[i].principalPayment == b[i].principalPayment
    ensures PrincipalSum(a) == PrincipalSum(b)
  {
    if |a| > 0 {
      PrincipalSumOfPrincipals(a[1..], b[1..]);
    }
  }

  /** Over exact arithmetic the schedule of a loan with a positive term has
      one row per month, numbered from 1; each payment is its principal plus
      its interest; the principal payments add up to the loan amount; and
      the last row leaves nothing owed. */
  lemma ScheduleRepaysLoan(loanAmount: real, monthly: real, monthlyRate: real, term: int)
    requires term >= 1
    ensures var rows := Schedule(1, term, loanAmount, monthly, monthlyRate);
      && |rows| == term
      && (forall i :: 0 <= i < |rows| ==> rows[i].month == i + 1)
      && (forall i :: 0 <= i < |rows| ==>
            rows[i].paymentAmount == rows[i].principalPayment + rows[i].interestPayment)
      && PrincipalSum(rows) == loanAmount
      && rows[term - 1].remainingBalance == 0.0
  {
    var written := ScheduleAsWritten(1, term, loanAmount, monthly, monthlyRate);
    ScheduleAsWrittenShape(1, term, loanAmount, monthly, monthlyRate);
    ScheduleCorrectsLastRow(1, term, loanAmount, monthly, monthlyRate);
    var rows := Schedule(1, term, loanAmount, monthly, monthlyRate);
    PrincipalSumOfPrincipals(rows, written);
  }

  /** The first row of the intended schedule from `month` on, followed by
      the schedule of the months after it. */
  lemma ScheduleHead(month: int, term: int, remaining: real, monthly: real, rate: real)
    requires month <= term
    ensures var interest := Interest(remaining, rate);
      var principal := if month == term then remaining else monthly - interest;
      var payment := if month == term then principal + interest else monthly;
      Schedule(month, term, remaining, monthly, rate)
      == [ScheduleRow(month, payment, principal, interest, AtLeastZero(remaining - principal))]
         + Schedule(month + 1, term, remaining - principal, monthly, rate)
  {
    var interest := Interest(remaining, rate);
    if month == term {
      assert remaining - remaining == 0.0;
      assert Schedule(month + 1, term, 0.0, monthly, rate) == [];
      assert Schedule(month, term, remaining, monthly, rate)
             == [ScheduleRow(month, remaining + interest, remaining, interest, 0.0)];
    } else {
      assert Schedule(month, term, remaining, monthly, rate)
             == [ScheduleRow(month, monthly, monthly - interest, interest, AtLeastZero(remaining - (monthly - interest)))]
                + Schedule(month + 1, term, remaining - (monthly - interest), monthly, rate);
    }
  }

  /** Moving the first row of the rest of the schedule onto the rows
      already built keeps the whole. */
  lemma ScheduleAdvance(built: seq<ScheduleRow>, month: int, term: int, remaining: real, monthly: real, rate: real,
                        whole: seq<ScheduleRow>)
    requires month <= term
    requires built + Schedule(month, term, remaining, monthly, rate) == whole
    ensures var interest := Interest(remaining, rate);
      var principal := if month == term then remaining else monthly - interest;
      var payment := if month == term then principal + interest else monthly;
      (built + [ScheduleRow(month, payment, principal, interest, AtLeastZero(remaining - principal))])
      + Schedule(month + 1, term, remaining - principal, monthly, rate) == whole
  {
    ScheduleHead(month, term, remaining, monthly, rate);
    var interest := Interest(remaining, rate);
    var principal := if month == term then remaining else monthly - interest;
    var payment := if month == term then principal + interest else monthly;
    var row := ScheduleRow(month, payment, principal, interest, AtLeastZero(remaining - principal));
    var rest := Schedule(month + 1, term, remaining - principal, monthly, rate);
    assert built + ([row] + rest) == (built + [row]) + rest;
  }

  /** The schedule loop of `get_loan_summary`, with the final month also
      subtracting its principal. */
  method BuildSchedule(loanAmount: real, monthly: real, interestRate: real, termMonths: int)
    returns (schedule: seq<ScheduleRow>)
    ensures schedule == Schedule(1, termMonths, loanAmount, monthly, MonthlyRate(interestRate))
  {
    var rate := MonthlyRate(interestRate);
    schedule := [];
    var remaining := loanAmount;
    var month := 1;
    while month <= termMonths
      invariant month >= 1
      invariant schedule + Schedule(month, termMonths, remaining, monthly, rate)
                == Schedule(1, termMonths, loanAmount, monthly, rate)
      decreases termMonths - month
    {
      var interest := Interest(remaining, rate);
      // the final month pays off what is left, rounding included
      var principal := if month == termMonths then remaining else monthly - interest;
      var payment := if month == termMonths then principal + interest else monthly;
      var row := ScheduleRow(month, payment, principal, interest, AtLeastZero(remaining - principal));
      ScheduleAdvance(schedule, month, termMonths, remaining, monthly, rate, Schedule(1, termMonths, loanAmount, monthly, rate));
      remaining := remaining - principal;
      schedule := schedule + [row];
      month := month + 1;
    }
  }

  // ----- payments -----

  /** The loan row after `make_payment`'s update: a payment that reaches the
      remaining amount settles the loan (remaining zero, status `paid`);
      a smaller one lowers the remaining amount and keeps the status. Either
      way the payment date is recorded and nothing else changes. */
  function ApplyPayment(loan: Loan, amount: real, now: DateTime): (paid: Loan)
    ensures amount >= loan.remainingAmount ==> paid.remainingAmount == 0.0 && paid.status == Paid
    ensures amount < loan.remainingAmount ==>
      paid.remainingAmount == loan.remainingAmount - amount && paid.status == loan.status
    ensures paid.lastPaymentDate == Some(now)
    ensures paid.(remainingAmount := loan.remainingAmount, status := loan.status,
                  lastPaymentDate := loan.lastPaymentDate) == loan
  {
    var newRemaining := loan.remainingAmount - amount;
    if newRemaining <= 0.0 then loan.(remainingAmount := 0.0, status := Paid, lastPaymentDate := Some(now))
    else loan.(remainingAmount := newRemaining, lastPaymentDate := Some(now))
  }

  /** An accepted payment on an active loan (positive, at most what is
      owed) leaves the rest owed, and the loan is `paid` exactly when
      nothing is left; its terms stay valid. */
  lemma AcceptedPayment(loan: Loan, amount: real, now: DateTime)
    requires loan.status == Active && LoanTermsValid(loan) && 0.0 < amount <= loan.remainingAmount
    ensures ApplyPayment(loan, amount, now).remainingAmount == loan.remainingAmount - amount
    ensures ApplyPayment(loan, amount, now).status == Paid <==> amount == loan.remainingAmount
    ensures ApplyPayment(loan, amount, now).status != Paid ==> ApplyPayment(loan, amount, now).status == Active
    ensures LoanTermsValid(ApplyPayment(loan, amount, now))
  {
  }

  /** Successive payments on one loan. */
  function PayAll(loan: Loan, amounts: seq<real>, now: DateTime): Loan
    decreases |amounts|
  {
    if |amounts| == 0 then loan else PayAll(ApplyPayment(loan, amounts[0], now), amounts[1..], now)
  }

  function Total(amounts: seq<real>): real
  {
    if |amounts| == 0 then 0.0 else amounts[0] + Total(amounts[1..])
  }

  lemma {:induction false} TotalPositive(amounts: seq<real>)
    requires |amounts| > 0 && forall i :: 0 <= i < |amounts| ==> amounts[i] > 0.0
    ensures Total(amounts) > 0.0
  {
    if |amounts| > 1 {
      TotalPositive(amounts[1..]);
    }
  }

  /** Positive payments that add up to the remaining amount settle the loan:
      every payment but the last leaves something owed, and the last one
      leaves nothing and marks the loan `paid`. */
  lemma {:induction false} PaymentsSettleLoan(loan: Loan, amounts: seq<real>, now: DateTime)
    requires |amounts| > 0 && forall i :: 0 <= i < |amounts| ==> amounts[i] > 0.0
    requires Total(amounts) == loan.remainingAmount
    ensures PayAll(loan, amounts, now).remainingAmount == 0.0
    ensures PayAll(loan, amounts, now).status == Paid
    decreases |amounts|
  {
    var rest := amounts[1..];
    if |rest| > 0 {
      TotalPositive(rest);
      var next := ApplyPayment(loan, amounts[0], now);
      assert next.remainingAmount == Total(rest);
      PaymentsSettleLoan(next, rest, now);
    }
  }

  /** The descriptions of the journal rows a disbursement and a payment write. */
  function DisbursementDescription(loanId: int): string
  {
    "Loan disbursement for loan #" + Text.IntToString(loanId)
  }

  function PaymentDescription(loanId: int): string
  {
    "Loan payment for loan #" + Text.IntToString(loanId)
  }

  // ----- the loan summary -----

  /** The search `get_loan_summary` runs for `payments_made`. */
  function PaymentQuery(accountId: int, loanId: int): TransactionQuery
  {
    TransactionQuery(Some(accountId), Some("loan_payment"), None, None, None, None,
                     Some("loan #" + Text.IntToString(loanId)), 50, 0)
  }

  /** `payments_made` lists `loan_payment` rows only, so the `withdrawal` rows
      `make_payment` writes never appear in it. */
  lemma PaymentsMadeAreLoanPayments(transactions: seq<Transaction>, accountId: int, loanId: int)
    ensures forall t :: t in SearchTransactions(transactions, PaymentQuery(accountId, loanId)) ==>
      && t.txnType == LoanPayment
      && (accountId != 0 ==> t.accountId == accountId)
      && Text.LikeContains(t.description, "loan #" + Text.IntToString(loanId))
  {
    var found := SearchTransactions(transactions, PaymentQuery(accountId, loanId));
    forall t | t in found
      ensures t.txnType == LoanPayment
      ensures accountId != 0 ==> t.accountId == accountId
      ensures Text.LikeContains(t.description, "loan #" + Text.IntToString(loanId))
    {
      var i :| 0 <= i < |found| && found[i] == t;
      assert SearchMatches(PaymentQuery(accountId, loanId), t);
      NamedLoanPayment(t.txnType);
    }
  }

  /** Only `loan_payment` carries that stored name. */
  lemma NamedLoanPayment(t: TransactionType)
    requires t.Name() == "loan_payment"
    ensures t == LoanPayment
  {
    assert |t.Name()| == 12 && t.Name()[0] == 'l';
  }

  /** `total_payments`: the monthly payment over the whole term. */
  function TotalPayments(monthly: real, termMonths: int): real
  {
    monthly * (termMonths as real)
  }

  datatype LoanSummary = LoanSummary(
    loan: Loan,
    account: Option<Account>,
    monthlyPayment: real,
    totalPayments: real,
    totalInterest: real,
    paymentsMade: seq<Transaction>,
    paymentSchedule: seq<ScheduleRow>)

  class LoanManager {
    const db: Database
    const accountManager: AccountManager
    const transactionManager: TransactionManager

    constructor (db: Database)
      ensures this.db == db && Wired()
    {
      this.db := db;
      accountManager := new AccountManager(db);
      transactionManager := new TransactionManager(db);
    }

    /** The managers this one calls share its database. */
    predicate Wired()
    {
      accountManager.db == db && transactionManager.db == db
    }

    /** `apply_for_loan`: the checks in source order (positive amount, rate
        within 0..100 inclusive, positive term, existing account), then a
        `pending` loan under the next id whose remaining amount is the whole
        loan amount. */
    method ApplyForLoan(accountId: int, loanAmount: real, interestRate: real, termMonths: int, now: DateTime)
      returns (r: Result<Loan>)
      requires db.Valid()
      modifies db`loans, db`nextLoanId
      ensures db.Valid()
      ensures loanAmount <= 0.0 ==> r == Err(NonPositiveAmount)
      ensures loanAmount > 0.0 && !(0.0 <= interestRate <= 100.0) ==> r == Err(InvalidInterestRate)
      ensures (loanAmount > 0.0 && 0.0 <= interestRate <= 100.0 && termMonths <= 0) ==> r == Err(NonPositiveTerm)
      ensures (loanAmount > 0.0 && 0.0 <= interestRate <= 100.0 && termMonths > 0 && accountId !in old(db.accounts)) ==>
        r == Err(AccountNotFound(accountId))
      ensures (loanAmount > 0.0 && 0.0 <= interestRate <= 100.0 && termMonths > 0 && accountId in old(db.accounts)) ==> r.Ok?
      ensures r.Err? ==> db.loans == old(db.loans) && db.nextLoanId == old(db.nextLoanId)
      ensures r.Ok? ==>
        && r.value == Loan(old(db.nextLoanId), accountId, loanAmount, interestRate, termMonths, loanAmount,
                           Pending, now, None, None, None)
        && db.loans == old(db.loans)[r.value.id := r.value]
        && db.nextLoanId == old(db.nextLoanId) + 1
        && GetLoan(db.loans, r.value.id) == Some(r.value)
    {
      if loanAmount <= 0.0 {
        return Err(NonPositiveAmount);
      }
      if interestRate < 0.0 || interestRate > 100.0 {
        return Err(InvalidInterestRate);
      }
      if termMonths <= 0 {
        return Err(NonPositiveTerm);
      }
      if accountId !in db.accounts {
        return Err(AccountNotFound(accountId));
      }
      var loan := Loan(db.nextLoanId, accountId, loanAmount, interestRate, termMonths, loanAmount,
                       Pending, now, None, None, None);
      db.loans := db.loans[loan.id := loan];
      db.nextLoanId := db.nextLoanId + 1;
      r := Ok(loan);
    }

    /** `update_loan_status`: the status must be one of the six, then the
        loan must exist; only the status changes. No transition rule is
        enforced here. */
    method UpdateLoanStatus(loanId: int, newStatus: string) returns (r: Result<Loan>)
      requires db.Valid()
      modifies db`loans
      ensures db.Valid()
      ensures ParseLoanStatus(newStatus).None? ==> r == Err(InvalidLoanStatus)
      ensures ParseLoanStatus(newStatus).Some? && loanId !in old(db.loans) ==> r == Err(LoanNotFound(loanId))
      ensures ParseLoanStatus(newStatus).Some? && loanId in old(db.loans) ==> r.Ok?
      ensures r.Err? ==> db.loans == old(db.loans)
      ensures r.Ok? ==>
        && loanId in old(db.loans)
        && r.value == old(db.loans)[loanId].(status := ParseLoanStatus(newStatus).value)
        && r.value.status.Name() == newStatus
        && db.loans == old(db.loans)[loanId := r.value]
    {
      var status := ParseLoanStatus(newStatus);
      if status.None? {
        return Err(InvalidLoanStatus);
      }
      if loanId !in db.loans {
        return Err(LoanNotFound(loanId));
      }
      var updated := db.loans[loanId].(status := status.value);
      db.loans := db.loans[loanId := updated];
      r := Ok(updated);
    }

    /** `approve_loan`: the loan must exist and be `pending`, its account
        must exist, and the end date (the start moved by the term in calendar
        months, same day and time) must exist; all of this before any write.
        Then the loan becomes `active` with its start and end dates, a
        `deposit` of the loan amount is recorded, and the account balance
        grows by the loan amount: the money in the bank grows by exactly the
        loan. */
    method ApproveLoan(loanId: int, now: DateTime) returns (r: Result<Loan>)
      requires db.Valid() && Wired() && ValidDateTime(now)
      modifies db`loans, db`accounts, db`transactions, db`nextTransactionId
      ensures db.Valid()
      ensures loanId !in old(db.loans) ==> r == Err(LoanNotFound(loanId))
      ensures loanId in old(db.loans) && old(db.loans)[loanId].status != Pending ==> r == Err(LoanNotPending)
      ensures (loanId in old(db.loans) && old(db.loans)[loanId].status == Pending &&
               AddMonths(now, old(db.loans)[loanId].termMonths).None?) ==> r == Err(InvalidEndDate)
      ensures (loanId in old(db.loans) && old(db.loans)[loanId].status == Pending &&
               AddMonths(now, old(db.loans)[loanId].termMonths).Some?) ==> r.Ok?
      ensures r.Err? ==> db.loans == old(db.loans) && db.accounts == old(db.accounts)
                         && db.transactions == old(db.transactions) && db.nextTransactionId == old(db.nextTransactionId)
      ensures r.Ok? ==>
        var loan := old(db.loans)[loanId];
        var account := old(db.accounts)[loan.accountId];
        && loan.status == Pending
        && AddMonths(now, loan.termMonths).Some?
        && r.value == loan.(status := Active, startDate := Some(now), endDate := AddMonths(now, loan.termMonths))
        && db.loans == old(db.loans)[loanId := r.value]
        && db.accounts == old(db.accounts)[loan.accountId :=
             account.(balance := account.balance + loan.loanAmount, updatedAt := now)]
        && BalanceSum(db.accounts) == BalanceSum(old(db.accounts)) + loan.loanAmount
        && db.transactions == old(db.transactions)
             + [Transaction(old(db.nextTransactionId), loan.accountId, TransactionType.Deposit, loan.loanAmount,
                            DisbursementDescription(loanId), None, now)]
    {
      if loanId !in db.loans {
        return Err(LoanNotFound(loanId));
      }
      var loan := db.loans[loanId];
      if loan.status != Pending {
        return Err(LoanNotPending);
      }
      if loan.accountId !in db.accounts {
        return Err(AccountNotFound(loan.accountId));
      }
      var account := db.accounts[loan.accountId];
      var endDate := AddMonths(now, loan.termMonths);
      if endDate.None? {
        return Err(InvalidEndDate);
      }
      var activated := Disburse(loanId, loan, account, endDate, now);
      r := Ok(activated);
    }

    /** `reject_loan`: the loan must exist and be `pending`; it becomes
        `rejected` and no balance or journal row changes. */
    method RejectLoan(loanId: int) returns (r: Result<Loan>)
      requires db.Valid()
      modifies db`loans
      ensures db.Valid()
      ensures loanId !in old(db.loans) ==> r == Err(LoanNotFound(loanId))
      ensures loanId in old(db.loans) && old(db.loans)[loanId].status != Pending ==> r == Err(LoanNotPending)
      ensures loanId in old(db.loans) && old(db.loans)[loanId].status == Pending ==> r.Ok?
      ensures r.Err? ==> db.loans == old(db.loans)
      ensures r.Ok? ==>
        && loanId in old(db.loans) && old(db.loans)[loanId].status == Pending
        && r.value == old(db.loans)[loanId].(status := Rejected)
        && db.loans == old(db.loans)[loanId := r.value]
      ensures db.accounts == old(db.accounts) && db.transactions == old(db.transactions)
    {
      if loanId !in db.loans {
        return Err(LoanNotFound(loanId));
      }
      if db.loans[loanId].status != Pending {
        return Err(LoanNotPending);
      }
      r := UpdateLoanStatus(loanId, "rejected");
    }

    /** `make_payment`: the checks in source order (loan exists, is
        `active`, positive amount, amount within the remaining amount,
        account exists, amount within the balance). Then a `withdrawal` is
        recorded, the balance drops by the amount, and the loan is updated by
        `ApplyPayment`: it is `paid` exactly when the payment clears it. */
    method MakePayment(loanId: int, amount: real, now: DateTime) returns (r: Result<Loan>)
      requires db.Valid() && Wired()
      modifies db`loans, db`accounts, db`transactions, db`nextTransactionId
      ensures db.Valid()
      ensures loanId !in old(db.loans) ==> r == Err(LoanNotFound(loanId))
      ensures loanId in old(db.loans) && old(db.loans)[loanId].status != Active ==> r == Err(LoanNotActive)
      ensures (loanId in old(db.loans) && old(db.loans)[loanId].status == Active && amount <= 0.0) ==>
        r == Err(NonPositiveAmount)
      ensures (loanId in old(db.loans) && old(db.loans)[loanId].status == Active && amount > 0.0 &&
               amount > old(db.loans)[loanId].remainingAmount) ==> r == Err(PaymentExceedsRemaining)
      ensures (loanId in old(db.loans) && old(db.loans)[loanId].status == Active && 0.0 < amount <= old(db.loans)[loanId].remainingAmount &&
               amount > old(db.accounts)[old(db.loans)[loanId].accountId].balance) ==> r == Err(InsufficientFunds)
      ensures (loanId in old(db.loans) && old(db.loans)[loanId].status == Active && 0.0 < amount <= old(db.loans)[loanId].remainingAmount &&
               amount <= old(db.accounts)[old(db.loans)[loanId].accountId].balance) ==> r.Ok?
      ensures r.Err? ==> db.loans == old(db.loans) && db.accounts == old(db.accounts)
                         && db.transactions == old(db.transactions) && db.nextTransactionId == old(db.nextTransactionId)
      ensures r.Ok? ==>
        var loan := old(db.loans)[loanId];
        var account := old(db.accounts)[loan.accountId];
        && loan.status == Active && 0.0 < amount <= loan.remainingAmount && amount <= account.balance
        && r.value == ApplyPayment(loan, amount, now)
        && r.value.remainingAmount == loan.remainingAmount - amount
        && (r.value.status == Paid <==> amount == loan.remainingAmount)
        && (r.value.status != Paid ==> r.value.status == Active)
        && db.loans == old(db.loans)[loanId := r.value]
        && db.accounts == old(db.accounts)[loan.accountId :=
             account.(balance := account.balance - amount, updatedAt := now)]
        && BalanceSum(db.accounts) == BalanceSum(old(db.accounts)) - amount
        && db.transactions == old(db.transactions)
             + [Transaction(old(db.nextTransactionId), loan.accountId, Withdrawal, amount,
                            PaymentDescription(loanId), None, now)]
    {
      if loanId !in db.loans {
        return Err(LoanNotFound(loanId));
      }
      var loan := db.loans[loanId];
      if loan.status != Active {
        return Err(LoanNotActive);
      }
      if amount <= 0.0 {
        return Err(NonPositiveAmount);
      }
      if amount > loan.remainingAmount {
        return Err(PaymentExceedsRemaining);
      }
      if loan.accountId !in db.accounts {
        return Err(AccountNotFound(loan.accountId));
      }
      var account := db.accounts[loan.accountId];
      if amount > account.balance {
        return Err(InsufficientFunds);
      }
      var paid := Settle(loanId, loan, account, amount, now);
      r := Ok(paid);
    }

    /** The approval of `approve_loan` once its checks pass: the loan row
        becomes `active` with its dates, then the `deposit` row and the
        credited balance. */
    method Disburse(loanId: int, loan: Loan, account: Account, endDate: Option<DateTime>, now: DateTime)
      returns (activated: Loan)
      requires db.Valid() && Wired()
      requires loanId in db.loans && db.loans[loanId] == loan
      requires loan.accountId in db.accounts && db.accounts[loan.accountId] == account
      modifies db`loans, db`accounts, db`transactions, db`nextTransactionId
      ensures db.Valid()
      ensures activated == loan.(status := Active, startDate := Some(now), endDate := endDate)
      ensures db.loans == old(db.loans)[loanId := activated]
      ensures db.accounts == old(db.accounts)[loan.accountId := account.(balance := account.balance + loan.loanAmount, updatedAt := now)]
      ensures BalanceSum(db.accounts) == BalanceSum(old(db.accounts)) + loan.loanAmount
      ensures db.transactions == old(db.transactions)
                + [Transaction(old(db.nextTransactionId), loan.accountId, TransactionType.Deposit, loan.loanAmount,
                               DisbursementDescription(loanId), None, now)]
    {
      activated := loan.(status := Active, startDate := Some(now), endDate := endDate);
      StoreLoan(activated);
      assert ParseTransactionType("deposit") == Some(TransactionType.Deposit);
      Post(loan.accountId, "deposit", TransactionType.Deposit, loan.loanAmount, account.balance + loan.loanAmount,
           DisbursementDescription(loanId), now);
    }

    /** The accepted payment of `make_payment`: the `withdrawal` row, the
        debited balance and the updated loan row. */
    method Settle(loanId: int, loan: Loan, account: Account, amount: real, now: DateTime) returns (paid: Loan)
      requires db.Valid() && Wired()
      requires loanId in db.loans && db.loans[loanId] == loan
      requires loan.accountId in db.accounts && db.accounts[loan.accountId] == account
      requires loan.status == Active && 0.0 < amount <= loan.remainingAmount && amount <= account.balance
      modifies db`loans, db`accounts, db`transactions, db`nextTransactionId
      ensures db.Valid()
      ensures paid == ApplyPayment(loan, amount, now)
      ensures paid.remainingAmount == loan.remainingAmount - amount
      ensures paid.status == Paid <==> amount == loan.remainingAmount
      ensures paid.status != Paid ==> paid.status == Active
      ensures db.loans == old(db.loans)[loanId := paid]
      ensures db.accounts == old(db.accounts)[loan.accountId := account.(balance := account.balance - amount, updatedAt := now)]
      ensures BalanceSum(db.accounts) == BalanceSum(old(db.accounts)) - amount
      ensures db.transactions == old(db.transactions)
                + [Transaction(old(db.nextTransactionId), loan.accountId, Withdrawal, amount, PaymentDescription(loanId), None, now)]
    {
      assert ParseTransactionType("withdrawal") == Some(Withdrawal);
      Post(loan.accountId, "withdrawal", Withdrawal, amount, account.balance - amount, PaymentDescription(loanId), now);
      paid := ApplyPayment(loan, amount, now);
      AcceptedPayment(loan, amount, now);
      StoreLoan(paid);
    }

    /** Writes back a loan row whose id and account stay as they were. */
    method StoreLoan(loan: Loan)
      requires db.Valid() && loan.id in db.loans && loan.accountId == db.loans[loan.id].accountId
      requires LoanTermsValid(loan)
      modifies db`loans
      ensures db.Valid()
      ensures db.loans == old(db.loans)[loan.id := loan]
    {
      db.loans := db.loans[loan.id := loan];
    }

    /** The journal row and the balance update of a disbursement or a
        payment: `record_transaction`, then `update_balance`. */
    method Post(accountId: int, typeName: string, t: TransactionType, amount: real, newBalance: real,
                description: string, now: DateTime)
      requires db.Valid() && Wired()
      requires accountId in db.accounts && newBalance >= 0.0 && description != ""
      requires ParseTransactionType(typeName) == Some(t)
      modifies db`accounts, db`transactions, db`nextTransactionId
      ensures db.Valid()
      ensures db.accounts == old(db.accounts)[accountId := old(db.accounts)[accountId].(balance := newBalance, updatedAt := now)]
      ensures BalanceSum(db.accounts) == BalanceSum(old(db.accounts)) - old(db.accounts)[accountId].balance + newBalance
      ensures db.transactions == old(db.transactions) + [Transaction(old(db.nextTransactionId), accountId, t, amount, description, None, now)]
      ensures db.nextTransactionId == old(db.nextTransactionId) + 1
    {
      ghost var before := db.accounts;
      var recorded := transactionManager.RecordTransaction(accountId, typeName, amount, description, None, now);
      var updated := accountManager.UpdateBalance(accountId, newBalance, now);
      BalanceSumUpdate(before, accountId, db.accounts[accountId]);
    }

    /** The payment figures and the schedule `get_loan_summary` computes for
        a stored loan. */
    method PlanPayments(loan: Loan) returns (monthly: real, totalPayments: real, schedule: seq<ScheduleRow>)
      requires LoanTermsValid(loan)
      ensures Ok(monthly) == CalculateMonthlyPayment(loan.loanAmount, loan.interestRate, loan.termMonths)
      ensures totalPayments == TotalPayments(monthly, loan.termMonths) && totalPayments >= loan.loanAmount
      ensures schedule == Schedule(1, loan.termMonths, loan.loanAmount, monthly, MonthlyRate(loan.interestRate))
      ensures |schedule| == loan.termMonths && PrincipalSum(schedule) == loan.loanAmount
      ensures schedule[loan.termMonths - 1].remainingBalance == 0.0
    {
      var payment := CalculateMonthlyPayment(loan.loanAmount, loan.interestRate, loan.termMonths);
      MonthlyPaymentCoversLoan(loan.loanAmount, loan.interestRate, loan.termMonths);
      monthly := payment.value;
      totalPayments := TotalPayments(monthly, loan.termMonths);
      schedule := BuildSchedule(loan.loanAmount, monthly, loan.interestRate, loan.termMonths);
      ScheduleRepaysLoan(loan.loanAmount, monthly, MonthlyRate(loan.interestRate), loan.termMonths);
    }

    /** The `payments_made` query: at most 50 of the account's
        `loan_payment` rows whose description mentions `loan #<id>`, newest
        first, and all of them when there are no more than 50. */
    method FindPayments(accountId: int, loanId: int) returns (payments: seq<Transaction>)
      ensures payments == SearchTransactions(db.transactions, PaymentQuery(accountId, loanId))
      ensures |payments| <= 50
      ensures NewestFirst(payments, DateKey)
      ensures forall i :: 0 <= i < |payments| ==>
        && payments[i] in db.transactions
        && payments[i].txnType == LoanPayment
        && (accountId != 0 ==> payments[i].accountId == accountId)
        && Text.LikeContains(payments[i].description, "loan #" + Text.IntToString(loanId))
      ensures |Filter(db.transactions, (t: Transaction) => SearchMatches(PaymentQuery(accountId, loanId), t))| <= 50 ==>
        forall k :: 0 <= k < |db.transactions| && SearchMatches(PaymentQuery(accountId, loanId), db.transactions[k]) ==>
          db.transactions[k] in payments
    {
      payments := SearchTransactions(db.transactions, PaymentQuery(accountId, loanId));
      PaymentsMadeAreLoanPayments(db.transactions, accountId, loanId);
    }

    /** `get_loan_summary`: fails for an unknown loan; otherwise the loan, its
        account, the monthly payment with its totals, the `payments_made`
        search, and the amortization schedule. For every stored loan the
        formula is defined, the total interest is not negative, and the
        schedule has one row per month, repays the loan amount and ends with
        nothing owed. */
    method GetLoanSummary(loanId: int) returns (r: Result<LoanSummary>)
      requires db.Valid()
      ensures loanId !in db.loans ==> r == Err(LoanNotFound(loanId))
      ensures loanId in db.loans ==> r.Ok?
      ensures r.Ok? ==>
        var loan := db.loans[loanId];
        var s := r.value;
        && loanId in db.loans
        && s.loan == loan
        && s.account == GetAccount(db.accounts, loan.accountId)
        && Ok(s.monthlyPayment) == CalculateMonthlyPayment(loan.loanAmount, loan.interestRate, loan.termMonths)
        && s.totalPayments == TotalPayments(s.monthlyPayment, loan.termMonths)
        && s.totalInterest == s.totalPayments - loan.loanAmount
        && s.totalInterest >= 0.0
        && s.paymentsMade == SearchTransactions(db.transactions, PaymentQuery(loan.accountId, loanId))
        && s.paymentSchedule == Schedule(1, loan.termMonths, loan.loanAmount, s.monthlyPayment,
                                         MonthlyRate(loan.interestRate))
        && |s.paymentSchedule| == loan.termMonths
        && PrincipalSum(s.paymentSchedule) == loan.loanAmount
        && s.paymentSchedule[loan.termMonths - 1].remainingBalance == 0.0
    {
      if loanId !in db.loans {
        return Err(LoanNotFound(loanId));
      }
      var loan := db.loans[loanId];
      var account := GetAccount(db.accounts, loan.accountId);
      var monthly, totalPayments, schedule := PlanPayments(loan);
      var payments := FindPayments(loan.accountId, loanId);
      r := Ok(LoanSummary(loan, account, monthly, totalPayments, totalPayments - loan.loanAmount, payments, schedule));
    }
  }
}
