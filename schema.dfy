/** The rows of the four tables (accounts, transactions and loans from
    src/database.py, bugs from src/bug_tracker.py) and the closed vocabularies
    their text columns take. A column that the source validates against a
    fixed list on every write is a datatype here, with `Name` giving the text
    stored and `Parse…` the validation; `account_type`, which
    `update_account` writes unvalidated, stays a string. */
module Schema {
  import opened Wrappers
  import opened Calendar

  // ----- accounts -----

  /** The account types `create_account` accepts. */
  const AccountTypes: seq<string> :=
    ["checking", "savings", "business", "loan", "money_market", "certificate_of_deposit"]

  datatype Account = Account(
    id: int,
    number: string,
    ownerName: string,
    accountType: string,
    email: Option<string>,
    phoneNumber: Option<string>,
    balance: real,
    createdAt: DateTime,
    updatedAt: DateTime)

  // ----- transactions -----

  datatype TransactionType = Deposit | Withdrawal | TransferIn | TransferOut | LoanDisbursement | LoanPayment
  {
    /** The text stored in `transaction_type`. */
    function Name(): string
    {
      match this
      case Deposit => "deposit"
      case Withdrawal => "withdrawal"
      case TransferIn => "transfer_in"
      case TransferOut => "transfer_out"
      case LoanDisbursement => "loan_disbursement"
      case LoanPayment => "loan_payment"
    }
  }

  /** Every transaction type, in ascending order of its stored name. */
  const TransactionTypes: seq<TransactionType> :=
    [Deposit, LoanDisbursement, LoanPayment, TransferIn, TransferOut, Withdrawal]

  /** `record_transaction`'s type check: the one type with that name, if any. */
  function ParseTransactionType(s: string): (r: Option<TransactionType>)
    ensures r.Some? ==> r.value.Name() == s
    ensures r.None? ==> forall t: TransactionType :: t.Name() != s
  {
    if s == "deposit" then Some(Deposit)
    else if s == "withdrawal" then Some(Withdrawal)
    else if s == "transfer_in" then Some(TransferIn)
    else if s == "transfer_out" then Some(TransferOut)
    else if s == "loan_disbursement" then Some(LoanDisbursement)
    else if s == "loan_payment" then Some(LoanPayment)
    else None
  }

  datatype Transaction = Transaction(
    id: int,
    accountId: int,
    txnType: TransactionType,
    amount: real,
    description: string,
    relatedAccountId: Option<int>,
    date: DateTime)

  // ----- loans -----

  datatype LoanStatus = Pending | Approved | Active | Rejected | Paid | Defaulted
  {
    function Name(): string
    {
      match this
      case Pending => "pending"
      case Approved => "approved"
      case Active => "active"
      case Rejected => "rejected"
      case Paid => "paid"
      case Defaulted => "defaulted"
    }
  }

  /** `update_loan_status`'s status check. */
  function ParseLoanStatus(s: string): (r: Option<LoanStatus>)
    ensures r.Some? ==> r.value.Name() == s
    ensures r.None? ==> forall t: LoanStatus :: t.Name() != s
  {
    if s == "pending" then Some(Pending)
    else if s == "approved" then Some(Approved)
    else if s == "active" then Some(Active)
    else if s == "rejected" then Some(Rejected)
    else if s == "paid" then Some(Paid)
    else if s == "defaulted" then Some(Defaulted)
    else None
  }

  datatype Loan = Loan(
    id: int,
    accountId: int,
    loanAmount: real,
    interestRate: real,
    termMonths: int,
    remainingAmount: real,
    status: LoanStatus,
    applicationDate: DateTime,
    startDate: Option<DateTime>,
    endDate: Option<DateTime>,
    lastPaymentDate: Option<DateTime>)

  // ----- bugs -----

  datatype Severity = Low | Medium | High | Critical
  {
    function Name(): string
    {
      match this
      case Low => "low"
      case Medium => "medium"
      case High => "high"
      case Critical => "critical"
    }
  }

  /** `report_bug`'s severity check. */
  function ParseSeverity(s: string): (r: Option<Severity>)
    ensures r.Some? ==> r.value.Name() == s
    ensures r.None? ==> forall t: Severity :: t.Name() != s
  {
    if s == "low" then Some(Low)
    else if s == "medium" then Some(Medium)
    else if s == "high" then Some(High)
    else if s == "critical" then Some(Critical)
    else None
  }

  datatype BugStatus = Open | InProgress | Fixed | Closed | Reopened
  {
    function Name(): string
    {
      match this
      case Open => "open"
      case InProgress => "in_progress"
      case Fixed => "fixed"
      case Closed => "closed"
      case Reopened => "reopened"
    }
  }

  /** `update_bug_status`'s status check. */
  function ParseBugStatus(s: string): (r: Option<BugStatus>)
    ensures r.Some? ==> r.value.Name() == s
    ensures r.None? ==> forall t: BugStatus :: t.Name() != s
  {
    if s == "open" then Some(Open)
    else if s == "in_progress" then Some(InProgress)
    else if s == "fixed" then Some(Fixed)
    else if s == "closed" then Some(Closed)
    else if s == "reopened" then Some(Reopened)
    else None
  }

  datatype Bug = Bug(
    id: int,
    title: string,
    description: string,
    severity: Severity,
    moduleName: Option<string>,
    stepsToReproduce: Option<string>,
    status: BugStatus,
    reportedDate: DateTime,
    lastUpdated: DateTime,
    fixedDate: Option<DateTime>,
    closedDate: Option<DateTime>,
    comments: Option<string>)
}
