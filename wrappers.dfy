/** Option and Result, and the kinds of failure the back office reports.
    Every `raise ValueError(...)` of the source becomes one `Error` value, so
    that a contract can say which check rejected a call. */
module Wrappers {

  datatype Option<+T> = None | Some(value: T)

  datatype Error =
    // account registry
    | MissingOwnerName
    | InvalidAccountType
    | NegativeBalance
    | DuplicateAccountNumber
    | AccountNotFound(accountId: int)
    | NonZeroBalance
    | HasOpenLoans
    | NotNullViolation
    // transaction journal and money movement
    | NonPositiveAmount
    | SameAccount
    | InsufficientFunds
    | InvalidTransactionType
    | ForeignKeyViolation
    // loan engine
    | InvalidInterestRate
    | NonPositiveTerm
    | InvalidLoanStatus
    | LoanNotFound(loanId: int)
    | LoanNotPending
    | LoanNotActive
    | PaymentExceedsRemaining
    | InvalidEndDate
    | DivisionByZero
    // bug tracker
    | InvalidSeverity
    | InvalidBugStatus
    | BugNotFound(bugId: int)

  datatype Result<+T> = Ok(value: T) | Err(error: Error)
}
