# Banking back office — a verified model

This project models the ledger core of a small banking back office written
in Python over SQLite, together with its bug tracker:

- **Account registry** (`src/account.py`): opening an account with its
  checks, lookups by id and by account number, the AND-combined search,
  partial field updates, the one balance mutator, closing an account (zero
  balance, no pending or active loan, cascade), and the account summary.
- **Transaction journal** (`src/transaction.py`): deposit, withdrawal and
  transfer with their guards in source order, the append-only record of typed
  transactions with its default description, the paged newest-first
  listings, and the per-type statistics.
- **Loan engine** (`src/loan.py`): application, approval (with the
  calendar-month end date and the disbursement), rejection, payments, the
  monthly payment formula and the amortization schedule of the loan summary.
- **Store** (`src/database.py`): the table constraints the schema declares
  (`UNIQUE` account number, foreign keys with `ON DELETE CASCADE`,
  `AUTOINCREMENT` ids), the account-number generator, and the connection
  protocol of `execute_query`, `begin_transaction`, `commit_transaction` and
  `rollback_transaction`.
- **Bug tracker** (`src/bug_tracker.py`): reporting, status updates with
  their date stamps and comment history, search, and the report counts.

Tables are values held by one `Store.Database` object: `map<int, Row>` for
accounts, loans and bugs, keyed by their `AUTOINCREMENT` id, and a
`seq<Transaction>` for the journal in rowid order. `Database.Valid()` states
the schema's constraints, and every mutating method keeps it. The manager
classes (`AccountManager`, `TransactionManager`, `LoanManager`,
`BugTracker`) share that object and change only the fields their `modifies`
clauses name. Read-only queries are functions over the table values. Money
is `real`, so the arithmetic is exact. The clock is a `now` argument: one
reading per operation. The Unix time behind an account number is an integer
argument. An exception the source raises is an `Err` value of `Wrappers.Error`.

Modules: `Wrappers` (Option, Result, errors), `Text` (decimal formatting,
case mapping, `strip`, `LIKE '%x%'`), `Calendar` (dates, month addition,
`str(datetime)`), `Schema` (rows and the validated enumerations), `Listing`
(filtering, newest-first ordering, paging, map totals), `Store`, `Accounts`,
`Journal` (the read side of the journal), `Transactions`, `Loans`, `Bugs`.

## Model

| member | source | states |
|---|---|---|
| Store.GenerateAccountNumber | src/database.py:149-157 | The number is 11 characters, all digits, starts with "1000", and its last seven digits read back as the Unix time modulo 10^7 |
| Store.AccountNumberCollision | src/database.py:149-157 | Two times give the same account number exactly when they agree modulo 10^7, so numbers are not unique across time |
| Store.InsertAccountKeepsConstraints | src/database.py:47-58 | Inserting under the next id, with a balance that is not negative and an unused number, keeps ids, the non-negative balances and number uniqueness |
| Store.AppendKeepsJournal | src/database.py:62-74 | Appending a row with the next id for an existing account keeps the foreign key and the increasing ids |
| Store.ReferencesSurviveGrowth | src/database.py:62-91 | Transactions and loans keep valid references when accounts are only added or replaced |
| Store.CascadeKeepsConstraints | src/database.py:62-91 | Deleting an account with its transactions and loans (`ON DELETE CASCADE`) keeps every table constraint |
| Store.FirstFailure | src/transaction.py:110-154 | The index of the first rejected statement: all before it ran, and it is rejected unless it is the end |
| Store.Database.constructor | src/database.py:40-99 | Initialising a fresh database file gives empty tables, every counter 1, and no open connection |
| Store.Database.Connect | src/database.py:25-32 | A fresh connection with nothing uncommitted replaces `conn` |
| Store.Database.Close | src/database.py:34-38 | No connection is left open |
| Store.Database.ExecuteQuery | src/database.py:103-143 | Always ends closed. A fetch returns the first row or all rows and commits nothing. A write returns `lastrowid` for an INSERT and `rowcount` otherwise, and is committed. Rollback happens exactly for a failed non-fetch query |
| Store.Database.BeginTransaction | src/database.py:214-221 | Opens a fresh connection and keeps it in `conn` |
| Store.Database.CommitTransaction | src/database.py:223-229 | Commits what the open connection holds and closes it; does nothing without one |
| Store.Database.RollbackTransaction | src/database.py:231-236 | Discards and closes the open connection; does nothing without one |
| Store.Database.ExecuteWrite | src/database.py:103-143 | A write is committed exactly when the engine ran it, and no connection is left open |
| Store.Database.GroupedWrites | src/transaction.py:110-154 | For begin, writes, then commit or rollback: every write that ran before the first failure stays committed, and the result is true exactly when none failed, so the "transaction" groups nothing |
| Store.Database.InsertAccount | src/account.py:31-44 | The `INSERT` of a new account under the next `AUTOINCREMENT` id adds exactly that row and keeps every table constraint |
| Store.Database.DeleteAccount | src/account.py:194-196 | Deleting an account removes it with its transactions and loans (`ON DELETE CASCADE`) and keeps every table constraint |
| Accounts.GetAccount | src/account.py:51-58 | Some exactly when the id is in the table, and then that row |
| Accounts.GetAccountByNumber | src/account.py:60-67 | The result is a row with that number; None exactly when no row has it |
| Accounts.CreatedAccountIsFound | src/account.py:44-67 | While numbers are unique, an account is found again by its id and by its number |
| Accounts.GetAllAccounts | src/account.py:69-74 | The result holds each account of the table exactly once (equal multisets), newest `created_at` first |
| Accounts.SearchAccounts | src/account.py:76-117 | Each account satisfying every supplied filter exactly once (equal multisets) and no other, newest first |
| Accounts.SearchWithoutFilters | src/account.py:76-117 | With no filter the search equals `get_all_accounts` |
| Accounts.ApplyUpdates | src/account.py:126-154 | The `SET` list never changes id, number, balance or either timestamp |
| Accounts.NoEditableFieldNoChange | src/account.py:126-140 | Without an editable key the row is unchanged |
| Accounts.ApplyUpdatesTakesValue | src/account.py:126-154 | Each editable key given takes exactly the value given for it |
| Accounts.BalanceSumRemove | src/account.py:156-174 | The sum of all balances splits at any account |
| Accounts.BalanceSumUpdate | src/account.py:156-174 | Replacing one account changes the total by exactly its change in balance |
| Accounts.LoanTotalsOf | src/account.py:224-237 | The loan count is the number of loans; the sum is NULL exactly when there are none, and otherwise the sum of their remaining amounts |
| Accounts.TypeTotals | src/account.py:207-214 | One row per transaction type present in the history, each with the count and total of that type's rows, no type twice, and every present type listed |
| Accounts.GetAccountSummary | src/account.py:200-237 | Fails exactly for an unknown id. Otherwise: the account; per present type, the count (over 0) and total of its transactions, no type twice and every present type listed; at most 10 newest transactions; count and remaining sum over active loans only |
| Accounts.InactiveLoanNotSummed | src/account.py:224-230 | Adding a loan that is not active leaves the summarised loans unchanged |
| Accounts.ActiveLoanSummed | src/account.py:224-230 | Adding an active loan of the account raises the count by one and the remaining sum by exactly its remaining amount |
| Accounts.AccountManager.CreateAccount | src/account.py:11-49 | Errors in source order: empty owner, unlisted type, negative balance, then a taken number. The new row has the next id, the initial balance and `created_at == updated_at == now`. Nothing else changes |
| Accounts.AccountManager.UpdateAccount | src/account.py:119-154 | Unknown id fails. Without an editable key the row is returned untouched. A `None` for a NOT NULL column fails. Otherwise only the editable columns and `updated_at` change |
| Accounts.AccountManager.UpdateBalance | src/account.py:156-174 | A negative balance fails first, then an unknown id. Otherwise only that row's balance (to exactly the argument) and `updated_at` change |
| Accounts.AccountManager.CloseAccount | src/account.py:176-198 | Succeeds exactly when the account exists, holds exactly 0 and has no pending or active loan. Then the account, its transactions and its loans are gone, and nothing else changes |
| Journal.StoredDescription | src/transaction.py:179 | The caller's description when non-empty, else the type-derived default, which is never empty |
| Journal.DefaultDescriptionSpelled | src/transaction.py:179 | Each of the six defaults is spelled out: "Deposit", "Withdrawal", "Transfer in", "Transfer out", "Loan disbursement", "Loan payment" |
| Journal.GetTransaction | src/transaction.py:185-190 | A found row is in the journal with that id; None exactly when no row has it |
| Journal.GetAccountTransactions | src/transaction.py:192-208 | Exactly the page: that account's rows (of the given type) sorted newest first, `offset` of them skipped, at most `limit` kept; with offset 0 and a limit covering the matches, every match is listed |
| Journal.SearchTransactions | src/transaction.py:245-287 | Exactly the page: the rows matching every given filter sorted newest first, `offset` of them skipped, at most `limit` kept; with offset 0 and a limit covering the matches, every match is listed |
| Listing.FirstPageNewest | src/transaction.py:192-208 | A first page holds the newest rows: every row left off it is no newer than any row on it |
| Journal.AccountHistoryIsSearch | src/transaction.py:192-287 | An account's history is the same page as the search restricted to that account |
| Journal.GroupStats | src/transaction.py:210-243 | A group row exists exactly when the type occurs, and counts that type's rows |
| Journal.GroupStatsBounds | src/transaction.py:210-243 | A group row counts more than zero rows, totals their amounts, and has min ≤ average ≤ max |
| Journal.GetTransactionStats | src/transaction.py:210-243 | One row per type present in the window: count over 0, total the sum, min ≤ average ≤ max, no type twice, and every present type's row listed |
| Journal.StatsCountEveryRow | src/transaction.py:210-243 | The per-type counts add up to the number of rows in the window |
| Journal.TypesDistinct | src/transaction.py:158-161 | The six types are listed once each, and all of them are listed |
| Transactions.TransferConservesTotal | src/transaction.py:112-118 | The source loses the amount and the destination gains it; no other account changes; the sum over all balances is unchanged |
| Transactions.TwoUpdatesMoveFunds | src/transaction.py:112-118 | The two `update_balance` calls of a transfer, one after the other, give `MoveFunds` and keep the sum of all balances |
| Transactions.TransactionManager.constructor | src/transaction.py:8-11 | The manager and its account manager share the given database |
| Transactions.TransactionManager.RecordTransaction | src/transaction.py:156-183 | An unknown type fails, then a missing account (foreign key). Otherwise exactly one row is appended under the next id, with the stored description and the related account |
| Transactions.TransactionManager.Deposit | src/transaction.py:13-46 | Fails on an amount ≤ 0, then on a missing account. Otherwise the balance grows by the amount and one `deposit` row is appended; the receipt reports both. Succeeds whenever both checks pass. |
| Transactions.TransactionManager.Withdraw | src/transaction.py:48-85 | Fails on an amount ≤ 0, a missing account, then insufficient funds, changing nothing. Otherwise the balance drops by the amount (never below 0) and one `withdrawal` row is appended. Succeeds whenever all three checks pass. |
| Transactions.TransactionManager.Transfer | src/transaction.py:87-154 | Guards in order: amount > 0, different accounts, source exists, destination exists, funds. On success the accounts become `MoveFunds`, the total is unchanged, and a `transfer_out` then a `transfer_in` row are appended with each other's account. Succeeds whenever all five guards pass. |
| Transactions.TransactionManager.CarryOut | src/transaction.py:110-142 | For accepted arguments: balances become `MoveFunds` with the total kept, exactly the `transfer_out` and `transfer_in` rows are appended (caller's description or the defaults), and the receipt holds both ids and both new balances |
| Loans.GetLoan | src/loan.py:50-57 | Some exactly when the id is in the table, and then that row |
| Loans.CalculateMonthlyPayment | src/loan.py:227-240 | At rate 0 the result is defined exactly for a non-zero term, and payment × term equals the principal |
| Loans.MonthlyPaymentCoversLoan | src/loan.py:227-240 | For every loan `apply_for_loan` accepts the formula is defined, and payment × term ≥ principal. At a positive rate the payment exceeds the first month's interest |
| Calendar.MonthShift | src/loan.py:117-118 | The month is in 1..12, and year increase × 12 + month − 1 equals the old month index plus the term |
| Calendar.AddMonths | src/loan.py:113-119 | The end date is valid, keeps day and time, and lies exactly the given number of calendar months later; None when the day does not exist there |
| Calendar.AddMonthsEarlyDay | src/loan.py:113-119 | Days up to the 28th always have an end date |
| Calendar.AddMonthsMonthEnd | src/loan.py:113-119 | 31 January plus one month fails; 29 January 2024 plus one month is 29 February |
| Loans.FinalRowNotCleared | src/loan.py:279-291 | As written, the last schedule row of a one-month loan still reports the paid principal as remaining |
| Loans.ScheduleRepaysLoan | src/loan.py:270-292 | The corrected schedule has one row per month numbered from 1, payment = principal + interest, principal sum = loan amount, and nothing left owed |
| Loans.ScheduleCorrectsLastRow | src/loan.py:279-291 | The corrected schedule differs from the schedule as written only in the last row, whose remaining balance is 0 |
| Loans.BuildSchedule | src/loan.py:270-292 | The loop builds exactly the corrected schedule (see Findings), not the one as written |
| Loans.ApplyPayment | src/loan.py:202-221 | Reaching the remaining amount sets remaining 0 and `paid`; otherwise remaining drops by the amount and the status is kept; only those fields and the payment date change |
| Loans.PaymentsSettleLoan | src/loan.py:160-225 | Positive payments summing to the remaining amount leave the loan `paid` with nothing remaining |
| Loans.AcceptedPayment | src/loan.py:200-221 | A payment the guards accept lowers the remaining amount by exactly the payment, marks the loan `paid` exactly when it reaches the remaining amount, and keeps the loan terms valid |
| Loans.PaymentsMadeAreLoanPayments | src/loan.py:262-267 | `payments_made` lists only `loan_payment` rows, so it never lists the `withdrawal` rows `make_payment` writes |
| Loans.LoanManager.constructor | src/loan.py:9-11 | The loan manager and the managers it calls share one database |
| Loans.LoanManager.ApplyForLoan | src/loan.py:13-48 | Guards in order: amount > 0, rate within 0..100, term > 0, account exists. The new loan is `pending` under the next id, with remaining = amount. Succeeds whenever all four guards pass. |
| Loans.LoanManager.UpdateLoanStatus | src/loan.py:77-93 | An unlisted status fails, then an unknown loan; otherwise only the status changes. Succeeds whenever the status is listed and the loan exists. |
| Loans.LoanManager.ApproveLoan | src/loan.py:95-144 | Fails unless the loan exists and is `pending`, and its end date exists; all checks come before any write. The loan becomes `active` with start and end dates, a `deposit` row is appended, and the balance and the bank's total grow by the loan amount. Succeeds whenever the loan is pending and its end date exists. |
| Loans.LoanManager.RejectLoan | src/loan.py:146-158 | Fails unless the loan exists and is `pending`; it becomes `rejected`; accounts and journal unchanged. Succeeds whenever the loan is pending. |
| Loans.LoanManager.MakePayment | src/loan.py:160-225 | Guards in order: loan exists, `active`, amount > 0, amount ≤ remaining, account, funds. Then a `withdrawal` row is appended, the balance and the total drop by the amount, and the loan is `paid` exactly when the payment clears it. Succeeds whenever all the guards pass. |
| Loans.LoanManager.Settle | src/loan.py:189-221 | After the guards: one `withdrawal` row with the payment description, the balance and the total drop by the amount, and the loan is replaced by the paid-down loan |
| Loans.LoanManager.Disburse | src/loan.py:121-139 | After the guards: the loan becomes `active` with start and end dates, one `deposit` row of the loan amount is appended, and the balance and the total grow by it |
| Loans.LoanManager.Post | src/loan.py:128-139 | Recording a typed row and then setting the balance: exactly one row under the next id, only that account's balance and `updated_at` change, and the total changes by the same difference |
| Loans.LoanManager.StoreLoan | src/loan.py:121-126 | An `UPDATE loans` of one row replaces exactly that loan and keeps every table constraint |
| Loans.LoanManager.PlanPayments | src/loan.py:252-292 | For a stored loan: the formula's payment, total payments ≥ principal, and the corrected schedule (see Findings) with its facts |
| Loans.LoanManager.FindPayments | src/loan.py:262-267 | At most 50 journal rows, newest first, each a `loan_payment` row of the account whose description contains `loan #<id>`; all of them when there are no more than 50 |
| Loans.LoanManager.GetLoanSummary | src/loan.py:242-301 | Fails exactly for an unknown loan. Otherwise it reports the loan, the payment figures with total interest ≥ 0, the payment search, and the corrected schedule (see Findings), which repays the loan |
| Bugs.GetBug | src/bug_tracker.py:112-119 | Some exactly when the id is in the table, and then that row |
| Bugs.GetAllBugs | src/bug_tracker.py:121-130 | Each bug (with that status, when given) exactly once (equal multisets) and no other, newest report first |
| Bugs.SearchBugs | src/bug_tracker.py:191-232 | Each bug matching every recognised filter exactly once (equal multisets) and no other, newest report first |
| Bugs.SearchWithoutBugFilters | src/bug_tracker.py:191-232 | With no recognised filter the search equals `get_all_bugs()` |
| Bugs.AppendComment | src/bug_tracker.py:161-169 | Old comments, a blank line, then the entry: old comments stay a prefix; just the entry when there were none |
| Bugs.StatusUpdated | src/bug_tracker.py:132-189 | Status and `last_updated` change. `fixed_date` or `closed_date` is stamped only on a change into that status. A non-empty comment appends an entry. Nothing else changes |
| Bugs.RepeatedFixKeepsDate | src/bug_tracker.py:152-158 | A second update to `fixed` keeps the first fix date |
| Bugs.CommentsOnlyGrow | src/bug_tracker.py:161-169 | After two commented updates, the first update's comments are a prefix of the second's |
| Bugs.SeverityCountsCover | src/bug_tracker.py:243-248 | The four severity counts add up to the number of bugs |
| Bugs.StatusCountsCover | src/bug_tracker.py:250-255 | The five status counts add up to the number of bugs |
| Bugs.ModulesOfOccur | src/bug_tracker.py:257-263 | A module name is counted exactly when some bug has it (`unknown` for none) |
| Bugs.ClosedBugStillReported | src/bug_tracker.py:237-238 | As written, a closed bug appears in a report that excludes closed bugs |
| Bugs.ReportBugs | src/bug_tracker.py:236-240 | Each bug, or each bug that is not closed when closed ones are excluded, exactly once (equal multisets), newest first (corrected, see Findings) |
| Bugs.CountSeverities | src/bug_tracker.py:243-248 | Each severity count is the number of bugs with it, and the counts sum to the number of bugs |
| Bugs.CountStatuses | src/bug_tracker.py:250-255 | Each status count is the number of bugs with it, and the counts sum to the number of bugs |
| Bugs.CountModules | src/bug_tracker.py:257-263 | A counter exactly for each module that occurs, each the number of its bugs, summing to the number of bugs |
| Bugs.BugTracker.ReportBug | src/bug_tracker.py:77-110 | An unlisted severity fails. Otherwise a new `open` bug under the next id, with `reported_date == last_updated`, is found by `get_bug` |
| Bugs.BugTracker.UpdateBugStatus | src/bug_tracker.py:132-189 | An unlisted status fails, then an unknown bug. Otherwise only that row changes, to `StatusUpdated`. Succeeds whenever the status is listed and the bug exists. |
| Bugs.BugTracker.GenerateBugReport | src/bug_tracker.py:234-278 | The bugs read (corrected filter, see Findings) and their number. Severity and status breakdowns over all listed names, and module breakdowns, each counting the bugs under it. Each breakdown sums to `total_bugs` |

## Left out

- Floating point: amounts are exact `real`s, so rounding (and the tests' approximate loan figures) is not modelled.
- Concurrency: operations are sequential; the source has no locking.
- I/O: SQLite itself, `backup_database`, `restore_database`, logging, the bug tracker's log file and `get_recent_log_entries`. Table writes in the managers change the tables directly and do not go through the connection protocol, which is modelled on its own in `Store.Database`.
- Clock: `get_current_timestamp` and the Unix time of `generate_account_number` are arguments.
- SQL text: the model states the meaning of each query's `WHERE`, `ORDER BY`, `LIMIT` and `OFFSET`. `LIKE` is modelled as SQLite's case-insensitive substring test (both sides lower-cased, ASCII letters only) without `%`/`_` wildcards in the needle, and rows with equal sort keys keep insertion order.
- Schema mismatch: the transactions table declares `related_transaction_id` but `record_transaction` writes `related_account_id`. The model keeps the logical related account and does not model the failing column name.
- Keyword arguments given as `None` to `search_accounts` and `search_bugs` are not modelled; a filter in the model always carries a value. In the code a `None` for a `*_contains` key becomes the pattern `%None%` (src/account.py:85, src/bug_tracker.py:200), which matches any text containing "none" in any case, and a `None` for any other key is an `= NULL` or range test that matches nothing.
- `get_account_loans` and `get_all_loans` (plain listings) are not part of this model.
- `update_loan_status` allows any transition between listed statuses, and the model keeps that.
- Loan disbursement is recorded as a `deposit` and loan payments as a `withdrawal`, as the code does; the `loan_disbursement` and `loan_payment` types are never written by these operations.
- Transactions.TransactionManager.RecordTransaction: there is no amount check, as in the source; the amount is stored as given.
- Accounts.AccountManager.UpdateAccount: assumes each keyword is given once (`DistinctKeys`), as Python keyword arguments are.
- Loans.CalculateMonthlyPayment: for a positive rate the contract states the result only through `MonthlyPaymentCoversLoan` (for loans `apply_for_loan` accepts), not for arbitrary arguments.
- `user_manager.py`, the web front end, and the test and demo scripts are not part of this model. Where tests disagree with the code (a missing `delete_account`, different result keys), the code is followed.
- `payments_made` in the loan summary suggests the loan's payments; the code searches for `loan_payment` rows while `make_payment` stores payments as `withdrawal`, so the list stays empty, and the model follows the code (`Loans.PaymentsMadeAreLoanPayments`).
- Loans.BuildSchedule returns the corrected schedule (see Findings), not the one as written; the schedule as written is `Loans.ScheduleAsWritten`, compared with it in `Loans.ScheduleCorrectsLastRow` and `Loans.FinalRowNotCleared`.
- Loans.LoanManager.PlanPayments returns the corrected schedule (see Findings), not the one as written.
- Loans.LoanManager.GetLoanSummary returns the corrected schedule (see Findings), not the one as written, whose last row still reports the final principal as remaining.
- Bugs.BugTracker.GenerateBugReport returns the corrected result (see Findings): with `include_closed=False` it leaves closed bugs out, where the code as written still lists them (`Bugs.ClosedBugStillReported`).

## Findings

| source | as written | input that shows it | evidently intended | confidence | as-written member | corrected member |
|---|---|---|---|---|---|---|
| src/loan.py:279-291 | The final month sets its principal to the remaining balance but skips `remaining -= principal_payment`, so its row reports `max(0, remaining)` with the just-paid amount still owed | a 1-month loan of 1000 at 0%: the only row pays 1000 and reports 1000 remaining | the final row reports a remaining balance of 0 | not executed | Loans.FinalRowNotCleared | Loans.ScheduleRepaysLoan |
| src/bug_tracker.py:237-238 | `generate_bug_report(include_closed=False)` calls `search_bugs(status_not='closed')`, a key `search_bugs` ignores, so closed bugs are still reported | one bug with status `closed`, `include_closed=False`: the report lists it | closed bugs are left out when `include_closed` is false | not executed | Bugs.ClosedBugStillReported | Bugs.ReportBugs |
