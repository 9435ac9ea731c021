/** The account registry of src/account.py: lookups, the AND-combined
    search, the account summary, and `AccountManager`, whose methods create,
    edit, re-balance and close rows of the accounts table. */
module Accounts {
  import opened Wrappers
  import opened Calendar
  import opened Schema
  import opened Listing
  import opened Store
  import Text
  import Journal

  /** `ORDER BY created_at DESC` sorts on this key. */
  function CreatedKey(a: Account): int
  {
    Instant(a.createdAt)
  }

  // ----- lookups -----

  /** `get_account`: the row with that id, if there is one. */
  function GetAccount(accounts: map<int, Account>, id: int): (r: Option<Account>)
    ensures r.Some? <==> id in accounts
    ensures r.Some? ==> r.value == accounts[id]
  {
    if id in accounts then Some(accounts[id]) else None
  }

  /** `get_account_by_number`: the first row (in rowid order) with that
      number; none exactly when no account has it. */
  function GetAccountByNumber(accounts: map<int, Account>, number: string): (r: Option<Account>)
    ensures r.Some? ==> r.value in accounts.Values && r.value.number == number
    ensures r.None? <==> forall id :: id in accounts ==> accounts[id].number != number
  {
    var found := Filter(Rows(accounts), (a: Account) => a.number == number);
    if found == [] then None else Some(found[0])
  }

  /** While account numbers are unique, the account an id names is found
      again by its number, and by its id. */
  lemma CreatedAccountIsFound(accounts: map<int, Account>, nextId: int, id: int)
    requires AccountsValid(accounts, nextId) && id in accounts
    ensures GetAccount(accounts, id) == Some(accounts[id])
    ensures GetAccountByNumber(accounts, accounts[id].number) == Some(accounts[id])
  {
    var r := GetAccountByNumber(accounts, accounts[id].number);
    assert r.Some?;
    var j :| j in accounts && accounts[j] == r.value;
  }

  /** `get_all_accounts`: every account once, newest first. */
  function GetAllAccounts(accounts: map<int, Account>): (r: seq<Account>)
    ensures multiset(r) == multiset(Rows(accounts))
    ensures NewestFirst(r, CreatedKey)
    ensures forall i :: 0 <= i < |r| ==> r[i] in accounts.Values
    ensures forall id :: id in accounts ==> accounts[id] in r
  {
    FilterAll(Rows(accounts), (a: Account) => true);
    OrderedRows(accounts, (a: Account) => true, CreatedKey)
  }

  // ----- search -----

  /** The keyword arguments `search_accounts` recognises; `None` is an
      argument that was not passed. */
  datatype AccountFilter = AccountFilter(
    ownerNameContains: Option<string>,
    accountType: Option<string>,
    emailContains: Option<string>,
    minBalance: Option<real>,
    maxBalance: Option<real>,
    createdAfter: Option<DateTime>,
    createdBefore: Option<DateTime>)

  const NoFilter: AccountFilter := AccountFilter(None, None, None, None, None, None, None)

  /** Every supplied filter holds. A `LIKE` on a missing email is NULL, which
      rejects the row. */
  predicate Matches(f: AccountFilter, a: Account)
  {
    && (f.ownerNameContains.Some? ==> Text.LikeContains(a.ownerName, f.ownerNameContains.value))
    && (f.accountType.Some? ==> a.accountType == f.accountType.value)
    && (f.emailContains.Some? ==> a.email.Some? && Text.LikeContains(a.email.value, f.emailContains.value))
    && (f.minBalance.Some? ==> a.balance >= f.minBalance.value)
    && (f.maxBalance.Some? ==> a.balance <= f.maxBalance.value)
    && (f.createdAfter.Some? ==> Instant(a.createdAt) >= Instant(f.createdAfter.value))
    && (f.createdBefore.Some? ==> Instant(a.createdAt) <= Instant(f.createdBefore.value))
  }

  /** `search_accounts(**kwargs)`: exactly the accounts that satisfy every
      supplied filter, newest first. */
  function SearchAccounts(accounts: map<int, Account>, f: AccountFilter): (r: seq<Account>)
    ensures multiset(r) == multiset(Filter(Rows(accounts), (a: Account) => Matches(f, a)))
    ensures NewestFirst(r, CreatedKey)
    ensures forall i :: 0 <= i < |r| ==> r[i] in accounts.Values && Matches(f, r[i])
    ensures forall id :: id in accounts && Matches(f, accounts[id]) ==> accounts[id] in r
  {
    OrderedRows(accounts, (a: Account) => Matches(f, a), CreatedKey)
  }

  /** With no filter, the search lists every account, as `get_all_accounts` does. */
  lemma SearchWithoutFilters(accounts: map<int, Account>)
    ensures SearchAccounts(accounts, NoFilter) == GetAllAccounts(accounts)
  {
    FilterSame(Rows(accounts), (a: Account) => Matches(NoFilter, a), (a: Account) => true);
  }

  // ----- field updates -----

  /** The columns `update_account` writes; other keys are ignored. */
  const EditableFields: seq<string> := ["owner_name", "email", "phone_number", "account_type"]

  /** A keyword argument of `update_account`; `None` is Python's `None`. */
  type Update = (string, Option<string>)

  /** The two editable columns declared `NOT NULL`. */
  predicate RequiredColumn(field: string)
  {
    field == "owner_name" || field == "account_type"
  }

  /** One `field = ?` assignment of the `UPDATE`, for an editable field. */
  function SetField(a: Account, u: Update): Account
  {
    if u.0 == "owner_name" && u.1.Some? then a.(ownerName := u.1.value)
    else if u.0 == "email" then a.(email := u.1)
    else if u.0 == "phone_number" then a.(phoneNumber := u.1)
    else if u.0 == "account_type" && u.1.Some? then a.(accountType := u.1.value)
    else a
  }

  /** The row after the `SET` list built from `updates`. Only the four
      editable columns can change: id, number, balance and both timestamps
      are kept. */
  function ApplyUpdates(a: Account, updates: seq<Update>): (r: Account)
    ensures r.id == a.id && r.number == a.number && r.balance == a.balance
    ensures r.createdAt == a.createdAt && r.updatedAt == a.updatedAt
  {
    if updates == [] then a else SetField(ApplyUpdates(a, updates[..|updates| - 1]), updates[|updates| - 1])
  }

  /** Some key of `updates` is an editable field. */
  predicate HasEditableField(updates: seq<Update>)
  {
    updates != [] && (HasEditableField(updates[..|updates| - 1]) || updates[|updates| - 1].0 in EditableFields)
  }

  /** Some key of `updates` sets a `NOT NULL` column to `None`. */
  predicate NullsRequiredColumn(updates: seq<Update>)
  {
    updates != [] && (NullsRequiredColumn(updates[..|updates| - 1])
                      || (RequiredColumn(updates[|updates| - 1].0) && updates[|updates| - 1].1.None?))
  }

  /** Keyword arguments name each field at most once. */
  predicate DistinctKeys(updates: seq<Update>)
  {
    forall i, j :: 0 <= i < j < |updates| ==> updates[i].0 != updates[j].0
  }

  /** Without an editable key the row is left as it was. */
  lemma {:induction false} NoEditableFieldNoChange(a: Account, updates: seq<Update>)
    requires !HasEditableField(updates)
    ensures ApplyUpdates(a, updates) == a
  {
    if updates != [] {
      NoEditableFieldNoChange(a, updates[..|updates| - 1]);
    }
  }

  /** Each editable key given takes the value given for it. */
  lemma {:induction false} ApplyUpdatesTakesValue(a: Account, updates: seq<Update>, k: int)
    requires DistinctKeys(updates) && 0 <= k < |updates|
    requires !NullsRequiredColumn(updates)
    ensures var r := ApplyUpdates(a, updates);
      && (updates[k].0 == "owner_name" ==> Some(r.ownerName) == updates[k].1)
      && (updates[k].0 == "email" ==> r.email == updates[k].1)
      && (updates[k].0 == "phone_number" ==> r.phoneNumber == updates[k].1)
      && (updates[k].0 == "account_type" ==> Some(r.accountType) == updates[k].1)
  {
    var n := |updates|;
    if k == n - 1 {
      assert !(RequiredColumn(updates[k].0) && updates[k].1.None?);
    } else {
      var init := updates[..n - 1];
      assert init[k] == updates[k];
      ApplyUpdatesTakesValue(a, init, k);
      assert updates[n - 1].0 != updates[k].0;
    }
  }

  // ----- total balance -----

  /** The sum of all balances. */
  ghost function BalanceSum(accounts: map<int, Account>): real
    decreases |accounts|
  {
    if |accounts| == 0 then 0.0
    else
      var id := AnyKeyOf(accounts);
      accounts[id].balance + BalanceSum(accounts - {id})
  }

  /** The sum can be split at any account. */
  lemma {:induction false} BalanceSumRemove(accounts: map<int, Account>, id: int)
    requires id in accounts
    ensures BalanceSum(accounts) == accounts[id].balance + BalanceSum(accounts - {id})
    decreases |accounts|
  {
    var first := AnyKeyOf(accounts);
    if first != id {
      assert (accounts - {first}) - {id} == (accounts - {id}) - {first};
      BalanceSumRemove(accounts - {first}, id);
      BalanceSumRemove(accounts - {id}, first);
    }
  }

  /** Replacing one account changes the sum by the change in its balance. */
  lemma BalanceSumUpdate(accounts: map<int, Account>, id: int, a: Account)
    requires id in accounts
    ensures BalanceSum(accounts[id := a]) == BalanceSum(accounts) - accounts[id].balance + a.balance
  {
    BalanceSumRemove(accounts, id);
    BalanceSumRemove(accounts[id := a], id);
    assert accounts[id := a] - {id} == accounts - {id};
  }

  // ----- summary -----

  /** One row of the per-type part of `get_account_summary`. */
  datatype TypeTotal = TypeTotal(txnType: TransactionType, count: nat, total: real)

  /** `COUNT(*)` and `SUM(remaining_amount)` over the active loans; the sum of
      no rows is SQL NULL. */
  datatype LoanTotals = LoanTotals(count: nat, totalRemaining: Option<real>)

  datatype AccountSummary = AccountSummary(
    account: Account,
    transactionSummary: seq<TypeTotal>,
    recentTransactions: seq<Transaction>,
    loanSummary: LoanTotals)

  /** The account's loans in status `active`; pending ones are not among them. */
  function ActiveLoans(loans: map<int, Loan>, accountId: int): map<int, Loan>
  {
    map l | l in loans && loans[l].accountId == accountId && loans[l].status == Active :: loans[l]
  }

  function RemainingSum(s: seq<Loan>): real
  {
    if s == [] then 0.0 else s[0].remainingAmount + RemainingSum(s[1..])
  }

  /** The remaining amounts of a table of loans added up, in no particular
      order. */
  ghost function RemainingTotal(loans: map<int, Loan>): real
    decreases |loans|
  {
    if |loans| == 0 then 0.0
    else
      var id := AnyKeyOf(loans);
      loans[id].remainingAmount + RemainingTotal(loans - {id})
  }

  /** The total can be split at any loan. */
  lemma {:induction false} RemainingTotalRemove(loans: map<int, Loan>, id: int)
    requires id in loans
    ensures RemainingTotal(loans) == loans[id].remainingAmount + RemainingTotal(loans - {id})
    decreases |loans|
  {
    var first := AnyKeyOf(loans);
    if first != id {
      assert (loans - {first}) - {id} == (loans - {id}) - {first};
      RemainingTotalRemove(loans - {first}, id);
      RemainingTotalRemove(loans - {id}, first);
    }
  }

  /** Summing the rows in key order gives the total. */
  lemma {:induction false} RowsRemainingTotal(loans: map<int, Loan>)
    ensures RemainingSum(Rows(loans)) == RemainingTotal(loans)
    decreases |loans|
  {
    if |loans| != 0 {
      var k := MinKey(loans.Keys);
      var rest := loans - {k};
      assert |rest| == |loans| - 1;
      RowsRemainingTotal(rest);
      RemainingTotalRemove(loans, k);
    }
  }

  /** `COUNT(*)` and `SUM(remaining_amount)` of the active loans: the sum is
      NULL exactly when there are none, and otherwise their total. */
  function LoanTotalsOf(active: map<int, Loan>): (r: LoanTotals)
    ensures r.count == |active|
    ensures r.totalRemaining.None? <==> |active| == 0
    ensures r.totalRemaining.Some? ==> r.totalRemaining.value == RemainingTotal(active)
  {
    RowsRemainingTotal(active);
    LoanTotals(|active|, if |active| == 0 then None else Some(RemainingSum(Rows(active))))
  }

  /** The account's transactions. */
  function History(transactions: seq<Transaction>, accountId: int): seq<Transaction>
  {
    Filter(transactions, (t: Transaction) => t.accountId == accountId)
  }

  /** The type, count and total of a statistics row. */
  function TotalOf(row: Journal.TypeStats): TypeTotal
  {
    TypeTotal(row.txnType, row.count, row.total)
  }

  /** The count and total of each statistics row. */
  function TotalsOfStats(stats: seq<Journal.TypeStats>): (totals: seq<TypeTotal>)
    ensures |totals| == |stats|
    ensures forall i :: 0 <= i < |totals| ==> totals[i] == TotalOf(stats[i])
  {
    seq(|stats|, i requires 0 <= i < |stats| => TotalOf(stats[i]))
  }

  lemma TotalsRowsCorrect(history: seq<Transaction>, totals: seq<TypeTotal>)
    requires totals == TotalsOfStats(Journal.StatsOver(history, TransactionTypes))
    ensures forall i :: 0 <= i < |totals| ==>
      totals[i].count == |Journal.OfType(history, totals[i].txnType)| > 0
      && totals[i].total == Journal.AmountSum(Journal.OfType(history, totals[i].txnType))
  {
    var stats := Journal.StatsOver(history, TransactionTypes);
    Journal.StatsOverRows(history, TransactionTypes);
    forall i | 0 <= i < |totals|
      ensures totals[i].count == |Journal.OfType(history, totals[i].txnType)| > 0
      ensures totals[i].total == Journal.AmountSum(Journal.OfType(history, totals[i].txnType))
    {
      Journal.GroupStatsBounds(history, stats[i].txnType);
    }
  }

  lemma TotalsDistinct(history: seq<Transaction>, totals: seq<TypeTotal>)
    requires totals == TotalsOfStats(Journal.StatsOver(history, TransactionTypes))
    ensures forall i, j :: 0 <= i < j < |totals| ==> totals[i].txnType != totals[j].txnType
  {
    Journal.TypesDistinct();
    Journal.StatsOverDistinct(history, TransactionTypes);
  }

  lemma TotalsComplete(history: seq<Transaction>)
    ensures forall t: TransactionType :: Journal.GroupStats(history, t).Some? ==>
      TotalOf(Journal.GroupStats(history, t).value) in TotalsOfStats(Journal.StatsOver(history, TransactionTypes))
  {
    var stats := Journal.StatsOver(history, TransactionTypes);
    Journal.TypesDistinct();
    Journal.StatsOverComplete(history, TransactionTypes);
    forall x | x in stats ensures TotalOf(x) in TotalsOfStats(stats) {
      var i :| 0 <= i < |stats| && stats[i] == x;
      assert TotalsOfStats(stats)[i] == TotalOf(x);
    }
  }

  /** The `GROUP BY transaction_type` part of `get_account_summary`: one row
      per type present in the history, with its count and total; no type
      twice, and no present type missing. */
  function TypeTotals(history: seq<Transaction>): (totals: seq<TypeTotal>)
    ensures forall i :: 0 <= i < |totals| ==>
      totals[i].count == |Journal.OfType(history, totals[i].txnType)| > 0
      && totals[i].total == Journal.AmountSum(Journal.OfType(history, totals[i].txnType))
    ensures forall i, j :: 0 <= i < j < |totals| ==> totals[i].txnType != totals[j].txnType
    ensures forall t: TransactionType :: Journal.GroupStats(history, t).Some? ==>
      TotalOf(Journal.GroupStats(history, t).value) in totals
  {
    var totals := TotalsOfStats(Journal.StatsOver(history, TransactionTypes));
    TotalsRowsCorrect(history, totals);
    TotalsDistinct(history, totals);
    TotalsComplete(history);
    totals
  }

  /** `get_account_summary`: fails for an unknown id. Otherwise: the
      account; per transaction type present in its history, the count and
      total; its ten newest transactions (the same page
      `get_account_transactions(id, 10)` gives); and the count and remaining
      sum of its active loans. */
  function GetAccountSummary(accounts: map<int, Account>, transactions: seq<Transaction>, loans: map<int, Loan>,
                             id: int): (r: Result<AccountSummary>)
    ensures r.Err? <==> id !in accounts
    ensures r.Err? ==> r.error == AccountNotFound(id)
    ensures r.Ok? ==> r.value.account == accounts[id]
    ensures r.Ok? ==> forall i :: 0 <= i < |r.value.transactionSummary| ==>
      var row := r.value.transactionSummary[i];
      row.count == |Journal.OfType(History(transactions, id), row.txnType)| > 0
      && row.total == Journal.AmountSum(Journal.OfType(History(transactions, id), row.txnType))
    ensures r.Ok? ==> forall i, j :: 0 <= i < j < |r.value.transactionSummary| ==>
      r.value.transactionSummary[i].txnType != r.value.transactionSummary[j].txnType
    ensures r.Ok? ==> forall t: TransactionType :: Journal.GroupStats(History(transactions, id), t).Some? ==>
      TotalOf(Journal.GroupStats(History(transactions, id), t).value) in r.value.transactionSummary
    ensures r.Ok? ==> r.value.recentTransactions == Journal.GetAccountTransactions(transactions, id, 10, 0, "")
    ensures r.Ok? ==> |r.value.recentTransactions| <= 10
    ensures r.Ok? ==> r.value.loanSummary == LoanTotalsOf(ActiveLoans(loans, id))
  {
    if id !in accounts then Err(AccountNotFound(id))
    else
      Ok(AccountSummary(accounts[id], TypeTotals(History(transactions, id)),
                        Journal.GetAccountTransactions(transactions, id, 10, 0, ""),
                        LoanTotalsOf(ActiveLoans(loans, id))))
  }

  /** A loan that is not active does not enter the loan summary: adding one
      leaves the summary as it was. */
  lemma InactiveLoanNotSummed(loans: map<int, Loan>, accountId: int, loan: Loan)
    requires loan.id !in loans && loan.status != Active
    ensures ActiveLoans(loans[loan.id := loan], accountId) == ActiveLoans(loans, accountId)
  {
    var before, after := ActiveLoans(loans, accountId), ActiveLoans(loans[loan.id := loan], accountId);
    assert forall l :: l in after <==> l in before;
  }

  /** A new active loan of the account is counted, and its remaining
      amount is added to the sum. */
  lemma ActiveLoanSummed(loans: map<int, Loan>, accountId: int, loan: Loan)
    requires loan.id !in loans && loan.status == Active && loan.accountId == accountId
    ensures LoanTotalsOf(ActiveLoans(loans[loan.id := loan], accountId)).count
         == LoanTotalsOf(ActiveLoans(loans, accountId)).count + 1
    ensures LoanTotalsOf(ActiveLoans(loans[loan.id := loan], accountId)).totalRemaining.Some?
    ensures LoanTotalsOf(ActiveLoans(loans[loan.id := loan], accountId)).totalRemaining.value
         == RemainingTotal(ActiveLoans(loans, accountId)) + loan.remainingAmount
  {
    ActiveLoansGrow(loans, accountId, loan);
    LoanTotalsInsert(ActiveLoans(loans, accountId), ActiveLoans(loans[loan.id := loan], accountId), loan);
  }

  lemma ActiveLoansGrow(loans: map<int, Loan>, accountId: int, loan: Loan)
    requires loan.id !in loans && loan.status == Active && loan.accountId == accountId
    ensures ActiveLoans(loans[loan.id := loan], accountId) == ActiveLoans(loans, accountId)[loan.id := loan]
    ensures loan.id !in ActiveLoans(loans, accountId)
  {
    var before, after := ActiveLoans(loans, accountId), ActiveLoans(loans[loan.id := loan], accountId);
    assert forall l :: l in after <==> l in before || l == loan.id;
  }

  lemma LoanTotalsInsert(before: map<int, Loan>, after: map<int, Loan>, loan: Loan)
    requires loan.id !in before && after == before[loan.id := loan]
    ensures LoanTotalsOf(after).count == LoanTotalsOf(before).count + 1
    ensures LoanTotalsOf(after).totalRemaining.Some?
    ensures LoanTotalsOf(after).totalRemaining.value == RemainingTotal(before) + loan.remainingAmount
  {
    RemainingTotalInsert(before, loan);
    var totals := LoanTotalsOf(after);
    assert totals.count == |after| == |before| + 1;
    var sum := RemainingTotal(after);
    assert sum == RemainingTotal(before) + loan.remainingAmount;
    assert totals.totalRemaining == Some(sum);
  }

  lemma RemainingTotalInsert(active: map<int, Loan>, loan: Loan)
    requires loan.id !in active
    ensures RemainingTotal(active[loan.id := loan]) == RemainingTotal(active) + loan.remainingAmount
    ensures |active[loan.id := loan]| == |active| + 1
  {
    assert active[loan.id := loan] - {loan.id} == active;
    RemainingTotalRemove(active[loan.id := loan], loan.id);
  }

  // ----- the manager -----

  /** An `id` with a loan on it that `close_account` counts: pending or active. */
  predicate HasOpenLoan(loans: map<int, Loan>, accountId: int)
  {
    exists l :: l in loans && loans[l].accountId == accountId && (loans[l].status == Pending || loans[l].status == Active)
  }

  class AccountManager {
    const db: Database

    constructor (db: Database)
      ensures this.db == db
    {
      this.db := db;
    }

    /** `create_account`: the checks in source order (owner name given, type
        listed, balance not negative), then an insert that fails when the
        generated number is already taken (`UNIQUE`). The new row has the next
        id, the initial balance, and `created_at == updated_at == now`. */
    method CreateAccount(ownerName: string, accountType: string, email: Option<string>, phoneNumber: Option<string>,
                         initialBalance: real, unixTime: int, now: DateTime) returns (r: Result<Account>)
      requires db.Valid()
      modifies db`accounts, db`nextAccountId
      ensures db.Valid()
      ensures ownerName == "" ==> r == Err(MissingOwnerName)
      ensures ownerName != "" && accountType !in AccountTypes ==> r == Err(InvalidAccountType)
      ensures ownerName != "" && accountType in AccountTypes && initialBalance < 0.0 ==> r == Err(NegativeBalance)
      ensures ownerName != "" && accountType in AccountTypes && initialBalance >= 0.0 ==>
        (r.Err? <==> GetAccountByNumber(old(db.accounts), GenerateAccountNumber(unixTime)).Some?)
      ensures r.Err? ==> r.error == DuplicateAccountNumber || ownerName == "" || accountType !in AccountTypes || initialBalance < 0.0
      ensures r.Err? ==> db.accounts == old(db.accounts) && db.nextAccountId == old(db.nextAccountId)
      ensures r.Ok? ==>
        && r.value == Account(old(db.nextAccountId), GenerateAccountNumber(unixTime), ownerName, accountType,
                              email, phoneNumber, initialBalance, now, now)
        && db.accounts == old(db.accounts)[r.value.id := r.value]
        && db.nextAccountId == old(db.nextAccountId) + 1
    {
      if ownerName == "" {
        return Err(MissingOwnerName);
      }
      if accountType !in AccountTypes {
        return Err(InvalidAccountType);
      }
      if initialBalance < 0.0 {
        return Err(NegativeBalance);
      }
      var number := GenerateAccountNumber(unixTime);
      var holder := GetAccountByNumber(db.accounts, number);
      if holder.Some? {
        return Err(DuplicateAccountNumber);
      }
      var account := Account(db.nextAccountId, number, ownerName, accountType, email, phoneNumber,
                             initialBalance, now, now);
      db.InsertAccount(account);
      r := Ok(account);
    }

    /** `update_account(account_id, **kwargs)`: fails for an unknown id;
        returns the row untouched when no key is editable; otherwise applies
        the editable keys and stamps `updated_at`. Setting a `NOT NULL`
        column to `None` makes the `UPDATE` fail and changes nothing. */
    method UpdateAccount(id: int, updates: seq<Update>, now: DateTime) returns (r: Result<Account>)
      requires db.Valid() && DistinctKeys(updates)
      modifies db`accounts
      ensures db.Valid()
      ensures id !in old(db.accounts) ==> r == Err(AccountNotFound(id))
      ensures id in old(db.accounts) && !HasEditableField(updates) ==> r == Ok(old(db.accounts)[id])
      ensures id in old(db.accounts) && HasEditableField(updates) && NullsRequiredColumn(updates) ==>
        r == Err(NotNullViolation)
      ensures r.Err? || !HasEditableField(updates) ==> db.accounts == old(db.accounts)
      ensures id in old(db.accounts) && HasEditableField(updates) && !NullsRequiredColumn(updates) ==>
        && r == Ok(ApplyUpdates(old(db.accounts)[id], updates).(updatedAt := now))
        && db.accounts == old(db.accounts)[id := r.value]
    {
      if id !in db.accounts {
        return Err(AccountNotFound(id));
      }
      var account := db.accounts[id];
      var edited, editable, nulls := account, false, false;
      var i := 0;
      while i < |updates|
        invariant 0 <= i <= |updates|
        invariant edited == ApplyUpdates(account, updates[..i])
        invariant editable == HasEditableField(updates[..i])
        invariant nulls == NullsRequiredColumn(updates[..i])
      {
        var (field, value) := updates[i];
        if field in EditableFields {
          editable := true;
        }
        if RequiredColumn(field) && value.None? {
          nulls := true;
        }
        edited := SetField(edited, updates[i]);
        assert updates[..i + 1][..i] == updates[..i];
        i := i + 1;
      }
      assert updates[..i] == updates;
      if !editable {
        return Ok(account);
      }
      if nulls {
        return Err(NotNullViolation);
      }
      edited := edited.(updatedAt := now);
      db.accounts := db.accounts[id := edited];
      r := Ok(edited);
    }

    /** `update_balance`: the negative check comes before the existence
        check; on success only the balance and `updated_at` change. */
    method UpdateBalance(id: int, newBalance: real, now: DateTime) returns (r: Result<Account>)
      requires db.Valid()
      modifies db`accounts
      ensures db.Valid()
      ensures newBalance < 0.0 ==> r == Err(NegativeBalance)
      ensures newBalance >= 0.0 && id !in old(db.accounts) ==> r == Err(AccountNotFound(id))
      ensures r.Err? ==> db.accounts == old(db.accounts)
      ensures newBalance >= 0.0 && id in old(db.accounts) ==>
        && r == Ok(old(db.accounts)[id].(balance := newBalance, updatedAt := now))
        && db.accounts == old(db.accounts)[id := r.value]
    {
      if newBalance < 0.0 {
        return Err(NegativeBalance);
      }
      if id !in db.accounts {
        return Err(AccountNotFound(id));
      }
      var updated := db.accounts[id].(balance := newBalance, updatedAt := now);
      db.accounts := db.accounts[id := updated];
      r := Ok(updated);
    }

    /** `close_account`: the account must exist, hold exactly zero, and have
        no pending or active loan. Deleting it deletes its transactions and
        loans too (`ON DELETE CASCADE`). */
    method CloseAccount(id: int) returns (r: Result<bool>)
      requires db.Valid()
      modifies db`accounts, db`transactions, db`loans
      ensures db.Valid()
      ensures id !in old(db.accounts) ==> r == Err(AccountNotFound(id))
      ensures id in old(db.accounts) && old(db.accounts)[id].balance != 0.0 ==> r == Err(NonZeroBalance)
      ensures id in old(db.accounts) && old(db.accounts)[id].balance == 0.0 && HasOpenLoan(old(db.loans), id) ==>
        r == Err(HasOpenLoans)
      ensures r.Err? ==> db.accounts == old(db.accounts) && db.transactions == old(db.transactions) && db.loans == old(db.loans)
      ensures r.Ok? <==> id in old(db.accounts) && old(db.accounts)[id].balance == 0.0 && !HasOpenLoan(old(db.loans), id)
      ensures r.Ok? ==>
        && db.accounts == old(db.accounts) - {id}
        && db.transactions == TransactionsWithout(old(db.transactions), id)
        && db.loans == LoansWithout(old(db.loans), id)
    {
      if id !in db.accounts {
        return Err(AccountNotFound(id));
      }
      if db.accounts[id].balance != 0.0 {
        return Err(NonZeroBalance);
      }
      if exists l :: l in db.loans && db.loans[l].accountId == id && (db.loans[l].status == Pending || db.loans[l].status == Active) {
        return Err(HasOpenLoans);
      }
      db.DeleteAccount(id);
      r := Ok(true);
    }
  }
}
