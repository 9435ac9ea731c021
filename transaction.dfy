/** Money movement of src/transaction.py: `TransactionManager` with
    `deposit`, `withdraw`, `transfer` and `record_transaction`, which rewrite
    balances through `AccountManager.update_balance` and append to the
    journal. The read side is module `Journal`. */
module Transactions {
  import opened Wrappers
  import opened Calendar
  import opened Schema
  import opened Store
  import opened Accounts
  import opened Journal
  import Text

  /** What `deposit` and `withdraw` return. */
  datatype Receipt = Receipt(transactionId: int, accountId: int, txnType: TransactionType, amount: real,
                             newBalance: real, timestamp: DateTime)

  /** What `transfer` returns. */
  datatype TransferReceipt = TransferReceipt(outgoingId: int, incomingId: int, fromAccountId: int, toAccountId: int,
                                             amount: real, fromNewBalance: real, toNewBalance: real,
                                             timestamp: DateTime)

  /** The descriptions `transfer` gives its two records when the caller gives none. */
  function TransferOutDescription(toAccountId: int): string
  {
    "Transfer to account " + Text.IntToString(toAccountId)
  }

  function TransferInDescription(fromAccountId: int): string
  {
    "Transfer from account " + Text.IntToString(fromAccountId)
  }

  /** The accounts table after `transfer`'s two `update_balance` calls. */
  function MoveFunds(accounts: map<int, Account>, from: int, to: int, amount: real, now: DateTime): map<int, Account>
    requires from in accounts && to in accounts
  {
    accounts[from := accounts[from].(balance := accounts[from].balance - amount, updatedAt := now)]
            [to := accounts[to].(balance := accounts[to].balance + amount, updatedAt := now)]
  }

  /** A transfer between two different accounts moves money and creates
      none: the source loses the amount, the destination gains it, their sum
      and the sum over all accounts are unchanged, and no other account
      changes. */
  lemma TransferConservesTotal(accounts: map<int, Account>, from: int, to: int, amount: real, now: DateTime)
    requires from in accounts && to in accounts && from != to
    ensures var moved := MoveFunds(accounts, from, to, amount, now);
      && moved.Keys == accounts.Keys
      && moved[from].balance == accounts[from].balance - amount
      && moved[to].balance == accounts[to].balance + amount
      && (forall id :: id in accounts && id != from && id != to ==> moved[id] == accounts[id])
      && BalanceSum(moved) == BalanceSum(accounts)
  {
    var first := accounts[from := accounts[from].(balance := accounts[from].balance - amount, updatedAt := now)];
    BalanceSumUpdate(accounts, from, first[from]);
    BalanceSumUpdate(first, to, accounts[to].(balance := accounts[to].balance + amount, updatedAt := now));
  }

  /** Debiting the source and then crediting the destination, each from
      its balance at that moment, is `MoveFunds`, and keeps the total. */
  lemma TwoUpdatesMoveFunds(before: map<int, Account>, between: map<int, Account>, after: map<int, Account>,
                            from: int, to: int, amount: real, now: DateTime)
    requires from in before && to in before && from != to
    requires between == before[from := before[from].(balance := before[from].balance - amount, updatedAt := now)]
    requires after == between[to := between[to].(balance := between[to].balance + amount, updatedAt := now)]
    ensures after == MoveFunds(before, from, to, amount, now)
    ensures BalanceSum(after) == BalanceSum(before)
  {
    TransferConservesTotal(before, from, to, amount, now);
  }

  class TransactionManager {
    const db: Database
    const accountManager: AccountManager

    constructor (db: Database)
      ensures this.db == db && accountManager.db == db
    {
      this.db := db;
      accountManager := new AccountManager(db);
    }

    /** `record_transaction`: rejects a type outside the six; the insert
        fails when the account does not exist (foreign key). Otherwise one row
        is appended under the next id, with the default description when the
        caller gives none. The amount is not checked here. */
    method RecordTransaction(accountId: int, typeName: string, amount: real, description: string,
                             relatedAccountId: Option<int>, now: DateTime) returns (r: Result<int>)
      requires db.Valid()
      modifies db`transactions, db`nextTransactionId
      ensures db.Valid()
      ensures ParseTransactionType(typeName).None? ==> r == Err(InvalidTransactionType)
      ensures ParseTransactionType(typeName).Some? && accountId !in db.accounts ==> r == Err(ForeignKeyViolation)
      ensures r.Ok? <==> ParseTransactionType(typeName).Some? && accountId in db.accounts
      ensures r.Err? ==> db.transactions == old(db.transactions) && db.nextTransactionId == old(db.nextTransactionId)
      ensures r.Ok? ==>
        var t := ParseTransactionType(typeName).value;
        && accountId in db.accounts
        && r.value == old(db.nextTransactionId)
        && db.transactions == old(db.transactions)
             + [Transaction(r.value, accountId, t, amount, StoredDescription(description, t), relatedAccountId, now)]
        && db.nextTransactionId == old(db.nextTransactionId) + 1
    {
      var parsed := ParseTransactionType(typeName);
      if parsed.None? {
        return Err(InvalidTransactionType);
      }
      if accountId !in db.accounts {
        return Err(ForeignKeyViolation);
      }
      var t := parsed.value;
      var row := Transaction(db.nextTransactionId, accountId, t, amount, StoredDescription(description, t),
                             relatedAccountId, now);
      AppendKeepsJournal(db.transactions, db.accounts, db.nextTransactionId, row);
      db.transactions := db.transactions + [row];
      db.nextTransactionId := db.nextTransactionId + 1;
      r := Ok(row.id);
    }

    /** `deposit`: a positive amount to an existing account. The balance
        grows by the amount, then one `deposit` row is appended ("Deposit"
        unless a description is given). */
    method Deposit(accountId: int, amount: real, description: string, now: DateTime) returns (r: Result<Receipt>)
      requires db.Valid() && accountManager.db == db
      modifies db`accounts, db`transactions, db`nextTransactionId
      ensures db.Valid()
      ensures amount <= 0.0 ==> r == Err(NonPositiveAmount)
      ensures amount > 0.0 && accountId !in old(db.accounts) ==> r == Err(AccountNotFound(accountId))
      ensures amount > 0.0 && accountId in old(db.accounts) ==> r.Ok?
      ensures r.Err? ==> db.accounts == old(db.accounts) && db.transactions == old(db.transactions)
                         && db.nextTransactionId == old(db.nextTransactionId)
      ensures r.Ok? ==>
        var before := old(db.accounts)[accountId];
        && amount > 0.0 && accountId in old(db.accounts)
        && db.accounts == old(db.accounts)[accountId := before.(balance := before.balance + amount, updatedAt := now)]
        && db.transactions == old(db.transactions)
             + [Transaction(old(db.nextTransactionId), accountId, TransactionType.Deposit, amount,
                            if description != "" then description else "Deposit", None, now)]
        && r.value == Receipt(old(db.nextTransactionId), accountId, TransactionType.Deposit, amount, before.balance + amount, now)
    {
      if amount <= 0.0 {
        return Err(NonPositiveAmount);
      }
      if accountId !in db.accounts {
        return Err(AccountNotFound(accountId));
      }
      var newBalance := db.accounts[accountId].balance + amount;
      assert newBalance >= 0.0;
      var updated := accountManager.UpdateBalance(accountId, newBalance, now);
      assert ParseTransactionType("deposit") == Some(TransactionType.Deposit);
      var recorded := RecordTransaction(accountId, "deposit", amount,
                                        if description != "" then description else "Deposit", None, now);
      assert recorded.Ok?;
      r := Ok(Receipt(recorded.value, accountId, TransactionType.Deposit, amount, newBalance, now));
    }

    /** `withdraw`: a positive amount from an existing account holding at
        least that much, so the balance never goes negative; withdrawing the
        whole balance leaves zero. */
    method Withdraw(accountId: int, amount: real, description: string, now: DateTime) returns (r: Result<Receipt>)
      requires db.Valid() && accountManager.db == db
      modifies db`accounts, db`transactions, db`nextTransactionId
      ensures db.Valid()
      ensures amount <= 0.0 ==> r == Err(NonPositiveAmount)
      ensures amount > 0.0 && accountId !in old(db.accounts) ==> r == Err(AccountNotFound(accountId))
      ensures amount > 0.0 && accountId in old(db.accounts) && old(db.accounts)[accountId].balance < amount ==>
        r == Err(InsufficientFunds)
      ensures amount > 0.0 && accountId in old(db.accounts) && old(db.accounts)[accountId].balance >= amount ==> r.Ok?
      ensures r.Err? ==> db.accounts == old(db.accounts) && db.transactions == old(db.transactions)
                         && db.nextTransactionId == old(db.nextTransactionId)
      ensures r.Ok? ==>
        var before := old(db.accounts)[accountId];
        && amount > 0.0 && accountId in old(db.accounts) && before.balance >= amount
        && db.accounts == old(db.accounts)[accountId := before.(balance := before.balance - amount, updatedAt := now)]
        && db.transactions == old(db.transactions)
             + [Transaction(old(db.nextTransactionId), accountId, TransactionType.Withdrawal, amount,
                            if description != "" then description else "Withdrawal", None, now)]
        && r.value == Receipt(old(db.nextTransactionId), accountId, TransactionType.Withdrawal, amount, before.balance - amount, now)
    {
      if amount <= 0.0 {
        return Err(NonPositiveAmount);
      }
      if accountId !in db.accounts {
        return Err(AccountNotFound(accountId));
      }
      if db.accounts[accountId].balance < amount {
        return Err(InsufficientFunds);
      }
      var newBalance := db.accounts[accountId].balance - amount;
      var updated := accountManager.UpdateBalance(accountId, newBalance, now);
      assert ParseTransactionType("withdrawal") == Some(TransactionType.Withdrawal);
      var recorded := RecordTransaction(accountId, "withdrawal", amount,
                                        if description != "" then description else "Withdrawal", None, now);
      assert recorded.Ok?;
      r := Ok(Receipt(recorded.value, accountId, TransactionType.Withdrawal, amount, newBalance, now));
    }

    /** The two `update_balance` calls of `transfer`. */
    method MoveBalances(from: int, to: int, amount: real, now: DateTime)
      requires db.Valid() && accountManager.db == db
      requires from != to && from in db.accounts && to in db.accounts && db.accounts[from].balance >= amount
      requires amount > 0.0
      modifies db`accounts
      ensures db.Valid()
      ensures db.accounts == MoveFunds(old(db.accounts), from, to, amount, now)
      ensures BalanceSum(db.accounts) == BalanceSum(old(db.accounts))
    {
      ghost var before := db.accounts;
      var debited := accountManager.UpdateBalance(from, db.accounts[from].balance - amount, now);
      ghost var between := db.accounts;
      var credited := accountManager.UpdateBalance(to, db.accounts[to].balance + amount, now);
      TwoUpdatesMoveFunds(before, between, db.accounts, from, to, amount, now);
    }

    /** The two `record_transaction` calls of `transfer`. */
    method RecordTransfer(from: int, to: int, amount: real, outDescription: string, inDescription: string,
                          now: DateTime) returns (outgoing: int, incoming: int)
      requires db.Valid()
      requires from in db.accounts && to in db.accounts
      requires outDescription != "" && inDescription != ""
      modifies db`transactions, db`nextTransactionId
      ensures db.Valid()
      ensures outgoing == old(db.nextTransactionId) && incoming == outgoing + 1
      ensures db.nextTransactionId == old(db.nextTransactionId) + 2
      ensures db.transactions == old(db.transactions)
        + [Transaction(outgoing, from, TransferOut, amount, outDescription, Some(to), now),
           Transaction(incoming, to, TransferIn, amount, inDescription, Some(from), now)]
    {
      ghost var journal := db.transactions;
      assert ParseTransactionType("transfer_out") == Some(TransferOut);
      var outResult := RecordTransaction(from, "transfer_out", amount, outDescription, Some(to), now);
      ghost var outRow := Transaction(outResult.value, from, TransferOut, amount, outDescription, Some(to), now);
      assert ParseTransactionType("transfer_in") == Some(TransferIn);
      var inResult := RecordTransaction(to, "transfer_in", amount, inDescription, Some(from), now);
      ghost var inRow := Transaction(inResult.value, to, TransferIn, amount, inDescription, Some(from), now);
      assert journal + [outRow] + [inRow] == journal + [outRow, inRow];
      outgoing, incoming := outResult.value, inResult.value;
    }

    /** The writes of `transfer` once its checks pass: both balances, then
        both journal rows. */
    method CarryOut(from: int, to: int, amount: real, description: string, now: DateTime)
      returns (receipt: TransferReceipt)
      requires db.Valid() && accountManager.db == db
      requires from != to && from in db.accounts && to in db.accounts && db.accounts[from].balance >= amount
      requires amount > 0.0
      modifies db`accounts, db`transactions, db`nextTransactionId
      ensures db.Valid()
      ensures db.accounts == MoveFunds(old(db.accounts), from, to, amount, now)
      ensures BalanceSum(db.accounts) == BalanceSum(old(db.accounts))
      ensures db.transactions == old(db.transactions)
        + [Transaction(old(db.nextTransactionId), from, TransferOut, amount,
                       if description != "" then description else TransferOutDescription(to), Some(to), now),
           Transaction(old(db.nextTransactionId) + 1, to, TransferIn, amount,
                       if description != "" then description else TransferInDescription(from), Some(from), now)]
      ensures receipt == TransferReceipt(old(db.nextTransactionId), old(db.nextTransactionId) + 1, from, to, amount,
                                         old(db.accounts)[from].balance - amount, old(db.accounts)[to].balance + amount, now)
    {
      var newFrom := db.accounts[from].balance - amount;
      var newTo := db.accounts[to].balance + amount;
      var outDescription := if description != "" then description else TransferOutDescription(to);
      var inDescription := if description != "" then description else TransferInDescription(from);
      MoveBalances(from, to, amount, now);
      var outgoing, incoming := RecordTransfer(from, to, amount, outDescription, inDescription, now);
      receipt := TransferReceipt(outgoing, incoming, from, to, amount, newFrom, newTo, now);
    }

    /** `transfer`: the checks in source order (positive amount, two
        different accounts, source exists, destination exists, enough funds),
        all before any write. Then the source is debited, the destination
        credited, and a `transfer_out` row on the source and a `transfer_in`
        row on the destination are appended, each naming the other account. */
    method Transfer(from: int, to: int, amount: real, description: string, now: DateTime)
      returns (r: Result<TransferReceipt>)
      requires db.Valid() && accountManager.db == db
      modifies db`accounts, db`transactions, db`nextTransactionId
      ensures db.Valid()
      ensures amount <= 0.0 ==> r == Err(NonPositiveAmount)
      ensures amount > 0.0 && from == to ==> r == Err(SameAccount)
      ensures amount > 0.0 && from != to && from !in old(db.accounts) ==> r == Err(AccountNotFound(from))
      ensures amount > 0.0 && from != to && from in old(db.accounts) && to !in old(db.accounts) ==>
        r == Err(AccountNotFound(to))
      ensures (amount > 0.0 && from != to && from in old(db.accounts) && to in old(db.accounts) &&
               old(db.accounts)[from].balance < amount) ==> r == Err(InsufficientFunds)
      ensures (amount > 0.0 && from != to && from in old(db.accounts) && to in old(db.accounts) &&
               old(db.accounts)[from].balance >= amount) ==> r.Ok?
      ensures r.Err? ==> db.accounts == old(db.accounts) && db.transactions == old(db.transactions)
                         && db.nextTransactionId == old(db.nextTransactionId)
      ensures r.Ok? ==>
        var n := old(db.nextTransactionId);
        && from != to && from in old(db.accounts) && to in old(db.accounts)
        && db.accounts == MoveFunds(old(db.accounts), from, to, amount, now)
        && BalanceSum(db.accounts) == BalanceSum(old(db.accounts))
        && db.transactions == old(db.transactions)
             + [Transaction(n, from, TransferOut, amount,
                            if description != "" then description else TransferOutDescription(to), Some(to), now),
                Transaction(n + 1, to, TransferIn, amount,
                            if description != "" then description else TransferInDescription(from), Some(from), now)]
        && r.value == TransferReceipt(n, n + 1, from, to, amount, old(db.accounts)[from].balance - amount,
                                      old(db.accounts)[to].balance + amount, now)
    {
      if amount <= 0.0 {
        return Err(NonPositiveAmount);
      }
      if from == to {
        return Err(SameAccount);
      }
      if from !in db.accounts {
        return Err(AccountNotFound(from));
      }
      if to !in db.accounts {
        return Err(AccountNotFound(to));
      }
      if db.accounts[from].balance < amount {
        return Err(InsufficientFunds);
      }
      var receipt := CarryOut(from, to, amount, description, now);
      r := Ok(receipt);
    }
  }
}
