/** The shared store (src/database.py): the four tables with the constraints
    the schema declares, the id counters behind `AUTOINCREMENT`, the
    account-number generator, and the connection protocol of
    `execute_query` / `begin_transaction` / `commit_transaction` /
    `rollback_transaction`.

    The manager classes change the tables through the fields directly; the
    connection protocol is modelled on its own, with what the SQLite engine did
    for one statement passed in as an `EngineAnswer`. */
module Store {
  import opened Wrappers
  import opened Calendar
  import opened Schema
  import opened Listing
  import Text

  // ----- account numbers -----

  /** `10^7`: the account number keeps the Unix time modulo this. */
  const NumberModulus: int := 10000000

  /** `generate_account_number`: "1000" followed by the Unix time modulo 10^7,
      zero-padded to seven digits. The number is eleven digits long, and the
      digits after the prefix read back as the time modulo 10^7. Python's `%`
      floors, which for the positive modulus agrees with Dafny's. */
  function GenerateAccountNumber(unixTime: int): (number: string)
    ensures |number| == 11 && Text.AllDigits(number) && number[..4] == "1000"
    ensures Text.DigitsValue(number[4..]) == unixTime % NumberModulus
  {
    var suffix := unixTime % NumberModulus;
    assert Text.Pow10(7) == NumberModulus;
    Text.NatToStringShort(suffix, 7);
    Text.ZeroPadValue(suffix, 7);
    var number := "1000" + Text.ZeroPad(suffix, 7);
    assert number[4..] == Text.ZeroPad(suffix, 7);
    number
  }

  /** Two creation times give the same account number exactly when they agree
      modulo 10^7 seconds, so numbers are not unique: two accounts created in
      the same second, or 10^7 seconds (about 116 days) apart, collide. */
  lemma AccountNumberCollision(t1: int, t2: int)
    ensures GenerateAccountNumber(t1) == GenerateAccountNumber(t2) <==> t1 % NumberModulus == t2 % NumberModulus
  {
    var n1, n2 := GenerateAccountNumber(t1), GenerateAccountNumber(t2);
    if n1 == n2 {
      assert n1[4..] == n2[4..];
    }
  }

  // ----- table constraints -----

  /** The accounts table: keyed by its id, ids below the AUTOINCREMENT
      counter, balances never negative, and `account_number UNIQUE`. */
  ghost predicate AccountsValid(accounts: map<int, Account>, nextId: int)
  {
    && 1 <= nextId
    && (forall id :: id in accounts ==>
          accounts[id].id == id && 1 <= id < nextId && accounts[id].balance >= 0.0)
    && (forall i, j :: i in accounts && j in accounts && accounts[i].number == accounts[j].number ==> i == j)
  }

  /** The transactions table: every row belongs to an existing account
      (foreign key), ids below the counter and increasing in insertion order. */
  ghost predicate JournalValid(transactions: seq<Transaction>, accounts: map<int, Account>, nextId: int)
  {
    && 1 <= nextId
    && (forall k :: 0 <= k < |transactions| ==>
          transactions[k].accountId in accounts && 1 <= transactions[k].id < nextId)
    && (forall k, l :: 0 <= k < l < |transactions| ==> transactions[k].id < transactions[l].id)
  }

  /** What `apply_for_loan` validates, kept by every later update: a positive
      principal, a rate in 0..100, a positive term, and a remaining amount
      between zero and the principal. */
  ghost predicate LoanTermsValid(loan: Loan)
  {
    && loan.loanAmount > 0.0
    && 0.0 <= loan.interestRate <= 100.0
    && loan.termMonths > 0
    && 0.0 <= loan.remainingAmount <= loan.loanAmount
  }

  ghost predicate LoansValid(loans: map<int, Loan>, accounts: map<int, Account>, nextId: int)
  {
    1 <= nextId && forall id :: id in loans ==>
      loans[id].id == id && 1 <= id < nextId && loans[id].accountId in accounts && LoanTermsValid(loans[id])
  }

  ghost predicate BugsValid(bugs: map<int, Bug>, nextId: int)
  {
    1 <= nextId && forall id :: id in bugs ==> bugs[id].id == id && 1 <= id < nextId
  }

  /** Inserting an account under the next id, with a balance that is not
      negative and a number no other account has, keeps the constraints. */
  lemma InsertAccountKeepsConstraints(accounts: map<int, Account>, nextId: int, a: Account)
    requires AccountsValid(accounts, nextId)
    requires a.id == nextId && a.balance >= 0.0
    requires forall id :: id in accounts ==> accounts[id].number != a.number
    ensures AccountsValid(accounts[a.id := a], nextId + 1)
  {
  }

  /** Appending a row with the next id, for an existing account, keeps the
      journal's constraints. */
  lemma AppendKeepsJournal(transactions: seq<Transaction>, accounts: map<int, Account>, nextId: int, t: Transaction)
    requires JournalValid(transactions, accounts, nextId)
    requires t.id == nextId && t.accountId in accounts
    ensures JournalValid(transactions + [t], accounts, nextId + 1)
  {
  }

  /** Rows that refer to accounts stay valid when accounts are only added or replaced. */
  lemma ReferencesSurviveGrowth(transactions: seq<Transaction>, loans: map<int, Loan>,
                                accounts: map<int, Account>, grown: map<int, Account>, nextTxn: int, nextLoan: int)
    requires accounts.Keys <= grown.Keys
    requires JournalValid(transactions, accounts, nextTxn) && LoansValid(loans, accounts, nextLoan)
    ensures JournalValid(transactions, grown, nextTxn) && LoansValid(loans, grown, nextLoan)
  {
  }

  /** The transactions left after `ON DELETE CASCADE` removes an account. */
  function TransactionsWithout(transactions: seq<Transaction>, accountId: int): seq<Transaction>
  {
    Filter(transactions, (t: Transaction) => t.accountId != accountId)
  }

  /** The loans left after `ON DELETE CASCADE` removes an account. */
  function LoansWithout(loans: map<int, Loan>, accountId: int): map<int, Loan>
  {
    map l | l in loans && loans[l].accountId != accountId :: loans[l]
  }

  /** Deleting an account with its cascade keeps every table constraint. */
  lemma CascadeKeepsConstraints(accounts: map<int, Account>, transactions: seq<Transaction>, loans: map<int, Loan>,
                                nextAccount: int, nextTxn: int, nextLoan: int, id: int)
    requires AccountsValid(accounts, nextAccount)
    requires JournalValid(transactions, accounts, nextTxn) && LoansValid(loans, accounts, nextLoan)
    ensures AccountsValid(accounts - {id}, nextAccount)
    ensures JournalValid(TransactionsWithout(transactions, id), accounts - {id}, nextTxn)
    ensures LoansValid(LoansWithout(loans, id), accounts - {id}, nextLoan)
  {
    var kept := TransactionsWithout(transactions, id);
    FilterIncreasing(transactions, (t: Transaction) => t.accountId != id, (t: Transaction) => t.id);
    forall k | 0 <= k < |kept| ensures kept[k].accountId in accounts - {id} && 1 <= kept[k].id < nextTxn {
      var j :| 0 <= j < |transactions| && transactions[j] == kept[k];
    }
  }

  // ----- the connection protocol -----

  datatype SqlValue = Null | Integer(i: int) | Float(r: real) | Text(s: string)

  type Row = seq<SqlValue>

  /** What the SQLite engine did with one `cursor.execute`: it raised, or it
      ran, yielding the selected rows, `lastrowid` and `rowcount`. */
  datatype EngineAnswer = Raised | Ran(rows: seq<Row>, lastRowId: int, rowCount: int)

  /** What `execute_query` returns; `QueryFailed` stands for the exception it re-raises. */
  datatype QueryResult = FetchedOne(row: Option<Row>) | FetchedAll(rows: seq<Row>)
                       | InsertedId(id: int) | AffectedRows(count: int) | QueryFailed

  /** An open sqlite3 connection: which one it is, and the statements it has
      executed but not committed. */
  datatype Connection = Connection(serial: nat, uncommitted: seq<string>)

  /** `query.strip().upper().startswith('INSERT')`. */
  predicate IsInsert(query: string)
  {
    "INSERT" <= Text.ToUpper(Text.Strip(query))
  }

  /** The index of the first statement the engine rejected, or the number of
      statements when it ran them all. */
  function FirstFailure(answers: seq<EngineAnswer>): (k: nat)
    ensures k <= |answers|
    ensures forall i :: 0 <= i < k ==> answers[i].Ran?
    ensures k < |answers| ==> answers[k].Raised?
  {
    if answers == [] || answers[0].Raised? then 0 else 1 + FirstFailure(answers[1..])
  }

  class Database {
    var accounts: map<int, Account>
    var transactions: seq<Transaction>
    var loans: map<int, Loan>
    var bugs: map<int, Bug>
    // the next rowid each AUTOINCREMENT key hands out; ids are never reused
    var nextAccountId: int
    var nextTransactionId: int
    var nextLoanId: int
    var nextBugId: int
    // `self.conn`, the statements made durable so far, and how many connections were opened
    var conn: Option<Connection>
    var committed: seq<string>
    var connectionsOpened: nat

    ghost predicate Valid()
      reads this
    {
      && AccountsValid(accounts, nextAccountId)
      && JournalValid(transactions, accounts, nextTransactionId)
      && LoansValid(loans, accounts, nextLoanId)
      && BugsValid(bugs, nextBugId)
    }

    /** `Database()` after `initialize_database`: empty tables, and no open connection. */
    constructor ()
      ensures Valid()
      ensures accounts == map[] && transactions == [] && loans == map[] && bugs == map[]
      ensures nextAccountId == 1 && nextTransactionId == 1 && nextLoanId == 1 && nextBugId == 1
      ensures conn == None && committed == [] && connectionsOpened == 0
    {
      accounts, transactions, loans, bugs := map[], [], map[], map[];
      nextAccountId, nextTransactionId, nextLoanId, nextBugId := 1, 1, 1, 1;
      conn, committed, connectionsOpened := None, [], 0;
    }

    /** `INSERT INTO accounts`: the row takes the next AUTOINCREMENT id;
        its balance is not negative and its number is not taken. */
    method InsertAccount(a: Account)
      requires Valid()
      requires a.id == nextAccountId && a.balance >= 0.0
      requires forall id :: id in accounts ==> accounts[id].number != a.number
      modifies this`accounts, this`nextAccountId
      ensures Valid()
      ensures accounts == old(accounts)[a.id := a]
      ensures nextAccountId == old(nextAccountId) + 1
    {
      InsertAccountKeepsConstraints(accounts, nextAccountId, a);
      ReferencesSurviveGrowth(transactions, loans, accounts, accounts[a.id := a], nextTransactionId, nextLoanId);
      accounts := accounts[a.id := a];
      nextAccountId := nextAccountId + 1;
    }

    /** `DELETE FROM accounts` under `PRAGMA foreign_keys = ON`: the
        account goes, and `ON DELETE CASCADE` takes its transactions and
        loans with it. */
    method DeleteAccount(id: int)
      requires Valid()
      modifies this`accounts, this`transactions, this`loans
      ensures Valid()
      ensures accounts == old(accounts) - {id}
      ensures transactions == TransactionsWithout(old(transactions), id)
      ensures loans == LoansWithout(old(loans), id)
    {
      CascadeKeepsConstraints(accounts, transactions, loans, nextAccountId, nextTransactionId, nextLoanId, id);
      accounts := accounts - {id};
      transactions := TransactionsWithout(transactions, id);
      loans := LoansWithout(loans, id);
    }

    /** `connect`: a fresh connection replaces `self.conn`; whatever the old
        one had not committed is lost with it. */
    method Connect()
      modifies this`conn, this`connectionsOpened
      ensures conn == Some(Connection(old(connectionsOpened), []))
      ensures connectionsOpened == old(connectionsOpened) + 1
    {
      conn := Some(Connection(connectionsOpened, []));
      connectionsOpened := connectionsOpened + 1;
    }

    /** `close`: drops the connection, and with it any uncommitted statements. */
    method Close()
      modifies this`conn
      ensures conn == None
    {
      if conn.Some? {
        conn := None;
      }
    }

    /** `execute_query(query, params, fetch_mode)`, with the empty string for
        `fetch_mode=None`. It always opens a fresh connection and always ends
        closed. A fetch returns rows and commits nothing; any other statement
        returns `lastrowid` for an INSERT and `rowcount` otherwise, and is
        committed. `rolledBack` tells whether the error path called
        `rollback()`, which it does only for a failed non-fetch query. */
    method ExecuteQuery(query: string, fetchMode: string, answer: EngineAnswer)
      returns (r: QueryResult, rolledBack: bool)
      modifies this`conn, this`committed, this`connectionsOpened
      ensures conn == None
      ensures connectionsOpened == old(connectionsOpened) + 1
      ensures rolledBack <==> answer.Raised? && fetchMode == ""
      ensures answer.Raised? ==> r == QueryFailed && committed == old(committed)
      ensures answer.Ran? && fetchMode == "one" ==>
        r == FetchedOne(if answer.rows == [] then None else Some(answer.rows[0])) && committed == old(committed)
      ensures answer.Ran? && fetchMode == "all" ==>
        r == FetchedAll(answer.rows) && committed == old(committed)
      ensures answer.Ran? && fetchMode != "one" && fetchMode != "all" ==>
        && r == (if IsInsert(query) then InsertedId(answer.lastRowId) else AffectedRows(answer.rowCount))
        && committed == old(committed) + [query]
    {
      Connect();
      rolledBack := false;
      match answer {
        case Raised =>
          r := QueryFailed;
          if fetchMode == "" {
            conn := Some(conn.value.(uncommitted := []));
            rolledBack := true;
          }
        case Ran(rows, lastRowId, rowCount) =>
          if fetchMode == "one" {
            r := FetchedOne(if rows == [] then None else Some(rows[0]));
          } else if fetchMode == "all" {
            r := FetchedAll(rows);
          } else {
            r := if IsInsert(query) then InsertedId(lastRowId) else AffectedRows(rowCount);
            conn := Some(conn.value.(uncommitted := conn.value.uncommitted + [query]));
            committed := committed + conn.value.uncommitted;
            conn := Some(conn.value.(uncommitted := []));
          }
      }
      Close();
    }

    /** `begin_transaction`: opens a connection and keeps it in `self.conn`. */
    method BeginTransaction() returns (c: Connection)
      modifies this`conn, this`connectionsOpened
      ensures conn == Some(c) && c == Connection(old(connectionsOpened), [])
      ensures connectionsOpened == old(connectionsOpened) + 1
    {
      Connect();
      c := conn.value;
    }

    /** `commit_transaction`: commits and closes `self.conn`; with no open
        connection it does nothing. */
    method CommitTransaction()
      modifies this`conn, this`committed
      ensures conn == None
      ensures committed == old(committed) + (if old(conn).Some? then old(conn).value.uncommitted else [])
    {
      if conn.Some? {
        committed := committed + conn.value.uncommitted;
        Close();
      }
    }

    /** `rollback_transaction`: discards and closes `self.conn`; with no open
        connection it does nothing. */
    method RollbackTransaction()
      modifies this`conn
      ensures conn == None
    {
      if conn.Some? {
        Close();
      }
    }

    /** `execute_query(query, params)` for a write, seen from the store: the
        statement is committed when the engine ran it, and no connection is
        left open either way. */
    method ExecuteWrite(query: string, answer: EngineAnswer)
      modifies this`conn, this`committed, this`connectionsOpened
      ensures conn == None
      ensures committed == old(committed) + (if answer.Ran? then [query] else [])
    {
      var _, _ := ExecuteQuery(query, "", answer);
    }

    /** The pattern `transfer` follows (src/transaction.py:110-154): begin a
        transaction, run each write through `execute_query`, then commit, or
        roll back at the first failure. Because every `execute_query` opens its
        own connection, commits, and leaves `self.conn` empty, the writes that
        ran before a failure stay committed after the rollback, and the
        closing commit or rollback finds no connection: the "transaction"
        groups nothing. */
    method GroupedWrites(statements: seq<string>, answers: seq<EngineAnswer>) returns (ok: bool)
      requires |statements| == |answers|
      modifies this`conn, this`committed, this`connectionsOpened
      ensures ok <==> FirstFailure(answers) == |answers|
      ensures committed == old(committed) + statements[..FirstFailure(answers)]
      ensures conn == None
    {
      var _ := BeginTransaction();
      var stop := FirstFailure(answers);
      ghost var start := committed;
      var i := 0;
      while i < stop
        invariant 0 <= i <= stop
        invariant committed == start + statements[..i]
        invariant if i == 0 then conn.Some? && conn.value.uncommitted == [] else conn == None
      {
        ExecuteWrite(statements[i], answers[i]);
        assert statements[..i + 1] == statements[..i] + [statements[i]];
        i := i + 1;
      }
      ok := stop == |answers|;
      if !ok {
        ExecuteWrite(statements[stop], answers[stop]);
        RollbackTransaction();
      } else {
        CommitTransaction();
      }
    }
  }
}
