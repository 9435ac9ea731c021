/** The read side of src/transaction.py over the append-only transactions
    table: one transaction by id, an account's history, the search with its
    optional filters, the per-type statistics, and the description a record
    gets when the caller gives none. Absent Python arguments are `None` here;
    where the source tests an argument for truthiness, an empty string or an
    account id of 0 counts as absent too. */
module Journal {
  import opened Wrappers
  import opened Calendar
  import opened Schema
  import opened Listing
  import Text

  /** `ORDER BY transaction_date DESC` sorts on this key. */
  function DateKey(t: Transaction): int
  {
    Instant(t.date)
  }

  // ----- descriptions -----

  /** `transaction_type.replace("_", " ").capitalize()`. */
  function DefaultDescription(t: TransactionType): (d: string)
    ensures |d| == |t.Name()|
  {
    Text.Capitalize(Text.ReplaceChar(t.Name(), '_', ' '))
  }

  /** The text stored by `record_transaction`: the caller's description, or
      the default when it is missing or empty. */
  function StoredDescription(description: string, t: TransactionType): (d: string)
    ensures description != "" ==> d == description
    ensures description == "" ==> d == DefaultDescription(t) && d != ""
  {
    if description != "" then description else DefaultDescription(t)
  }

  /** `capitalize` leaves a word that is already lower case after its first letter as it is, but for that letter. */
  lemma {:induction false} ToLowerKeepsLower(s: string)
    requires forall i :: 0 <= i < |s| ==> !('A' <= s[i] <= 'Z')
    ensures Text.ToLower(s) == s
  {
  }

  /** The default description of each type, spelled out. */
  function DefaultText(t: TransactionType): string
  {
    match t
    case Deposit => "Deposit"
    case Withdrawal => "Withdrawal"
    case TransferIn => "Transfer in"
    case TransferOut => "Transfer out"
    case LoanDisbursement => "Loan disbursement"
    case LoanPayment => "Loan payment"
  }

  lemma DepositSpelled()
    ensures DefaultDescription(Deposit) == "Deposit"
  {
    assert Text.ReplaceChar("deposit", '_', ' ') == "deposit";
    ToLowerKeepsLower("eposit");
  }

  lemma WithdrawalSpelled()
    ensures DefaultDescription(Withdrawal) == "Withdrawal"
  {
    assert Text.ReplaceChar("withdrawal", '_', ' ') == "withdrawal";
    ToLowerKeepsLower("ithdrawal");
  }

  lemma TransferInSpelled()
    ensures DefaultDescription(TransferIn) == "Transfer in"
  {
    assert Text.ReplaceChar("transfer_in", '_', ' ') == "transfer in";
    ToLowerKeepsLower("ransfer in");
  }

  lemma TransferOutSpelled()
    ensures DefaultDescription(TransferOut) == "Transfer out"
  {
    assert Text.ReplaceChar("transfer_out", '_', ' ') == "transfer out";
    ToLowerKeepsLower("ransfer out");
  }

  lemma LoanDisbursementSpelled()
    ensures DefaultDescription(LoanDisbursement) == "Loan disbursement"
  {
    assert Text.ReplaceChar("loan_disbursement", '_', ' ') == "loan disbursement";
    ToLowerKeepsLower("oan disbursement");
  }

  lemma LoanPaymentSpelled()
    ensures DefaultDescription(LoanPayment) == "Loan payment"
  {
    assert Text.ReplaceChar("loan_payment", '_', ' ') == "loan payment";
    ToLowerKeepsLower("oan payment");
  }

  /** Each type's default description reads as spelled out. */
  lemma DefaultDescriptionSpelled(t: TransactionType)
    ensures DefaultDescription(t) == DefaultText(t)
  {
    match t
    case Deposit => DepositSpelled();
    case Withdrawal => WithdrawalSpelled();
    case TransferIn => TransferInSpelled();
    case TransferOut => TransferOutSpelled();
    case LoanDisbursement => LoanDisbursementSpelled();
    case LoanPayment => LoanPaymentSpelled();
  }

  // ----- lookups -----

  /** `get_transaction`: the row with that id, if any. */
  function GetTransaction(transactions: seq<Transaction>, id: int): (r: Option<Transaction>)
    ensures r.Some? ==> r.value in transactions && r.value.id == id
    ensures r.None? ==> forall k :: 0 <= k < |transactions| ==> transactions[k].id != id
  {
    var found := Filter(transactions, (t: Transaction) => t.id == id);
    if found == [] then None else Some(found[0])
  }

  /** The `WHERE` clause of `get_account_transactions`; `transaction_type`
      is applied only when it is a non-empty string. */
  predicate OfAccount(t: Transaction, accountId: int, txnType: string)
  {
    t.accountId == accountId && (txnType != "" ==> t.txnType.Name() == txnType)
  }

  /** `get_account_transactions(account_id, limit, offset, transaction_type)`:
      the account's rows (of that type, when one is given), newest first,
      after skipping `offset` rows and keeping at most `limit`. When the page
      covers everything, every matching row is there. */
  function GetAccountTransactions(transactions: seq<Transaction>, accountId: int, limit: int, offset: int,
                                  txnType: string): (r: seq<Transaction>)
    ensures r == Page(SortNewestFirst(Filter(transactions, (t: Transaction) => OfAccount(t, accountId, txnType)),
                                      DateKey), limit, offset)
    ensures limit >= 0 ==> |r| <= limit
    ensures forall i :: 0 <= i < |r| ==> r[i] in transactions && OfAccount(r[i], accountId, txnType)
    ensures NewestFirst(r, DateKey)
    ensures offset <= 0 && (limit < 0 || limit >= |Filter(transactions, (t: Transaction) => OfAccount(t, accountId, txnType))|) ==>
      forall k :: 0 <= k < |transactions| && OfAccount(transactions[k], accountId, txnType) ==> transactions[k] in r
  {
    var r := OrderedPage(Filter(transactions, (t: Transaction) => OfAccount(t, accountId, txnType)), DateKey, limit, offset);
    FilteredPage(transactions, (t: Transaction) => OfAccount(t, accountId, txnType), DateKey, limit, offset, r);
    r
  }

  // ----- search -----

  /** The arguments of `search_transactions`; its defaults are `limit=50`
      and `offset=0`. */
  datatype TransactionQuery = TransactionQuery(
    accountId: Option<int>,
    txnType: Option<string>,
    minAmount: Option<real>,
    maxAmount: Option<real>,
    startDate: Option<DateTime>,
    endDate: Option<DateTime>,
    descriptionContains: Option<string>,
    limit: int,
    offset: int)

  /** Python truthiness of an optional id and an optional string. */
  predicate GivenId(o: Option<int>) { o.Some? && o.value != 0 }
  predicate GivenText(o: Option<string>) { o.Some? && o.value != "" }

  predicate AfterStart(t: Transaction, start: Option<DateTime>)
  {
    start.Some? ==> Instant(t.date) >= Instant(start.value)
  }

  predicate BeforeEnd(t: Transaction, end: Option<DateTime>)
  {
    end.Some? ==> Instant(t.date) <= Instant(end.value)
  }

  /** The `WHERE` clause `search_transactions` builds: `account_id`,
      `transaction_type` and `description_contains` only when truthy, the
      amount bounds whenever given (`is not None`), the dates whenever given. */
  predicate SearchMatches(q: TransactionQuery, t: Transaction)
  {
    && (GivenId(q.accountId) ==> t.accountId == q.accountId.value)
    && (GivenText(q.txnType) ==> t.txnType.Name() == q.txnType.value)
    && (q.minAmount.Some? ==> t.amount >= q.minAmount.value)
    && (q.maxAmount.Some? ==> t.amount <= q.maxAmount.value)
    && AfterStart(t, q.startDate)
    && BeforeEnd(t, q.endDate)
    && (GivenText(q.descriptionContains) ==> Text.LikeContains(t.description, q.descriptionContains.value))
  }

  /** `search_transactions`: the matching rows newest first, paged. */
  function SearchTransactions(transactions: seq<Transaction>, q: TransactionQuery): (r: seq<Transaction>)
    ensures r == Page(SortNewestFirst(Filter(transactions, (t: Transaction) => SearchMatches(q, t)), DateKey),
                      q.limit, q.offset)
    ensures q.limit >= 0 ==> |r| <= q.limit
    ensures forall i :: 0 <= i < |r| ==> r[i] in transactions && SearchMatches(q, r[i])
    ensures NewestFirst(r, DateKey)
    ensures q.offset <= 0 && (q.limit < 0 || q.limit >= |Filter(transactions, (t: Transaction) => SearchMatches(q, t))|) ==>
      forall k :: 0 <= k < |transactions| && SearchMatches(q, transactions[k]) ==> transactions[k] in r
  {
    var r := OrderedPage(Filter(transactions, (t: Transaction) => SearchMatches(q, t)), DateKey, q.limit, q.offset);
    FilteredPage(transactions, (t: Transaction) => SearchMatches(q, t), DateKey, q.limit, q.offset, r);
    r
  }

  /** An account's history is the search restricted to that account: the
      two queries return the same page for a non-zero account id. */
  lemma AccountHistoryIsSearch(transactions: seq<Transaction>, accountId: int, limit: int, offset: int, txnType: string)
    requires accountId != 0
    ensures GetAccountTransactions(transactions, accountId, limit, offset, txnType)
         == SearchTransactions(transactions, TransactionQuery(Some(accountId), Some(txnType), None, None, None, None, None, limit, offset))
  {
    var q := TransactionQuery(Some(accountId), Some(txnType), None, None, None, None, None, limit, offset);
    var p1 := (t: Transaction) => OfAccount(t, accountId, txnType);
    var p2 := (t: Transaction) => SearchMatches(q, t);
    FilterSame(transactions, p1, p2);
  }

  // ----- statistics -----

  function AmountSum(s: seq<Transaction>): real
  {
    if s == [] then 0.0 else AmountSum(s[..|s| - 1]) + s[|s| - 1].amount
  }

  function MinAmount(s: seq<Transaction>): (m: real)
    requires s != []
    ensures forall i :: 0 <= i < |s| ==> m <= s[i].amount
    ensures exists i :: 0 <= i < |s| && s[i].amount == m
  {
    if |s| == 1 then s[0].amount
    else
      var rest := MinAmount(s[..|s| - 1]);
      var last := s[|s| - 1].amount;
      var k :| 0 <= k < |s| - 1 && s[..|s| - 1][k].amount == rest;
      assert s[k].amount == rest;
      if last < rest then last else rest
  }

  function MaxAmount(s: seq<Transaction>): (m: real)
    requires s != []
    ensures forall i :: 0 <= i < |s| ==> s[i].amount <= m
    ensures exists i :: 0 <= i < |s| && s[i].amount == m
  {
    if |s| == 1 then s[0].amount
    else
      var rest := MaxAmount(s[..|s| - 1]);
      var last := s[|s| - 1].amount;
      var k :| 0 <= k < |s| - 1 && s[..|s| - 1][k].amount == rest;
      assert s[k].amount == rest;
      if last > rest then last else rest
  }

  lemma {:induction false} SumAtLeast(s: seq<Transaction>, lo: real)
    requires forall i :: 0 <= i < |s| ==> lo <= s[i].amount
    ensures |s| as real * lo <= AmountSum(s)
  {
    if s != [] {
      SumAtLeast(s[..|s| - 1], lo);
    }
  }

  lemma {:induction false} SumAtMost(s: seq<Transaction>, hi: real)
    requires forall i :: 0 <= i < |s| ==> s[i].amount <= hi
    ensures AmountSum(s) <= |s| as real * hi
  {
    if s != [] {
      SumAtMost(s[..|s| - 1], hi);
    }
  }

  lemma AverageBetween(n: real, lo: real, hi: real, total: real)
    requires n > 0.0 && n * lo <= total <= n * hi
    ensures lo <= total / n <= hi
  {
  }

  /** The mean of amounts that all lie between `lo` and `hi` lies between them too. */
  lemma AverageWithin(g: seq<Transaction>, lo: real, hi: real)
    requires g != [] && forall i :: 0 <= i < |g| ==> lo <= g[i].amount <= hi
    ensures lo <= AmountSum(g) / |g| as real <= hi
  {
    SumAtLeast(g, lo);
    SumAtMost(g, hi);
    AverageBetween(|g| as real, lo, hi, AmountSum(g));
  }

  /** One row of `get_transaction_stats`. */
  datatype TypeStats = TypeStats(txnType: TransactionType, count: nat, total: real,
                                 average: real, minimum: real, maximum: real)

  /** The rows of `s` of one type. */
  function OfType(s: seq<Transaction>, t: TransactionType): seq<Transaction>
  {
    Filter(s, (x: Transaction) => x.txnType == t)
  }

  /** The aggregate row of one `GROUP BY transaction_type` group: absent when
      the group is empty; otherwise the group's size, and its sum, average,
      minimum and maximum amount. */
  function GroupStats(window: seq<Transaction>, t: TransactionType): (r: Option<TypeStats>)
    ensures r.None? <==> OfType(window, t) == []
    ensures r.Some? ==> r.value.txnType == t && r.value.count == |OfType(window, t)|
  {
    var g := OfType(window, t);
    if g == [] then None
    else Some(TypeStats(t, |g|, AmountSum(g), AmountSum(g) / |g| as real, MinAmount(g), MaxAmount(g)))
  }

  /** A group row counts at least one transaction, totals the group's
      amounts, and has its average between its minimum and its maximum. */
  lemma GroupStatsBounds(window: seq<Transaction>, t: TransactionType)
    requires GroupStats(window, t).Some?
    ensures var row := GroupStats(window, t).value;
      && row.count > 0
      && row.total == AmountSum(OfType(window, t))
      && row.minimum <= row.average <= row.maximum
  {
    var g := OfType(window, t);
    AverageWithin(g, MinAmount(g), MaxAmount(g));
  }

  /** The groups for `types`, in that order, skipping the empty ones. */
  function StatsOver(window: seq<Transaction>, types: seq<TransactionType>): (r: seq<TypeStats>)
    ensures forall i :: 0 <= i < |r| ==> r[i].txnType in types
  {
    if types == [] then []
    else
      var rest := StatsOver(window, types[1..]);
      var head := GroupStats(window, types[0]);
      assert forall i :: 0 <= i < |rest| ==> rest[i].txnType in types by {
        forall i | 0 <= i < |rest| ensures rest[i].txnType in types {
          assert rest[i].txnType in types[1..];
        }
      }
      if head.None? then rest else [head.value] + rest
  }

  /** Each row `StatsOver` lists is the group row of its type. */
  lemma {:induction false} StatsOverRows(window: seq<Transaction>, types: seq<TransactionType>)
    ensures forall i :: 0 <= i < |StatsOver(window, types)| ==>
      GroupStats(window, StatsOver(window, types)[i].txnType) == Some(StatsOver(window, types)[i])
  {
    StatsOverMembers(window, types);
    var r := StatsOver(window, types);
    assert forall i :: 0 <= i < |r| ==> r[i] in r;
  }

  lemma {:induction false} StatsOverMembers(window: seq<Transaction>, types: seq<TransactionType>)
    ensures forall x :: x in StatsOver(window, types) ==> GroupStats(window, x.txnType) == Some(x)
  {
    if types != [] {
      StatsOverMembers(window, types[1..]);
      var r, rest := StatsOver(window, types), StatsOver(window, types[1..]);
      var head := GroupStats(window, types[0]);
      assert forall x :: x in r ==> x in rest || (head.Some? && x == head.value);
    }
  }

  /** Every listed type that occurs in the window has its row. */
  lemma {:induction false} StatsOverComplete(window: seq<Transaction>, types: seq<TransactionType>)
    ensures forall t :: t in types && GroupStats(window, t).Some? ==> GroupStats(window, t).value in StatsOver(window, types)
  {
    if types != [] {
      StatsOverComplete(window, types[1..]);
      var r, rest := StatsOver(window, types), StatsOver(window, types[1..]);
      assert forall x :: x in rest ==> x in r;
      assert forall t :: t in types ==> t == types[0] || t in types[1..];
    }
  }

  /** Listing each type once yields each group once. */
  lemma {:induction false} StatsOverDistinct(window: seq<Transaction>, types: seq<TransactionType>)
    requires forall i, j :: 0 <= i < j < |types| ==> types[i] != types[j]
    ensures forall i, j :: 0 <= i < j < |StatsOver(window, types)| ==>
      StatsOver(window, types)[i].txnType != StatsOver(window, types)[j].txnType
  {
    if types != [] {
      StatsOverDistinct(window, types[1..]);
      assert types[0] !in types[1..];
    }
  }

  /** The `WHERE` clause of `get_transaction_stats`: each filter only when
      truthy, so an account id of 0 selects every account. */
  predicate InWindow(t: Transaction, accountId: Option<int>, start: Option<DateTime>, end: Option<DateTime>)
  {
    (GivenId(accountId) ==> t.accountId == accountId.value) && AfterStart(t, start) && BeforeEnd(t, end)
  }

  function Window(transactions: seq<Transaction>, accountId: Option<int>, start: Option<DateTime>,
                  end: Option<DateTime>): seq<Transaction>
  {
    Filter(transactions, (t: Transaction) => InWindow(t, accountId, start, end))
  }

  /** `get_transaction_stats(account_id, start_date, end_date)`: one row per
      transaction type present in the window, each with its count, sum,
      average, minimum and maximum; no type appears twice. */
  function GetTransactionStats(transactions: seq<Transaction>, accountId: Option<int>, start: Option<DateTime>,
                               end: Option<DateTime>): (r: seq<TypeStats>)
    ensures forall i :: 0 <= i < |r| ==>
      && r[i].count == |OfType(Window(transactions, accountId, start, end), r[i].txnType)| > 0
      && r[i].total == AmountSum(OfType(Window(transactions, accountId, start, end), r[i].txnType))
      && r[i].minimum <= r[i].average <= r[i].maximum
    ensures forall i, j :: 0 <= i < j < |r| ==> r[i].txnType != r[j].txnType
    ensures forall t: TransactionType :: GroupStats(Window(transactions, accountId, start, end), t).Some? ==>
      GroupStats(Window(transactions, accountId, start, end), t).value in r
  {
    var window := Window(transactions, accountId, start, end);
    var r := StatsOver(window, TransactionTypes);
    TypesDistinct();
    StatsOverComplete(window, TransactionTypes);
    StatsOverDistinct(window, TransactionTypes);
    StatsOverRows(window, TransactionTypes);
    assert forall i :: 0 <= i < |r| ==> && r[i].count > 0 && r[i].total == AmountSum(OfType(window, r[i].txnType))
                                        && r[i].minimum <= r[i].average <= r[i].maximum by {
      forall i | 0 <= i < |r|
        ensures r[i].count > 0 && r[i].total == AmountSum(OfType(window, r[i].txnType))
        ensures r[i].minimum <= r[i].average <= r[i].maximum
      {
        GroupStatsBounds(window, r[i].txnType);
      }
    }
    r
  }

  /** `TransactionTypes` lists each type once, and lists them all. */
  lemma TypesDistinct()
    ensures forall i, j :: 0 <= i < j < |TransactionTypes| ==> TransactionTypes[i] != TransactionTypes[j]
    ensures forall t: TransactionType :: t in TransactionTypes
  {
    var tt := TransactionTypes;
    assert tt[0] == Deposit && tt[1] == LoanDisbursement && tt[2] == LoanPayment;
    assert tt[3] == TransferIn && tt[4] == TransferOut && tt[5] == Withdrawal;
    forall t: TransactionType ensures t in tt {
      match t
      case Deposit => assert tt[0] == t;
      case LoanDisbursement => assert tt[1] == t;
      case LoanPayment => assert tt[2] == t;
      case TransferIn => assert tt[3] == t;
      case TransferOut => assert tt[4] == t;
      case Withdrawal => assert tt[5] == t;
    }
  }

  // ----- every row is counted once -----

  function TotalCount(r: seq<TypeStats>): nat
  {
    if r == [] then 0 else r[0].count + TotalCount(r[1..])
  }

  /** How many rows of `s` have one of `types`, type by type. */
  function CountOver(s: seq<Transaction>, types: seq<TransactionType>): nat
  {
    if types == [] then 0 else |OfType(s, types[0])| + CountOver(s, types[1..])
  }

  lemma {:induction false} StatsCount(window: seq<Transaction>, types: seq<TransactionType>)
    ensures TotalCount(StatsOver(window, types)) == CountOver(window, types)
  {
    if types != [] {
      StatsCount(window, types[1..]);
    }
  }

  /** Dropping the last row removes one from the count of its type, if that
      type is listed once. */
  lemma {:induction false} CountOverSnoc(s: seq<Transaction>, types: seq<TransactionType>)
    requires s != []
    requires forall i, j :: 0 <= i < j < |types| ==> types[i] != types[j]
    ensures CountOver(s, types) == CountOver(s[..|s| - 1], types) + (if s[|s| - 1].txnType in types then 1 else 0)
  {
    if types != [] {
      CountOverSnoc(s, types[1..]);
      assert s[|s| - 1].txnType in types <==> s[|s| - 1].txnType == types[0] || s[|s| - 1].txnType in types[1..];
    }
  }

  lemma {:induction false} CountOverEmpty(types: seq<TransactionType>)
    ensures CountOver([], types) == 0
  {
    if types != [] {
      CountOverEmpty(types[1..]);
    }
  }

  lemma {:induction false} CountOverAllTypes(s: seq<Transaction>)
    ensures CountOver(s, TransactionTypes) == |s|
  {
    if s != [] {
      CountOverAllTypes(s[..|s| - 1]);
      CountOverSnoc(s, TransactionTypes);
    } else {
      CountOverEmpty(TransactionTypes);
    }
  }

  /** The per-type counts of `get_transaction_stats` add up to the number of
      transactions in the window: every row falls in exactly one group. */
  lemma StatsCountEveryRow(transactions: seq<Transaction>, accountId: Option<int>, start: Option<DateTime>,
                           end: Option<DateTime>)
    ensures TotalCount(GetTransactionStats(transactions, accountId, start, end))
         == |Window(transactions, accountId, start, end)|
  {
    var w := Window(transactions, accountId, start, end);
    StatsCount(w, TransactionTypes);
    CountOverAllTypes(w);
  }
}
