/** The double-entry ledger: balances by transaction, balances by account type, and why they agree. */
module Ledger {
  import opened Grouping

  datatype AccountType =
    | Spending | Earnings | FundingReserved | ReservedForPayouts | PlatformRevenue | PlatformSuspense

  const ACCOUNT_TYPES := [Spending, Earnings, FundingReserved, ReservedForPayouts, PlatformRevenue, PlatformSuspense]

  datatype Posting = Posting(id: nat, transactionId: nat, account: AccountType, amountSatang: int)

  datatype Item = Item(transactionId: nat, isBalanced: bool, postings: seq<Posting>)

  function Amounts(postings: seq<Posting>): seq<int> {
    seq(|postings|, i requires 0 <= i < |postings| => postings[i].amountSatang)
  }

  function Sum(amounts: seq<int>): int {
    if amounts == [] then 0 else Sum(amounts[..|amounts| - 1]) + amounts[|amounts| - 1]
  }

  function ByTransaction(postings: seq<Posting>): seq<(nat, Posting)> {
    seq(|postings|, i requires 0 <= i < |postings| => (postings[i].transactionId, postings[i]))
  }

  /** The postings of one transaction, in their reading order. */
  function PostingsOf(postings: seq<Posting>, transactionId: nat): seq<Posting> {
    ValuesOf(ByTransaction(postings), transactionId)
  }

  method SumOf(postings: seq<Posting>) returns (total: int)
    ensures total == Sum(Amounts(postings))
  {
    total := 0;
    for i := 0 to |postings|
      invariant total == Sum(Amounts(postings)[..i])
    {
      assert Amounts(postings)[..i + 1][..i] == Amounts(postings)[..i];
      total := total + postings[i].amountSatang;
    }
    assert Amounts(postings)[..|postings|] == Amounts(postings);
  }

  predicate IsBalanced(postings: seq<Posting>, transactionId: nat) {
    Sum(Amounts(PostingsOf(postings, transactionId))) == 0
  }

  /** What the listing shows of one transaction: its own postings, and whether they sum to zero. */
  predicate ShowsTransaction(item: Item, transactionId: nat, postings: seq<Posting>) {
    item == Item(transactionId, IsBalanced(postings, transactionId), PostingsOf(postings, transactionId))
  }

  predicate ShowsTransactions(items: seq<Item>, transactionIds: seq<nat>, postings: seq<Posting>) {
    |items| == |transactionIds|
    && forall i :: 0 <= i < |items| ==> ShowsTransaction(items[i], transactionIds[i], postings)
  }

  method ListTransactions(transactionIds: seq<nat>, postings: seq<Posting>) returns (items: seq<Item>)
    ensures ShowsTransactions(items, transactionIds, postings)
  {
    var groups := GroupByKey(ByTransaction(postings));
    items := [];
    for i := 0 to |transactionIds|
      invariant |items| == i
      invariant forall k :: 0 <= k < i ==> ShowsTransaction(items[k], transactionIds[k], postings)
    {
      var id := transactionIds[i];
      GroupsAreComplete(ByTransaction(postings), id);
      var own := if id in groups then groups[id] else [];
      var total := SumOf(own);
      items := items + [Item(id, total == 0, own)];
    }
  }

  /** A listed transaction shows all of its postings, no other transaction's, and its balance. */
  lemma {:induction false} ItemsShowTheirOwn(items: seq<Item>, transactionIds: seq<nat>, postings: seq<Posting>, i: nat)
    requires ShowsTransactions(items, transactionIds, postings) && i < |items|
    ensures items[i].transactionId == transactionIds[i]
    ensures forall p :: p in items[i].postings <==> p in postings && p.transactionId == transactionIds[i]
    ensures items[i].isBalanced <==> Sum(Amounts(items[i].postings)) == 0
  {
    assert ShowsTransaction(items[i], transactionIds[i], postings);
    OwnPostings(postings, transactionIds[i]);
  }

  lemma {:induction false} OwnPostings(postings: seq<Posting>, transactionId: nat)
    ensures forall p :: p in PostingsOf(postings, transactionId) <==> p in postings && p.transactionId == transactionId
  {
    if postings != [] {
      var front, last := postings[..|postings| - 1], postings[|postings| - 1];
      OwnPostings(front, transactionId);
      assert ByTransaction(postings)[..|postings| - 1] == ByTransaction(front);
      assert postings == front + [last];
    }
  }

  // ---- Partitions ----

  predicate Distinct<K(==)>(keys: seq<K>) {
    forall i, j :: 0 <= i < j < |keys| ==> keys[i] != keys[j]
  }

  /** Every row's key is listed. */
  predicate Covers<K(==), V>(keys: seq<K>, rows: seq<(K, V)>) {
    forall i :: 0 <= i < |rows| ==> rows[i].0 in keys
  }

  /** The groups of some keys, one after the other. */
  function Joined<K(==), V>(keys: seq<K>, rows: seq<(K, V)>): seq<V> {
    if keys == [] then [] else ValuesOf(rows, keys[0]) + Joined(keys[1..], rows)
  }

  function Values<K, V>(rows: seq<(K, V)>): seq<V> {
    seq(|rows|, i requires 0 <= i < |rows| => rows[i].1)
  }

  lemma OneMoreValue<K, V>(rows: seq<(K, V)>, row: (K, V), k: K)
    ensures ValuesOf(rows + [row], k) == ValuesOf(rows, k) + (if row.0 == k then [row.1] else [])
  {
    assert (rows + [row])[..|rows|] == rows;
  }

  lemma FirstAmongRest<K>(keys: seq<K>, k: K)
    requires Distinct(keys) && keys != []
    ensures k in keys <==> k == keys[0] || k in keys[1..]
    ensures keys[0] !in keys[1..] && Distinct(keys[1..])
  {
  }

  lemma {:induction false} OneMoreRow<K, V>(keys: seq<K>, rows: seq<(K, V)>, row: (K, V))
    requires Distinct(keys)
    ensures multiset(Joined(keys, rows + [row]))
         == multiset(Joined(keys, rows)) + (if row.0 in keys then multiset{row.1} else multiset{})
  {
    if keys != [] {
      OneMoreValue(rows, row, keys[0]);
      FirstAmongRest(keys, row.0);
      OneMoreRow(keys[1..], rows, row);
    }
  }

  lemma LastRow<K, V>(keys: seq<K>, rows: seq<(K, V)>)
    requires rows != [] && Covers(keys, rows)
    ensures
      var front, last := rows[..|rows| - 1], rows[|rows| - 1];
      && rows == front + [last] && Covers(keys, front) && last.0 in keys
      && Values(rows) == Values(front) + [last.1]
  {
    var front := rows[..|rows| - 1];
    forall i | 0 <= i < |front|
      ensures front[i].0 in keys
    {
      assert front[i] == rows[i];
    }
  }

  /** Grouping by distinct keys that cover every row loses and doubles no row. */
  lemma {:induction false} GroupsPartition<K, V>(keys: seq<K>, rows: seq<(K, V)>)
    requires Distinct(keys) && Covers(keys, rows)
    ensures multiset(Joined(keys, rows)) == multiset(Values(rows))
    decreases |rows|
  {
    if rows == [] {
      NoRows(keys, rows);
    } else {
      var front := rows[..|rows| - 1];
      var last := rows[|rows| - 1];
      LastRow(keys, rows);
      GroupsPartition(keys, front);
      OneMoreRow(keys, front, last);
    }
  }

  lemma {:induction false} NoRows<K, V>(keys: seq<K>, rows: seq<(K, V)>)
    requires rows == []
    ensures Joined(keys, rows) == []
  {
    if keys != [] {
      NoRows(keys[1..], rows);
    }
  }

  /** The sums of the groups. */
  function GroupSums<K(==)>(keys: seq<K>, rows: seq<(K, int)>): int {
    if keys == [] then 0 else Sum(ValuesOf(rows, keys[0])) + GroupSums(keys[1..], rows)
  }

  lemma OneMoreAmount(amounts: seq<int>, amount: int)
    ensures Sum(amounts + [amount]) == Sum(amounts) + amount
  {
    assert (amounts + [amount])[..|amounts|] == amounts;
  }

  lemma OneMoreInGroup<K>(rows: seq<(K, int)>, row: (K, int), k: K)
    ensures Sum(ValuesOf(rows + [row], k)) == Sum(ValuesOf(rows, k)) + if row.0 == k then row.1 else 0
  {
    OneMoreValue(rows, row, k);
    OneMoreAmount(ValuesOf(rows, k), row.1);
    assert ValuesOf(rows, k) + [] == ValuesOf(rows, k);
  }

  lemma {:induction false} OneMoreSum<K>(keys: seq<K>, rows: seq<(K, int)>, row: (K, int))
    requires Distinct(keys)
    ensures GroupSums(keys, rows + [row]) == GroupSums(keys, rows) + if row.0 in keys then row.1 else 0
  {
    if keys != [] {
      OneMoreInGroup(rows, row, keys[0]);
      FirstAmongRest(keys, row.0);
      OneMoreSum(keys[1..], rows, row);
    }
  }

  lemma {:induction false} NoSums<K>(keys: seq<K>, rows: seq<(K, int)>)
    requires rows == []
    ensures GroupSums(keys, rows) == 0
  {
    if keys != [] {
      NoSums(keys[1..], rows);
    }
  }

  /** However rows are grouped, the group sums add up to the total. */
  lemma {:induction false} GroupSumsAreTotal<K>(keys: seq<K>, rows: seq<(K, int)>)
    requires Distinct(keys) && Covers(keys, rows)
    ensures GroupSums(keys, rows) == Sum(Values(rows))
    decreases |rows|
  {
    if rows == [] {
      NoSums(keys, rows);
    } else {
      var front := rows[..|rows| - 1];
      var last := rows[|rows| - 1];
      LastRow(keys, rows);
      GroupSumsAreTotal(keys, front);
      OneMoreSum(keys, front, last);
      OneMoreAmount(Values(front), last.1);
    }
  }

  // ---- The overview ----

  function AmountsByType(postings: seq<Posting>): seq<(AccountType, int)> {
    seq(|postings|, i requires 0 <= i < |postings| => (postings[i].account, postings[i].amountSatang))
  }

  function AmountsByTransaction(postings: seq<Posting>): seq<(nat, int)> {
    seq(|postings|, i requires 0 <= i < |postings| => (postings[i].transactionId, postings[i].amountSatang))
  }

  /** The true balance of an account type. */
  function BalanceOf(postings: seq<Posting>, account: AccountType): int {
    Sum(ValuesOf(AmountsByType(postings), account))
  }

  datatype Balance = Balance(account: AccountType, totalSatang: int)

  /** What the grouped balance query returns: one row for each account type that has postings. */
  ghost predicate IsBalances(rows: seq<Balance>, postings: seq<Posting>) {
    && (forall i, j :: 0 <= i < j < |rows| ==> rows[i].account != rows[j].account)
    && (forall i :: 0 <= i < |rows| ==> rows[i].totalSatang == BalanceOf(postings, rows[i].account))
    && (forall i :: 0 <= i < |postings| ==> exists j :: 0 <= j < |rows| && rows[j].account == postings[i].account)
  }

  datatype Overview = Overview(
    revenue: int, suspense: int, spending: int, earnings: int, fundingReserved: int, payoutReserved: int,
    circulating: int, subledgerBalanced: bool, discrepancy: int)

  function Lookup(balances: map<AccountType, int>, account: AccountType): int {
    if account in balances then balances[account] else 0
  }

  /**
   * The overview reads the grouped balances and the discrepancy in two statements, so from two
   * states of the ledger: `postings` and `later`.
   */
  method FinanceOverview(rows: seq<Balance>, ghost postings: seq<Posting>, discrepancy: int, ghost later: seq<Posting>)
    returns (o: Overview)
    requires IsBalances(rows, postings) && discrepancy == Sum(Amounts(later))
    ensures o.revenue == BalanceOf(postings, PlatformRevenue) && o.suspense == BalanceOf(postings, PlatformSuspense)
    ensures o.spending == BalanceOf(postings, Spending) && o.earnings == BalanceOf(postings, Earnings)
    ensures o.fundingReserved == BalanceOf(postings, FundingReserved)
    ensures o.payoutReserved == BalanceOf(postings, ReservedForPayouts)
    ensures o.circulating + o.revenue + o.suspense == Sum(Amounts(postings))
    ensures o.discrepancy == Sum(Amounts(later)) && (o.subledgerBalanced <==> Sum(Amounts(later)) == 0)
    ensures (o.subledgerBalanced <==> o.circulating == -(o.revenue + o.suspense))
            <==> (Sum(Amounts(postings)) == 0 <==> Sum(Amounts(later)) == 0)
  {
    var balances: map<AccountType, int> := map[];
    for i := 0 to |rows|
      invariant forall account :: account in balances <==> exists k :: 0 <= k < i && rows[k].account == account
      invariant forall account :: account in balances ==> balances[account] == BalanceOf(postings, account)
    {
      balances := balances[rows[i].account := rows[i].totalSatang];
    }
    forall account
      ensures Lookup(balances, account) == BalanceOf(postings, account)
    {
      if account !in balances {
        UnusedAccount(rows, postings, account);
      }
    }
    var spending, earnings := Lookup(balances, Spending), Lookup(balances, Earnings);
    var fundingReserved, payoutReserved := Lookup(balances, FundingReserved), Lookup(balances, ReservedForPayouts);
    var revenue, suspense := Lookup(balances, PlatformRevenue), Lookup(balances, PlatformSuspense);
    TypesAreTotal(postings);
    o := Overview(
      revenue, suspense, spending, earnings, fundingReserved, payoutReserved,
      spending + earnings + fundingReserved + payoutReserved, discrepancy == 0, discrepancy);
  }

  lemma {:induction false} NoneOfType(postings: seq<Posting>, account: AccountType)
    requires forall i :: 0 <= i < |postings| ==> postings[i].account != account
    ensures ValuesOf(AmountsByType(postings), account) == []
  {
    if postings == [] {
      assert AmountsByType(postings) == [];
    } else {
      NoneOfType(postings[..|postings| - 1], account);
      assert AmountsByType(postings)[..|postings| - 1] == AmountsByType(postings[..|postings| - 1]);
      assert AmountsByType(postings)[|postings| - 1].0 != account;
    }
  }

  lemma UnusedAccount(rows: seq<Balance>, postings: seq<Posting>, account: AccountType)
    requires IsBalances(rows, postings) && forall k :: 0 <= k < |rows| ==> rows[k].account != account
    ensures BalanceOf(postings, account) == 0
  {
    NoneOfType(postings, account);
  }

  lemma TypesCover(rows: seq<(AccountType, int)>)
    ensures Distinct(ACCOUNT_TYPES) && Covers(ACCOUNT_TYPES, rows)
  {
    forall account: AccountType
      ensures account in ACCOUNT_TYPES
    {
      assert ACCOUNT_TYPES
        == [Spending, Earnings, FundingReserved, ReservedForPayouts, PlatformRevenue, PlatformSuspense];
      match account
      case Spending => assert ACCOUNT_TYPES[0] == account;
      case Earnings => assert ACCOUNT_TYPES[1] == account;
      case FundingReserved => assert ACCOUNT_TYPES[2] == account;
      case ReservedForPayouts => assert ACCOUNT_TYPES[3] == account;
      case PlatformRevenue => assert ACCOUNT_TYPES[4] == account;
      case PlatformSuspense => assert ACCOUNT_TYPES[5] == account;
    }
  }

  /** The six account balances add up to the sum of every posting. */
  lemma TypesAreTotal(postings: seq<Posting>)
    ensures
      BalanceOf(postings, Spending) + BalanceOf(postings, Earnings) + BalanceOf(postings, FundingReserved)
      + BalanceOf(postings, ReservedForPayouts) + BalanceOf(postings, PlatformRevenue)
      + BalanceOf(postings, PlatformSuspense)
      == Sum(Amounts(postings))
  {
    var rows := AmountsByType(postings);
    assert Values(rows) == Amounts(postings);
    TypesCover(rows);
    GroupSumsAreTotal(ACCOUNT_TYPES, rows);
    SixGroups(rows);
  }

  lemma FirstGroup<K>(key: K, keys: seq<K>, rows: seq<(K, int)>)
    ensures GroupSums([key] + keys, rows) == Sum(ValuesOf(rows, key)) + GroupSums(keys, rows)
  {
    assert ([key] + keys)[1..] == keys;
  }

  lemma SixGroups(rows: seq<(AccountType, int)>)
    ensures GroupSums(ACCOUNT_TYPES, rows) ==
      Sum(ValuesOf(rows, Spending)) + Sum(ValuesOf(rows, Earnings)) + Sum(ValuesOf(rows, FundingReserved))
      + Sum(ValuesOf(rows, ReservedForPayouts)) + Sum(ValuesOf(rows, PlatformRevenue))
      + Sum(ValuesOf(rows, PlatformSuspense))
  {
    var platform := [PlatformRevenue] + ([PlatformSuspense] + []);
    var reserved := [FundingReserved] + ([ReservedForPayouts] + platform);
    assert ACCOUNT_TYPES == [Spending] + ([Earnings] + reserved);
    FirstGroup(Spending, [Earnings] + reserved, rows);
    FirstGroup(Earnings, reserved, rows);
    FirstGroup(FundingReserved, [ReservedForPayouts] + platform, rows);
    FirstGroup(ReservedForPayouts, platform, rows);
    FirstGroup(PlatformRevenue, [PlatformSuspense] + [], rows);
    FirstGroup(PlatformSuspense, [], rows);
  }

  lemma {:induction false} AmountsOfGroup(postings: seq<Posting>, id: nat)
    ensures Amounts(PostingsOf(postings, id)) == ValuesOf(AmountsByTransaction(postings), id)
  {
    if postings != [] {
      var front := postings[..|postings| - 1];
      AmountsOfGroup(front, id);
      assert ByTransaction(postings)[..|postings| - 1] == ByTransaction(front);
      assert AmountsByTransaction(postings)[..|postings| - 1] == AmountsByTransaction(front);
    }
  }

  lemma {:induction false} BalancedGroups(keys: seq<nat>, rows: seq<(nat, int)>)
    requires forall i :: 0 <= i < |keys| ==> Sum(ValuesOf(rows, keys[i])) == 0
    ensures GroupSums(keys, rows) == 0
  {
    if keys != [] {
      BalancedGroups(keys[1..], rows);
    }
  }

  predicate AllBalanced(items: seq<Item>) {
    forall i :: 0 <= i < |items| ==> items[i].isBalanced
  }

  /**
   * When every transaction is reported as balanced, the postings sum to zero, and circulating
   * member money is exactly the negation of revenue plus suspense.
   */
  lemma BalancedTransactionsBalanceTheBooks(postings: seq<Posting>, transactionIds: seq<nat>, items: seq<Item>)
    requires Distinct(transactionIds) && Covers(transactionIds, AmountsByTransaction(postings))
    requires ShowsTransactions(items, transactionIds, postings) && AllBalanced(items)
    ensures Sum(Amounts(postings)) == 0
    ensures
      BalanceOf(postings, Spending) + BalanceOf(postings, Earnings) + BalanceOf(postings, FundingReserved)
      + BalanceOf(postings, ReservedForPayouts)
      == -(BalanceOf(postings, PlatformRevenue) + BalanceOf(postings, PlatformSuspense))
  {
    var rows := AmountsByTransaction(postings);
    forall i | 0 <= i < |transactionIds|
      ensures Sum(ValuesOf(rows, transactionIds[i])) == 0
    {
      assert ShowsTransaction(items[i], transactionIds[i], postings) && items[i].isBalanced;
      AmountsOfGroup(postings, transactionIds[i]);
    }
    BalancedGroups(transactionIds, rows);
    GroupSumsAreTotal(transactionIds, rows);
    assert Values(rows) == Amounts(postings);
    TypesAreTotal(postings);
  }

  /**
   * While transactions are only committed balanced, the two statements of the overview agree,
   * whatever is committed between them: both states of the ledger sum to zero.
   */
  lemma BalancedCommitsKeepOverviewTrue(postings: seq<Posting>, ids: seq<nat>, later: seq<Posting>, laterIds: seq<nat>)
    requires Distinct(ids) && Covers(ids, AmountsByTransaction(postings))
    requires Distinct(laterIds) && Covers(laterIds, AmountsByTransaction(later))
    requires forall i :: 0 <= i < |ids| ==> IsBalanced(postings, ids[i])
    requires forall i :: 0 <= i < |laterIds| ==> IsBalanced(later, laterIds[i])
    ensures Sum(Amounts(postings)) == 0 && Sum(Amounts(later)) == 0
  {
    BalancedSum(postings, ids);
    BalancedSum(later, laterIds);
  }

  lemma BalancedSum(postings: seq<Posting>, ids: seq<nat>)
    requires Distinct(ids) && Covers(ids, AmountsByTransaction(postings))
    requires forall i :: 0 <= i < |ids| ==> IsBalanced(postings, ids[i])
    ensures Sum(Amounts(postings)) == 0
  {
    var items := seq(|ids|, i requires 0 <= i < |ids| => Item(ids[i], true, PostingsOf(postings, ids[i])));
    BalancedTransactionsBalanceTheBooks(postings, ids, items);
  }

  /** Summing by transaction and summing by account type give one total. */
  lemma BothSumsAgree(postings: seq<Posting>, transactionIds: seq<nat>)
    requires Distinct(transactionIds) && Covers(transactionIds, AmountsByTransaction(postings))
    ensures GroupSums(transactionIds, AmountsByTransaction(postings))
         == GroupSums(ACCOUNT_TYPES, AmountsByType(postings))
  {
    GroupSumsAreTotal(transactionIds, AmountsByTransaction(postings));
    TypesCover(AmountsByType(postings));
    GroupSumsAreTotal(ACCOUNT_TYPES, AmountsByType(postings));
    assert Values(AmountsByTransaction(postings)) == Values(AmountsByType(postings));
  }

  /** The listed transactions show every posting of the table exactly once. */
  lemma ListingShowsEveryPosting(postings: seq<Posting>, transactionIds: seq<nat>)
    requires Distinct(transactionIds) && Covers(transactionIds, ByTransaction(postings))
    ensures multiset(Joined(transactionIds, ByTransaction(postings))) == multiset(postings)
  {
    GroupsPartition(transactionIds, ByTransaction(postings));
    assert Values(ByTransaction(postings)) == postings;
  }
}
