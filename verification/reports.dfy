/** The read-only views: the transaction report with its optional date window,
    and the loan list. */
module Reports {
  import opened Wrappers
  import opened Ledger

  /** The rows a report lists and the figure it shows as its balance; `None`
      is the empty aggregate the database returns when no row is summed. */
  datatype Report = Report(records: seq<Transaction>, balance: Option<real>)

  /** Every account's records in the inclusive window `[start, end]`. */
  function Window(start: Day, end: Day): Lookup
  {
    Lookup(None, None, None, Some(start), Some(end))
  }

  /** `Sum('amount')` over every account's records in the window. */
  function WindowAggregate(txs: seq<Transaction>, start: Day, end: Day): (r: Option<real>)
    ensures r.None? <==> forall t :: t in txs ==> !(start <= t.day <= end)
    ensures r.Some? ==> r.value == SumAmounts(Select(txs, Window(start, end)))
  {
    var rows := Select(txs, Window(start, end));
    if rows == [] then None
    else
      assert rows[0] in txs;
      Some(SumAmounts(rows))
  }

  /** `TransactionReportView.get_queryset`. With both dates it lists this
      account's records whose date lies in the window, and shows the aggregate
      of the window over all accounts; with either date missing it lists all of
      the account's records and shows the current balance. */
  function TransactionReport(b: Bank, account: AccountId, start: Option<Day>, end: Option<Day>): (r: Report)
    requires account in b.balances
    ensures |r.records| <= |b.txs|
    ensures start.Some? && end.Some? ==>
              forall t {:trigger t in r.records} :: t in r.records <==> t in b.txs && t.account == account && start.value <= t.day <= end.value
    ensures start.Some? && end.Some? ==>
              forall t {:trigger multiset(r.records)[t]} :: multiset(r.records)[t]
                       == (if t.account == account && start.value <= t.day <= end.value then multiset(b.txs)[t] else 0)
    ensures start.Some? && end.Some? ==> r.balance == WindowAggregate(b.txs, start.value, end.value)
    ensures start.None? || end.None? ==>
              forall t {:trigger t in r.records} :: t in r.records <==> t in b.txs && t.account == account
    ensures start.None? || end.None? ==>
              forall t {:trigger multiset(r.records)[t]} :: multiset(r.records)[t] == (if t.account == account then multiset(b.txs)[t] else 0)
    ensures start.None? || end.None? ==> r.balance == Some(b.balances[account])
  {
    if start.Some? && end.Some? then
      var own := Window(start.value, end.value).(account := Some(account));
      SelectCounts(b.txs, own);
      Report(Select(b.txs, own), WindowAggregate(b.txs, start.value, end.value))
    else
      var own := Everything.(account := Some(account));
      SelectCounts(b.txs, own);
      Report(Select(b.txs, own), Some(b.balances[account]))
  }

  /** The dated aggregate is this account's own window total plus that of every
      other account: it is the account's figure only when nobody else has a
      record in the window. */
  lemma {:induction false} AggregateIncludesOtherAccounts(b: Bank, account: AccountId, start: Day, end: Day, i: nat)
    requires account in b.balances
    requires i < |b.txs| && start <= b.txs[i].day <= end
    ensures TransactionReport(b, account, Some(start), Some(end)).balance
         == Some(SumAmounts(TransactionReport(b, account, Some(start), Some(end)).records)
                 + SumOthers(b.txs, Window(start, end), account))
  {
    WindowAggregateSplits(b.txs, account, start, end, i);
    DatedReport(b, account, start, end);
  }

  lemma WindowAggregateSplits(txs: seq<Transaction>, account: AccountId, start: Day, end: Day, i: nat)
    requires i < |txs| && start <= txs[i].day <= end
    ensures WindowAggregate(txs, start, end)
         == Some(SumAmounts(Select(txs, Window(start, end).(account := Some(account))))
                 + SumOthers(txs, Window(start, end), account))
  {
    NonEmptyWindowAggregate(txs, i, start, end);
    SumSplitsByAccount(txs, Window(start, end), account);
  }

  lemma DatedReport(b: Bank, account: AccountId, start: Day, end: Day)
    requires account in b.balances
    ensures TransactionReport(b, account, Some(start), Some(end))
         == Report(Select(b.txs, Window(start, end).(account := Some(account))), WindowAggregate(b.txs, start, end))
  {
  }

  lemma NonEmptyWindowAggregate(txs: seq<Transaction>, i: nat, start: Day, end: Day)
    requires i < |txs| && start <= txs[i].day <= end
    ensures WindowAggregate(txs, start, end) == Some(SumAmounts(Select(txs, Window(start, end))))
  {
  }

  /** A report over two accounts with one deposit each on the same day: the
      first account's dated report lists only its own deposit but shows the
      sum of both. */
  lemma AggregateCountsForeignDeposit()
    ensures var b := Bank(map[1 := 100.0, 2 := 250.0], map[],
                          [NewRecord(1, 100.0, Deposit, 7, 100.0), NewRecord(2, 250.0, Deposit, 7, 250.0)]);
            var r := TransactionReport(b, 1, Some(7), Some(7));
            r.records == [NewRecord(1, 100.0, Deposit, 7, 100.0)] && r.balance == Some(350.0)
  {
    var b := Bank(map[1 := 100.0, 2 := 250.0], map[],
                  [NewRecord(1, 100.0, Deposit, 7, 100.0), NewRecord(2, 250.0, Deposit, 7, 250.0)]);
    var rows := Select(b.txs, Window(7, 7));
    assert b.txs[..1] == [b.txs[0]];
    assert [b.txs[0]][..0] == [];
    assert rows == b.txs;
    assert SumAmounts(rows) == 350.0;
  }

  /** The loans a user sees: `LoanListView.get_queryset`, every record of the
      account stored with the LOAN type, approved or not. Paid-off loans carry
      LOAN_PAID and drop out. */
  function LoanList(b: Bank, account: AccountId): (r: seq<Transaction>)
    ensures |r| <= |b.txs|
    ensures forall t :: t in r <==> t in b.txs && t.account == account && t.kind == Loan
    ensures forall t :: multiset(r)[t] == (if t.account == account && t.kind == Loan then multiset(b.txs)[t] else 0)
  {
    var loans := Lookup(Some(account), Some(LOAN_CODE), None, None, None);
    SelectCounts(b.txs, loans);
    Select(b.txs, loans)
  }
}
