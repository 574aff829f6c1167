/** The persistent state the transactions app reads and writes: account
    balances, the users that may own an account, and the append-mostly list of
    transaction records, together with the queryset filters the views run over
    those records. */
module Ledger {
  import opened Wrappers

  type AccountId = nat
  type Username = string
  /** A calendar date as an ordered day number. */
  type Day = int

  /** The values of the `transaction_type` column. */
  datatype TxType = Deposit | Withdrawal | Loan | LoanPaid | Transfer

  /** The literal the loan views filter on. */
  const LOAN_CODE: int := 3
  /** The literal the transfer form stores. */
  const TRANSFER_CODE: int := 5

  /** The integer stored for each type. Only LOAN and TRANSFER appear as
      literals in the views and forms; the others follow the declaration order. */
  function Code(k: TxType): int
  {
    match k
    case Deposit => 1
    case Withdrawal => 2
    case Loan => LOAN_CODE
    case LoanPaid => 4
    case Transfer => TRANSFER_CODE
  }

  /** One row of the transaction table. `balanceAfter` is the audit snapshot of
      the owning account's balance; `loanApprove` is the eligibility flag an
      administrator sets, `loanApproved` the flag the payoff sets. */
  datatype Transaction = Transaction(
    account: AccountId,
    amount: real,
    kind: TxType,
    day: Day,
    balanceAfter: real,
    recipient: Option<AccountId>,
    loanApprove: bool,
    loanApproved: bool)

  /** A record as the forms create it: no recipient and both loan flags at
      their default. */
  function NewRecord(account: AccountId, amount: real, kind: TxType, day: Day, snapshot: real): Transaction
  {
    Transaction(account, amount, kind, day, snapshot, None, false, false)
  }

  /** `users` maps every username to the bank account it owns, if any. */
  datatype Bank = Bank(
    balances: map<AccountId, real>,
    users: map<Username, Option<AccountId>>,
    txs: seq<Transaction>)

  /** The record's foreign keys point at existing accounts. */
  predicate RecordValid(balances: map<AccountId, real>, t: Transaction)
  {
    && t.account in balances
    && (t.recipient.Some? ==> t.recipient.value in balances)
  }

  /** Referential integrity of the relational store. */
  predicate Valid(b: Bank)
  {
    && (forall i :: 0 <= i < |b.txs| ==> RecordValid(b.balances, b.txs[i]))
    && (forall u :: u in b.users && b.users[u].Some? ==> b.users[u].value in b.balances)
  }

  /** Every balance is non-negative. */
  predicate NonNegative(b: Bank)
  {
    forall a :: a in b.balances ==> b.balances[a] >= 0.0
  }

  /** Sum of all balances held by the bank. */
  ghost function Total(m: map<AccountId, real>): real
    decreases |m|
  {
    if m == map[] then 0.0
    else
      var k :| k in m;
      assert (m - {k}).Keys == m.Keys - {k};
      m[k] + Total(m - {k})
  }

  /** The total may be computed by taking out any account first. */
  lemma {:induction false} TotalRemove(m: map<AccountId, real>, k: AccountId)
    requires k in m
    ensures Total(m) == m[k] + Total(m - {k})
    decreases |m|
  {
    var j :| j in m && Total(m) == m[j] + Total(m - {j});
    if j != k {
      assert (m - {j}).Keys == m.Keys - {j};
      assert (m - {k}).Keys == m.Keys - {k};
      TotalRemove(m - {j}, k);
      TotalRemove(m - {k}, j);
      assert m - {j} - {k} == m - {k} - {j};
    }
  }

  /** Overwriting one balance changes the total by exactly the difference. */
  lemma TotalUpdate(m: map<AccountId, real>, k: AccountId, v: real)
    requires k in m
    ensures Total(m[k := v]) == Total(m) - m[k] + v
  {
    TotalRemove(m, k);
    TotalRemove(m[k := v], k);
    assert m[k := v] - {k} == m - {k};
  }

  /** A conjunction of field lookups, as passed to `Transaction.objects.filter`;
      `None` leaves a field unconstrained. The day bounds are inclusive. */
  datatype Lookup = Lookup(
    account: Option<AccountId>,
    code: Option<int>,
    loanApprove: Option<bool>,
    fromDay: Option<Day>,
    toDay: Option<Day>)

  const Everything: Lookup := Lookup(None, None, None, None, None)

  predicate Matches(q: Lookup, t: Transaction)
  {
    && (q.account.Some? ==> t.account == q.account.value)
    && (q.code.Some? ==> Code(t.kind) == q.code.value)
    && (q.loanApprove.Some? ==> t.loanApprove == q.loanApprove.value)
    && (q.fromDay.Some? ==> q.fromDay.value <= t.day)
    && (q.toDay.Some? ==> t.day <= q.toDay.value)
  }

  /** The records matching `q`, in table order. */
  function Select(txs: seq<Transaction>, q: Lookup): (r: seq<Transaction>)
    ensures |r| <= |txs|
    ensures forall t :: t in r <==> t in txs && Matches(q, t)
    ensures forall i :: 0 <= i < |r| ==> Matches(q, r[i])
  {
    if txs == [] then []
    else
      var rest := Select(txs[..|txs| - 1], q);
      var last := txs[|txs| - 1];
      assert txs == txs[..|txs| - 1] + [last];
      if Matches(q, last) then rest + [last] else rest
  }

  /** Appending a record extends the selection by that record exactly when it
      matches. */
  lemma SelectAppend(txs: seq<Transaction>, t: Transaction, q: Lookup)
    ensures Select(txs + [t], q) == Select(txs, q) + (if Matches(q, t) then [t] else [])
  {
  }

  /** A filter keeps every matching record as many times as the table holds
      it, and no other record. */
  lemma {:induction false} SelectCounts(txs: seq<Transaction>, q: Lookup)
    ensures forall t :: multiset(Select(txs, q))[t] == (if Matches(q, t) then multiset(txs)[t] else 0)
    decreases |txs|
  {
    if txs != [] {
      var init := txs[..|txs| - 1];
      var last := txs[|txs| - 1];
      assert txs == init + [last];
      SelectCounts(init, q);
      SelectAppend(init, last, q);
    }
  }

  /** Filtering a table split in two filters each part in turn, so the
      selection keeps the table's order. */
  lemma {:induction false} SelectConcat(xs: seq<Transaction>, ys: seq<Transaction>, q: Lookup)
    ensures Select(xs + ys, q) == Select(xs, q) + Select(ys, q)
    decreases |ys|
  {
    if ys == [] {
      assert xs + ys == xs;
    } else {
      var init := ys[..|ys| - 1];
      var last := ys[|ys| - 1];
      assert ys == init + [last];
      var tail := if Matches(q, last) then [last] else [];
      calc {
        Select(xs + ys, q);
        { assert xs + ys == (xs + init) + [last]; }
        Select((xs + init) + [last], q);
        { SelectAppend(xs + init, last, q); }
        Select(xs + init, q) + tail;
        { SelectConcat(xs, init, q); }
        (Select(xs, q) + Select(init, q)) + tail;
        Select(xs, q) + (Select(init, q) + tail);
        { SelectAppend(init, last, q); }
        Select(xs, q) + Select(ys, q);
      }
    }
  }

  /** Replacing one record changes the number selected by exactly whether the
      old and the new record match. */
  lemma {:induction false} SelectCountUpdate(txs: seq<Transaction>, i: nat, t: Transaction, q: Lookup)
    requires i < |txs|
    ensures |Select(txs[i := t], q)|
         == |Select(txs, q)| - (if Matches(q, txs[i]) then 1 else 0) + (if Matches(q, t) then 1 else 0)
    decreases |txs|
  {
    var n := |txs| - 1;
    var init := txs[..n];
    var init' := txs[i := t][..n];
    if i == n {
      assert init' == init;
    } else {
      assert init' == init[i := t];
      SelectCountUpdate(init, i, t, q);
    }
  }

  /** `aggregate(Sum('amount'))` over a list of records. */
  function SumAmounts(txs: seq<Transaction>): real
  {
    if txs == [] then 0.0 else SumAmounts(txs[..|txs| - 1]) + txs[|txs| - 1].amount
  }

  /** Sum of the amounts of the records matching `q` whose account is not `a`. */
  ghost function SumOthers(txs: seq<Transaction>, q: Lookup, a: AccountId): real
  {
    if txs == [] then 0.0
    else
      var last := txs[|txs| - 1];
      SumOthers(txs[..|txs| - 1], q, a) + (if Matches(q, last) && last.account != a then last.amount else 0.0)
  }

  lemma SumAmountsAppend(xs: seq<Transaction>, t: Transaction)
    ensures SumAmounts(xs + [t]) == SumAmounts(xs) + t.amount
  {
  }

  /** A filter with no account constraint sums to the account's own share plus
      everybody else's. */
  lemma {:induction false} SumSplitsByAccount(txs: seq<Transaction>, q: Lookup, a: AccountId)
    requires q.account.None?
    ensures SumAmounts(Select(txs, q))
         == SumAmounts(Select(txs, q.(account := Some(a)))) + SumOthers(txs, q, a)
    decreases |txs|
  {
    if txs != [] {
      var init := txs[..|txs| - 1];
      var last := txs[|txs| - 1];
      var own := q.(account := Some(a));
      SumSplitsByAccount(init, q, a);
      assert txs == init + [last];
      SelectAppend(init, last, q);
      SelectAppend(init, last, own);
      if Matches(q, last) {
        SumAmountsAppend(Select(init, q), last);
        if last.account == a {
          SumAmountsAppend(Select(init, own), last);
        }
      }
    }
  }
}
