/** The bank as a whole: every request a signed-in user can make, dispatched to
    its view, and the properties that hold across all of them. */
module Banking {
  import opened Wrappers
  import opened Ledger
  import opened Forms
  import opened Views

  datatype Request =
    | DepositRequest(account: AccountId, amount: real)
    | WithdrawRequest(account: AccountId, amount: real)
    | LoanRequest(account: AccountId, amount: real)
    | TransferRequest(account: AccountId, amount: real, recipient: string)
    | PayLoanRequest(loanId: nat)

  /** The store is consistent and the requester's account exists. */
  predicate Admissible(b: Bank, req: Request)
  {
    && Valid(b)
    && (!req.PayLoanRequest? ==> req.account in b.balances)
  }

  /** Runs one request on day `day`. */
  function Handle(b: Bank, req: Request, day: Day): Step
    requires Admissible(b, req)
  {
    match req
    case DepositRequest(account, amount) => DepositMoney(b, account, amount, day)
    case WithdrawRequest(account, amount) => WithdrawMoney(b, account, amount, day)
    case LoanRequest(account, amount) => RequestLoan(b, account, amount, day)
    case TransferRequest(account, amount, recipient) => TransferMoney(b, account, amount, recipient, day)
    case PayLoanRequest(loanId) => PayLoan(b, loanId)
  }

  /** A transfer to another user's account, as opposed to one whose recipient
      is the sender's own account. */
  predicate ToOtherAccount(b: Bank, req: Request)
  {
    req.TransferRequest? && ResolveRecipient(b, req.recipient).Success?
      && ResolveRecipient(b, req.recipient).value != req.account
  }

  /** Replacing the balances by a map over the same accounts keeps every
      reference valid. */
  lemma Rebalanced(b: Bank, m: map<AccountId, real>)
    requires Valid(b) && m.Keys == b.balances.Keys
    ensures Valid(b.(balances := m))
  {
    forall i | 0 <= i < |b.txs|
      ensures RecordValid(m, b.txs[i])
    {
      assert RecordValid(b.balances, b.txs[i]);
    }
  }

  /** Every request keeps the store consistent, never opens or closes an
      account, never touches the users, and a rejected request changes nothing.
      No request can drive a balance below zero. */
  lemma HandlePreservesInvariants(b: Bank, req: Request, day: Day)
    requires Admissible(b, req)
    ensures Valid(Handle(b, req, day).bank)
    ensures Handle(b, req, day).bank.users == b.users
    ensures Handle(b, req, day).bank.balances.Keys == b.balances.Keys
    ensures Handle(b, req, day).outcome.Rejected? ==> Handle(b, req, day).bank == b
    ensures NonNegative(b) ==> NonNegative(Handle(b, req, day).bank)
  {
    var s := Handle(b, req, day);
    match req
    case DepositRequest(account, amount) =>
      if s.outcome.Done? {
        Rebalanced(b, b.balances[account := b.balances[account] + amount]);
      }
    case WithdrawRequest(account, amount) =>
      if s.outcome.Done? {
        Rebalanced(b, b.balances[account := b.balances[account] - amount]);
      }
    case LoanRequest(account, amount) =>
      if s.outcome.Done? {
        assert s.bank == SaveRecord(b, account, amount, Loan, day);
      }
    case TransferRequest(account, amount, recipient) =>
    case PayLoanRequest(loanId) =>
      if s.outcome.Done? {
        var loan := b.txs[loanId];
        var paid := s.bank.txs[loanId];
        assert RecordValid(b.balances, loan);
        forall i | 0 <= i < |s.bank.txs|
          ensures RecordValid(s.bank.balances, s.bank.txs[i])
        {
          assert RecordValid(b.balances, b.txs[i]);
        }
      }
  }

  /** Where the money goes: a deposit adds its amount to the bank's total, a
      withdrawal and a loan payoff take theirs out, a loan request moves
      nothing, and a transfer to another account only moves money between
      the two accounts. */
  lemma {:induction false} MoneyConservation(b: Bank, req: Request, day: Day)
    requires Admissible(b, req)
    requires Handle(b, req, day).outcome.Done?
    ensures req.DepositRequest? ==> Total(Handle(b, req, day).bank.balances) == Total(b.balances) + req.amount
    ensures req.WithdrawRequest? ==> Total(Handle(b, req, day).bank.balances) == Total(b.balances) - req.amount
    ensures req.LoanRequest? ==> Handle(b, req, day).bank.balances == b.balances
    ensures ToOtherAccount(b, req) ==> Total(Handle(b, req, day).bank.balances) == Total(b.balances)
    ensures req.PayLoanRequest? ==>
              req.loanId < |b.txs| && Total(Handle(b, req, day).bank.balances) == Total(b.balances) - b.txs[req.loanId].amount
  {
    match req
    case DepositRequest(account, amount) =>
      DepositTotal(b, account, amount, day);
    case WithdrawRequest(account, amount) =>
      WithdrawTotal(b, account, amount, day);
    case LoanRequest(account, amount) =>
    case TransferRequest(account, amount, recipient) =>
      if ToOtherAccount(b, req) {
        TransferTotal(b, account, amount, recipient, day);
      }
    case PayLoanRequest(loanId) =>
      PayLoanTotal(b, loanId);
  }

  lemma DepositTotal(b: Bank, account: AccountId, amount: real, day: Day)
    requires account in b.balances && DepositMoney(b, account, amount, day).outcome.Done?
    ensures Total(DepositMoney(b, account, amount, day).bank.balances) == Total(b.balances) + amount
  {
    TotalUpdate(b.balances, account, b.balances[account] + amount);
  }

  lemma WithdrawTotal(b: Bank, account: AccountId, amount: real, day: Day)
    requires account in b.balances && WithdrawMoney(b, account, amount, day).outcome.Done?
    ensures Total(WithdrawMoney(b, account, amount, day).bank.balances) == Total(b.balances) - amount
  {
    TotalUpdate(b.balances, account, b.balances[account] - amount);
  }

  lemma TransferTotal(b: Bank, sender: AccountId, amount: real, raw: string, day: Day)
    requires Valid(b) && sender in b.balances && TransferMoney(b, sender, amount, raw, day).outcome.Done?
    requires ResolveRecipient(b, raw).value != sender
    ensures Total(TransferMoney(b, sender, amount, raw, day).bank.balances) == Total(b.balances)
  {
    var to := ResolveRecipient(b, raw).value;
    var debited := b.balances[sender := b.balances[sender] - amount];
    TotalUpdate(b.balances, sender, b.balances[sender] - amount);
    TotalUpdate(debited, to, b.balances[to] + amount);
  }

  lemma PayLoanTotal(b: Bank, loanId: nat)
    requires Valid(b) && PayLoan(b, loanId).outcome.Done?
    ensures loanId < |b.txs| && Total(PayLoan(b, loanId).bank.balances) == Total(b.balances) - b.txs[loanId].amount
  {
    var loan := b.txs[loanId];
    TotalUpdate(b.balances, loan.account, b.balances[loan.account] - loan.amount);
  }

  /** The audit snapshot of the record a successful request writes is the
      balance its account holds afterwards; for a transfer that is the
      sender's, when the recipient is another account. */
  lemma SnapshotMatchesBalance(b: Bank, req: Request, day: Day)
    requires Admissible(b, req)
    requires Handle(b, req, day).outcome.Done?
    requires req.TransferRequest? ==> ToOtherAccount(b, req)
    ensures !req.PayLoanRequest? ==>
              |Handle(b, req, day).bank.txs| == |b.txs| + 1
              && Handle(b, req, day).bank.txs[|b.txs|].account == req.account
              && Handle(b, req, day).bank.txs[|b.txs|].balanceAfter == Handle(b, req, day).bank.balances[req.account]
    ensures req.PayLoanRequest? ==>
              req.loanId < |b.txs|
              && Handle(b, req, day).bank.txs[req.loanId].balanceAfter
                 == Handle(b, req, day).bank.balances[b.txs[req.loanId].account]
  {
  }

  /** Paying off an approved LOAN record frees one slot under the loan limit,
      because the record's type becomes LOAN_PAID. */
  lemma PayoffFreesLoanSlot(b: Bank, loanId: nat)
    requires Valid(b)
    requires PayLoan(b, loanId).outcome.Done?
    ensures loanId < |b.txs|
    ensures ApprovedLoans(PayLoan(b, loanId).bank.txs, b.txs[loanId].account)
         == ApprovedLoans(b.txs, b.txs[loanId].account) - (if b.txs[loanId].kind == Loan then 1 else 0)
  {
    var loan := b.txs[loanId];
    var s := PayLoan(b, loanId);
    var q := ApprovedLoanLookup(loan.account);
    SelectCountUpdate(b.txs, loanId, s.bank.txs[loanId], q);
    assert s.bank.txs == b.txs[loanId := s.bank.txs[loanId]];
    assert !Matches(q, s.bank.txs[loanId]);
  }

  /** A payoff is not guarded by the record's type, so a record that is
      already LOAN_PAID but still approved is paid a second time. */
  lemma PayoffRepeats()
    ensures var b := Bank(map[1 := 1000.0], map[], [Transaction(1, 100.0, Loan, 0, 1000.0, None, true, false)]);
            var first := PayLoan(b, 0);
            var second := PayLoan(first.bank, 0);
            && first.outcome.Done? && first.bank.txs[0].kind == LoanPaid
            && second.outcome.Done? && second.bank.balances[1] == 800.0
  {
    var b := Bank(map[1 := 1000.0], map[], [Transaction(1, 100.0, Loan, 0, 1000.0, None, true, false)]);
    assert RecordValid(b.balances, b.txs[0]);
    var first := PayLoan(b, 0);
    assert first.bank.txs[0].account == 1 && first.bank.txs[0].loanApprove;
    assert RecordValid(first.bank.balances, first.bank.txs[0]);
  }

  /** A worked session: 1000 in the account; deposit 100; withdraw 600; a
      second withdrawal of 600 is refused by the form and changes nothing. */
  lemma Session()
    ensures
      var b0 := Bank(map[1 := 1000.0, 2 := 0.0], map["alice" := Some(1), "bob" := Some(2)], []);
      var s1 := Handle(b0, DepositRequest(1, 100.0), 1);
      var s2 := Handle(s1.bank, WithdrawRequest(1, 600.0), 1);
      var s3 := Handle(s2.bank, WithdrawRequest(1, 600.0), 2);
      && s1.outcome.Done? && s1.bank.balances[1] == 1100.0
      && s2.outcome.Done? && s2.bank.balances[1] == 500.0
      && s3.outcome == Rejected(FormInvalid([InsufficientBalance(500.0)])) && s3.bank == s2.bank
      && |s3.bank.txs| == 2
  {
    var b0 := Bank(map[1 := 1000.0, 2 := 0.0], map["alice" := Some(1), "bob" := Some(2)], []);
    assert Valid(b0);
    var s1 := Handle(b0, DepositRequest(1, 100.0), 1);
    HandlePreservesInvariants(b0, DepositRequest(1, 100.0), 1);
    var s2 := Handle(s1.bank, WithdrawRequest(1, 600.0), 1);
    HandlePreservesInvariants(s1.bank, WithdrawRequest(1, 600.0), 1);
  }

  /** A transfer whose recipient is typed with a stray leading space: the form
      strips it, finds "bob", and the sender's whole balance of 500 moves to
      bob's empty account. */
  lemma PaddedTransfer(b: Bank)
    requires Valid(b) && b.txs == []
    requires b.balances == map[1 := 500.0, 2 := 0.0] && b.users == map["alice" := Some(1), "bob" := Some(2)]
    ensures ResolveRecipient(b, " bob") == Success(2)
    ensures TransferMoney(b, 1, 500.0, " bob", 2)
         == Step(Bank(map[1 := 0.0, 2 := 500.0], b.users, [Transaction(1, 500.0, Transfer, 2, 0.0, Some(2), false, false)]), Done)
  {
    PaddedRecipient(b);
    assert ValidateTransfer(b, 1, 500.0, " bob") == Success(TransferOrder(500.0, 2));
    assert SaveTransfer(b, 1, 2, 500.0, 2).balances == map[1 := 0.0, 2 := 500.0];
  }

  /** The recipient field resolves " bob" to bob's account. */
  lemma PaddedRecipient(b: Bank)
    requires b.users == map["alice" := Some(1), "bob" := Some(2)]
    ensures Strip(" bob") == "bob"
    ensures ResolveRecipient(b, " bob") == Success(2)
  {
    PaddedName();
    PaddedNameResolves(b);
    BobLookup(b);
  }

  /** " bob" strips to "bob". */
  lemma PaddedName()
    ensures Strip(" bob") == "bob"
  {
    PaddedNameParts();
    StripPadded(" ", "bob", "");
  }

  /** " bob" resolves like "bob". */
  lemma PaddedNameResolves(b: Bank)
    ensures ResolveRecipient(b, " bob") == CleanRecipient(b, "bob")
  {
    PaddedNameParts();
    ResolvePadded(b, " ", "bob", "");
  }

  /** " bob" is a space followed by a name without white space at its ends. */
  lemma PaddedNameParts()
    ensures AllSpace(" ") && AllSpace("")
    ensures 0 < |"bob"| <= USERNAME_MAX_LENGTH && !IsSpace("bob"[0]) && !IsSpace("bob"[|"bob"| - 1])
    ensures " " + "bob" + "" == " bob"
  {
    assert " " + "bob" + "" == " bob";
    assert " "[1..] == "";
  }

  /** The account lookup behind `PaddedRecipient`: "bob" names account 2. */
  lemma BobLookup(b: Bank)
    requires b.users == map["alice" := Some(1), "bob" := Some(2)]
    ensures CleanRecipient(b, "bob") == Success(2)
  {
    assert b.users["bob"] == Some(2);
  }
}
