/** The views that change the bank: deposit, withdraw, loan request, loan
    payoff and transfer. Each runs its form's validation and then the view's own
    checks, and returns the resulting bank together with what happened. */
module Views {
  import opened Wrappers
  import opened Ledger
  import opened Forms

  /** Why a request changed nothing. */
  datatype Error =
    | FormInvalid(errors: seq<FieldError>)
    | Bankrupt
    | LoanLimitReached
    | LoanNotFound
    | LoanNotApproved
    | LoanExceedsBalance

  datatype Outcome = Done | Rejected(reason: Error)

  /** The bank after a request, and whether the request went through. */
  datatype Step = Step(bank: Bank, outcome: Outcome)

  /** An account may hold at most this many approved, unpaid loans. */
  const LOAN_LIMIT: nat := 3

  /** The loans of `account` that count towards the limit: type LOAN with the
      approval flag set. */
  function ApprovedLoanLookup(account: AccountId): Lookup
  {
    Lookup(Some(account), Some(LOAN_CODE), Some(true), None, None)
  }

  function ApprovedLoans(txs: seq<Transaction>, account: AccountId): nat
  {
    |Select(txs, ApprovedLoanLookup(account))|
  }

  /** `b'` is `b` with exactly one record appended for `account`, and that
      record's snapshot is the balance `account` has in `b'`. */
  predicate Recorded(b: Bank, b': Bank, account: AccountId, amount: real, kind: TxType, day: Day)
  {
    && account in b'.balances
    && b'.users == b.users
    && b'.txs == b.txs + [NewRecord(account, amount, kind, day, b'.balances[account])]
  }

  /** `DepositMoneyView.form_valid` after `DepositForm` validation: the balance
      is raised first and the form saved afterwards. */
  function DepositMoney(b: Bank, account: AccountId, amount: real, day: Day): (s: Step)
    requires account in b.balances
    ensures s.outcome.Done? <==> amount >= MIN_DEPOSIT
    ensures s.outcome.Rejected? ==> s.bank == b && s.outcome.reason == FormInvalid([BelowMinimum(MIN_DEPOSIT)])
    ensures s.outcome.Done? ==> s.bank.balances == b.balances[account := b.balances[account] + amount]
    ensures s.outcome.Done? ==> Recorded(b, s.bank, account, amount, Deposit, day)
  {
    match CleanDepositAmount(amount)
    case Failure(e) => Step(b, Rejected(FormInvalid([e])))
    case Success(a) =>
      var credited := b.(balances := b.balances[account := b.balances[account] + a]);
      Step(SaveRecord(credited, account, a, Deposit, day), Done)
  }

  /** `WithdrawMoneyView.form_valid`: the balance is checked again when the money
      is taken; a shortfall aborts without saving anything. */
  function ApplyWithdrawal(b: Bank, account: AccountId, amount: real, day: Day): (s: Step)
    requires account in b.balances
    ensures s.outcome.Rejected? <==> amount > b.balances[account]
    ensures s.outcome.Rejected? ==> s.bank == b && s.outcome.reason == Bankrupt
    ensures s.outcome.Done? ==> s.bank.balances == b.balances[account := b.balances[account] - amount]
    ensures s.outcome.Done? ==> s.bank.balances[account] >= 0.0
    ensures s.outcome.Done? ==> Recorded(b, s.bank, account, amount, Withdrawal, day)
  {
    if amount > b.balances[account] then Step(b, Rejected(Bankrupt))
    else
      var debited := b.(balances := b.balances[account := b.balances[account] - amount]);
      Step(SaveRecord(debited, account, amount, Withdrawal, day), Done)
  }

  /** A withdrawal request: `WithdrawForm` validation against the balance, then
      the view. Run in sequence, the view's re-check can never fail. */
  function WithdrawMoney(b: Bank, account: AccountId, amount: real, day: Day): (s: Step)
    requires account in b.balances
    ensures s.outcome.Done? <==> MIN_WITHDRAW <= amount <= MAX_WITHDRAW && amount <= b.balances[account]
    ensures s.outcome.Rejected? ==> s.bank == b
    ensures s.outcome.Rejected? ==> s.outcome.reason == FormInvalid([CleanWithdrawAmount(amount, b.balances[account]).error])
    ensures s.outcome.Done? ==> s.bank.balances == b.balances[account := b.balances[account] - amount]
    ensures s.outcome.Done? ==> Recorded(b, s.bank, account, amount, Withdrawal, day)
  {
    match CleanWithdrawAmount(amount, b.balances[account])
    case Failure(e) => Step(b, Rejected(FormInvalid([e])))
    case Success(a) => ApplyWithdrawal(b, account, a, day)
  }

  /** `LoanRequestView.form_valid`: the request is refused once the account has
      LOAN_LIMIT approved loans; otherwise an unapproved LOAN record is saved.
      No balance moves: the money arrives only through administration. */
  function RequestLoan(b: Bank, account: AccountId, amount: real, day: Day): (s: Step)
    requires account in b.balances
    ensures s.bank.balances == b.balances
    ensures s.outcome.Rejected? <==> ApprovedLoans(b.txs, account) >= LOAN_LIMIT
    ensures s.outcome.Rejected? ==> s.bank == b && s.outcome.reason == LoanLimitReached
    ensures s.outcome.Done? ==> Recorded(b, s.bank, account, amount, Loan, day)
    ensures s.outcome.Done? ==> s.bank.txs[|b.txs|].balanceAfter == b.balances[account]
    ensures ApprovedLoans(s.bank.txs, account) == ApprovedLoans(b.txs, account)
  {
    var a := CleanLoanAmount(amount).value;
    if ApprovedLoans(b.txs, account) >= LOAN_LIMIT then Step(b, Rejected(LoanLimitReached))
    else
      var b' := SaveRecord(b, account, a, Loan, day);
      SelectAppend(b.txs, b'.txs[|b.txs|], ApprovedLoanLookup(account));
      Step(b', Done)
  }

  /** The loan record `loanId` once paid off from `b`: the owner's balance has
      dropped by the loan amount and stays strictly positive, and the record
      now holds that balance, the LOAN_PAID type and the paid flag. */
  predicate PaidOff(b: Bank, b': Bank, loanId: nat)
  {
    && loanId < |b.txs|
    && var loan := b.txs[loanId];
    && loan.account in b.balances
    && b'.users == b.users
    && b'.balances == b.balances[loan.account := b.balances[loan.account] - loan.amount]
    && b'.balances[loan.account] > 0.0
    && b'.txs == b.txs[loanId := loan.(kind := LoanPaid, balanceAfter := b'.balances[loan.account], loanApproved := true)]
  }

  /** `PayLoanView.get`: any record whose approval flag is set can be paid off,
      from its owner's balance, provided the amount is strictly below that
      balance. Neither the requester nor the record's current type is checked. */
  function PayLoan(b: Bank, loanId: nat): (s: Step)
    requires Valid(b)
    ensures s.outcome.Rejected? ==> s.bank == b
    ensures s.outcome == Rejected(LoanNotFound) <==> loanId >= |b.txs|
    ensures loanId < |b.txs| ==> (s.outcome == Rejected(LoanNotApproved) <==> !b.txs[loanId].loanApprove)
    ensures loanId < |b.txs| && b.txs[loanId].loanApprove ==>
              (s.outcome == Rejected(LoanExceedsBalance) <==> b.txs[loanId].amount >= b.balances[b.txs[loanId].account])
    ensures s.outcome.Done? <==>
              loanId < |b.txs| && b.txs[loanId].loanApprove && b.txs[loanId].amount < b.balances[b.txs[loanId].account]
    ensures s.outcome.Done? ==> PaidOff(b, s.bank, loanId)
  {
    if loanId >= |b.txs| then Step(b, Rejected(LoanNotFound))
    else
      var loan := b.txs[loanId];
      if !loan.loanApprove then Step(b, Rejected(LoanNotApproved))
      else
        assert RecordValid(b.balances, b.txs[loanId]);
        var balance := b.balances[loan.account];
        if loan.amount < balance then
          var remaining := balance - loan.amount;
          var paid := loan.(balanceAfter := remaining, loanApproved := true, kind := LoanPaid);
          Step(Bank(b.balances[loan.account := remaining], b.users, b.txs[loanId := paid]), Done)
        else Step(b, Rejected(LoanExceedsBalance))
  }

  /** `TransferMoneyView.form_valid` after `TransferForm` validation: the form's
      save moves the money and writes the TRANSFER record. `rawUsername` is the
      recipient field exactly as submitted. */
  function TransferMoney(b: Bank, sender: AccountId, amount: real, rawUsername: string, day: Day): (s: Step)
    requires Valid(b) && sender in b.balances
    ensures s.outcome.Done? <==> 0.0 < amount <= b.balances[sender] && ResolveRecipient(b, rawUsername).Success?
    ensures s.outcome.Rejected? ==> s.bank == b
    ensures s.outcome.Rejected? ==> s.outcome.reason == FormInvalid(ValidateTransfer(b, sender, amount, rawUsername).error)
    ensures s.outcome.Done? ==> ResolveRecipient(b, rawUsername).value in b.balances
    ensures s.outcome.Done? ==> s.bank.users == b.users && s.bank.balances.Keys == b.balances.Keys
    ensures s.outcome.Done? && sender != ResolveRecipient(b, rawUsername).value ==>
              var to := ResolveRecipient(b, rawUsername).value;
              s.bank.balances == b.balances[sender := b.balances[sender] - amount][to := b.balances[to] + amount]
    ensures s.outcome.Done? ==>
              && |s.bank.txs| == |b.txs| + 1
              && s.bank.txs[..|b.txs|] == b.txs
              && s.bank.txs[|b.txs|].account == sender
              && s.bank.txs[|b.txs|].amount == amount
              && s.bank.txs[|b.txs|].kind == Transfer
              && s.bank.txs[|b.txs|].day == day
              && !s.bank.txs[|b.txs|].loanApprove && !s.bank.txs[|b.txs|].loanApproved
              && s.bank.txs[|b.txs|].recipient == Some(ResolveRecipient(b, rawUsername).value)
    ensures s.outcome.Done? && sender != ResolveRecipient(b, rawUsername).value ==>
              s.bank.txs[|b.txs|].balanceAfter == s.bank.balances[sender]
    ensures Valid(s.bank)
  {
    match ValidateTransfer(b, sender, amount, rawUsername)
    case Failure(errors) => Step(b, Rejected(FormInvalid(errors)))
    case Success(order) => Step(SaveTransfer(b, sender, order.recipient, order.amount, day), Done)
  }
}
