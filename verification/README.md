# mamar-bank transactions, modelled in Dafny

This project models the `transactions` app of the mamar-bank Django site. It
covers the rules that decide whether a deposit, withdrawal, loan request, loan
payoff or transfer goes through, and how each one changes the balances and the
transaction table. It also covers the two read-only lists: the transaction
report and the loan list.

The bank is an immutable value, `Ledger.Bank`. It holds:

- a map from account id to balance;
- a map from username to the bank account that user owns, if any;
- the sequence of transaction records.

A record (`Ledger.Transaction`) holds:

- the account and the amount;
- the type;
- the day;
- the balance snapshot (`balance_after_transaction`);
- an optional recipient;
- the two loan flags, `loan_approve` and `loan_approved`.

Amounts are `real`, which is exact. The source's `Decimal` is exact only up to its context precision (28 significant digits by default) and the column's digit limit; the model does not round (see "Balance column limits" under "## Left out"). Dates are day
numbers. A loan's id is its index in the record sequence.

Modules follow the source files:

- `Ledger` (`ledger.dfy`) is the store. It holds the datatypes, the
  referential-integrity predicate `Valid`, and the bank-wide total `Total`. It
  also models the queryset filter: `Lookup` is a conjunction of field lookups,
  and `Select` applies one.
- `Forms` (`forms.dfy`) is `transactions/forms.py`. It has the per-type
  `clean_amount` validators, the recipient lookup, `TransactionForm.save` and
  `TransferForm.save`.
- `Views` (`views.dfy`) holds the `form_valid` of the deposit, withdraw, loan
  request and transfer views, and `PayLoanView.get`. Each returns
  `Step(bank, outcome)`: the bank afterwards, and either `Done` or
  `Rejected(reason)`.
- `Reports` (`reports.dfy`) holds `TransactionReportView.get_queryset` and
  `LoanListView.get_queryset`.
- `Banking` (`banking.dfy`) dispatches any request to its view. It proves the
  invariants that hold across all requests:
  - a rejection changes nothing;
  - referential integrity is kept;
  - balances stay non-negative;
  - the total moves by exactly the deposit, withdrawal or payoff amount;
  - a transfer to another account conserves money.

The type codes follow the declaration order DEPOSIT, WITHDRAWAL, LOAN,
LOAN_PAID, TRANSFER. Only LOAN = 3 and TRANSFER = 5 appear as literals in the
code, at transactions/views.py:135 and transactions/forms.py:124. The other
three codes are an assumption: `transactions/constants.py` is not part of this
model.

Some behaviours of the code are easy to miss. The model keeps each of them:

- **Payoff guard.** `PayLoanView.get` checks only `loan_approve`
  (transactions/views.py:185), not the record's type. A loan that is already
  LOAN_PAID is therefore paid again, from the balance once more.
  `Banking.PayoffRepeats` shows this.
- **Payoff scope.** The payoff looks the record up by id alone
  (transactions/views.py:183). It does not check that the loan belongs to the
  requesting user.
- **Payoff refusals.** A record without `loan_approve`, or one whose amount is
  not below the owner's balance, leads to a redirect, with a message in the
  second case (transactions/views.py:185-204). The model names these outcomes
  `LoanNotApproved` and `LoanExceedsBalance`.
- **Withdraw re-check.** The view compares the amount with the balance again
  (transactions/views.py:102). Run right after the form's own check
  (transactions/forms.py:56), it can never fire: `Views.WithdrawMoney` is never
  rejected with `Bankrupt`. It fires only when `Views.ApplyWithdrawal` sees a
  balance that changed after validation.
- **Recipient field.** The recipient is a `CharField` with `max_length=150`
  (transactions/forms.py:75). The field strips surrounding white space and
  refuses an empty value before `clean_recipient_username` looks the name up.
  A name typed with a stray space still finds its user.

## Model

| member | source | states |
|---|---|---|
| Forms.CleanDepositAmount | transactions/forms.py:27-35 | accepted exactly when amount >= 100; the accepted amount is returned unchanged; a rejection reports the 100 minimum |
| Forms.CleanWithdrawAmount | transactions/forms.py:40-62 | accepted exactly when 500 <= amount <= 20000 and amount <= balance; the reported reason is the first rule broken in the order minimum, maximum, balance |
| Forms.CleanLoanAmount | transactions/forms.py:67-70 | every loan amount passes, unchanged |
| Forms.CleanTransferAmount | transactions/forms.py:107-116 | accepted exactly when 0 < amount <= sender balance (the whole balance may be sent); non-positive amounts report NotPositive, larger ones the balance |
| Forms.CleanRecipient | transactions/forms.py:94-105 | rejected exactly when no user has the name or that user has no bank account; on success yields that user's account, which exists in a consistent store |
| Forms.Strip | transactions/forms.py:75 | the cleaned value is the slice of the input from its first to its last character that is not white space: everything cut off either side is white space, and the result neither starts nor ends with it |
| Forms.StripPadded | transactions/forms.py:75 | a name typed with white space around it cleans to that name |
| Forms.ResolvePadded | transactions/forms.py:75-105 | white space typed around a name of 1 to 150 characters does not change whom the recipient field resolves to: the result is the lookup of the bare name |
| Forms.CleanUsernameField | transactions/forms.py:75 | the recipient field accepts exactly a stripped value of 1 to 150 characters and yields it; an empty one is Required, a longer one TooLong(150) |
| Forms.ResolveRecipient | transactions/forms.py:75-105 | the recipient field resolves exactly when the stripped value passes the field checks and names a user with a bank account, yielding that account; a failure is Required exactly when the stripped value is empty, TooLong(150) exactly when it is longer than 150, and the unknown stripped name exactly when the field checks pass but the lookup fails |
| Forms.ValidateTransfer | transactions/forms.py:74-116 | the transfer form is valid exactly when 0 < amount <= balance and the recipient field resolves; otherwise it holds exactly one error per failing field, the amount error first and the recipient error last; NotPositive appears exactly when amount <= 0 and the balance error exactly when 0 < amount and the balance is below it |
| Forms.SaveRecord | transactions/forms.py:14-23 | appends one record for the form's account, with the view's type, the amount, no recipient and unset loan flags; its snapshot is that account's balance at save time; balances untouched, consistency kept |
| Forms.SaveTransfer | transactions/forms.py:118-132 | for distinct accounts: the sender loses exactly amount, the recipient gains exactly amount, their sum is unchanged, and no other balance moves; appends one TRANSFER (type 5) record from sender to recipient with the amount, the day and both loan flags unset, whose snapshot is the sender's new balance; earlier records and users untouched |
| Views.DepositMoney | transactions/views.py:67-87 | succeeds exactly when amount >= 100, raising the balance by exactly amount and appending a DEPOSIT record whose snapshot is the new balance; a rejection leaves the bank unchanged |
| Views.ApplyWithdrawal | transactions/views.py:98-121 | refuses (Bankrupt) exactly when amount exceeds the current balance, leaving the bank unchanged and saving nothing; otherwise lowers the balance by exactly amount, keeps it non-negative, and appends a WITHDRAWAL record with the new balance |
| Views.WithdrawMoney | transactions/views.py:90-121 | a withdrawal succeeds exactly when the form accepts it; a rejection carries exactly the one error the form reports, the first rule broken (the view's re-check never fires after the form's), and changes nothing |
| Views.RequestLoan | transactions/views.py:132-145 | refused exactly when the account already has 3 or more approved type-3 records; never changes any balance; on success appends an unapproved LOAN record holding the unchanged balance, so the approved count stays the same |
| Views.PayLoan | transactions/views.py:181-204 | goes through exactly when the id exists, the record has `loan_approve`, and its amount is strictly below the owner's balance; a missing id, an unset flag and a too-large amount each give their own refusal and change nothing; on success the owner's balance drops by the loan amount and stays strictly positive, and the record takes that balance, type LOAN_PAID and `loan_approved` |
| Views.TransferMoney | transactions/views.py:240-264 | succeeds exactly when the transfer form is valid; a rejection carries exactly the form's error list and changes nothing; on success users and earlier records are kept and one TRANSFER record of the amount, from the sender to the resolved recipient, with both loan flags unset, is appended; between distinct accounts the sender is debited and the recipient credited by amount, and the snapshot is the sender's new balance; consistency kept |
| Reports.WindowAggregate | transactions/views.py:164-166 | absent exactly when no record of any account lies in the inclusive window; otherwise the sum of the amounts of all accounts' records in it |
| Reports.TransactionReport | transactions/views.py:152-170 | with both dates: exactly this account's records dated within [start, end], each as often as the table holds it, and the all-accounts window aggregate; with either date missing: all of this account's records, each as often as stored, and the current balance |
| Reports.AggregateIncludesOtherAccounts | transactions/views.py:159-166 | when the window is not empty, the dated report's figure is the sum of its own listed records plus every other account's records in the window |
| Reports.AggregateCountsForeignDeposit | transactions/views.py:152-170 | a two-account example where the report lists one deposit of 100 but shows 350 |
| Reports.LoanList | transactions/views.py:212-216 | exactly the account's records of type 3, approved or not, each as often as the table holds it |
| Ledger.Select | transactions/views.py:153-163 | a queryset filter keeps exactly the records satisfying every lookup, and never more records than the table holds |
| Ledger.SelectCounts | transactions/views.py:153-163 | a filter keeps each matching record exactly as many times as the table holds it, and no other record |
| Ledger.SelectConcat | transactions/views.py:153-163 | filtering a table split in two is filtering each part and joining the results, so the filter keeps table order |
| Ledger.SelectCountUpdate | transactions/views.py:134-135 | rewriting one record changes a filter's count by exactly whether the old and the new version match |
| Ledger.SumSplitsByAccount | transactions/views.py:164-166 | a sum over a filter without an account lookup is one account's share plus the share of every other account |
| Banking.HandlePreservesInvariants | transactions/views.py:67-204 | every request keeps every foreign key valid, opens or closes no account, touches no user, changes nothing when rejected, and keeps every balance non-negative |
| Banking.MoneyConservation | transactions/views.py:67-204 | on success the bank's total grows by a deposit, shrinks by a withdrawal or a paid loan, is untouched by a loan request, and is unchanged by a transfer to another account |
| Banking.SnapshotMatchesBalance | transactions/forms.py:20-23 | the record a successful request writes or rewrites holds the balance its account has afterwards |
| Banking.PayoffFreesLoanSlot | transactions/views.py:134-195 | paying off an approved LOAN record lowers the owner's approved-loan count by one, because its type becomes LOAN_PAID |
| Banking.PayoffRepeats | transactions/views.py:182-196 | an approved loan already paid off is paid again: 1000 becomes 900 and then 800 |
| Banking.Session | transactions/views.py:59-121 | balance 1000; deposit 100 gives 1100; withdraw 600 gives 500; a second 600 is refused by the form with the balance error and changes nothing |
| Banking.PaddedTransfer | transactions/views.py:240-264 | a transfer of the whole balance of 500 to " bob" strips the name, resolves bob's account, leaves the sender with 0 and bob with 500, and writes one TRANSFER record with snapshot 0 |

## Left out

- E-mail: `send_transaction_email`, `send_email_transaction` and `send_mail` are mail-backend I/O. The model assumes every send succeeds. A failing send raises, and where that happens matters:
  - in the deposit and withdraw views the send runs after the balance is saved and before the record is saved (transactions/views.py:74 and 85, 112 and 119), so a failure there would leave a changed balance with no record;
  - in the loan request and transfer views it runs before anything is saved (transactions/views.py:143 and 257), so a failure there would change nothing.
  Unless requests are atomic, "a rejection changes nothing" and "the snapshot matches the balance" rely on sends succeeding.
- Loan flag defaults: records created by the forms are taken to have `loan_approve` and `loan_approved` both unset, the model fields' assumed defaults (`transactions/models.py` is not part of this model). `Views.RequestLoan`'s claim that a new request leaves the approved-loan count unchanged relies on this.
- Framework plumbing is not modelled. This covers `messages`, redirects, `HttpResponse`, templates, `LoginRequiredMixin`, `get_context_data`, `get_initial` and `print`. The loan-limit `HttpResponse` is modelled as a rejection. The view's initial type is passed to `SaveRecord` as its `kind` argument.
- Persistence: the ORM is replaced by the in-memory `Bank`. `get_object_or_404` becomes the `LoanNotFound` outcome. Field limits of the `Transaction` model, such as decimal digits, are not modelled: `transactions/models.py` is not part of this model.
- Balance column limits: `UserBankAccount.balance` is a decimal column with a fixed number of digits, while the model's balances are unbounded. Balances are written at transactions/views.py:73-74, 111-112 and 191-193 and transactions/forms.py:126-129. A deposit or a transfer credit that would push a balance past the column's limit is reported `Done` here, while the database would refuse the save. The Django model class that declares the column is not covered here.
- Users without a bank account: `request.user.account` (transactions/views.py:46, 69, 100, 135, 154, 213) raises for a signed-in user who has no bank account. The `users` map can record such a user as `None`, but `Banking.Admissible` only admits requests from an existing account, so these requests, and the error they raise, are not modelled.
- Concurrency: requests run one after another. The race between validation and mutation shows up only in that `ApplyWithdrawal` can be called with a balance that changed after validation.
- Date parsing: `strptime` and its failure on malformed dates are left out. Dates are day numbers, and a missing or empty parameter is `None`.
- The timestamp comes from the clock. The model takes it as the `day` argument of each request.
- The float formatting inside messages is left out.
- `.distinct()` in the report has no effect, because the query has no join. Records with the same field values stay separate rows.
- Loan approval is done by an administrator outside these views. The model starts from any bank whose records already carry the flag.
- Forms.SaveTransfer: states nothing for a transfer to the sender's own account. That result depends on the ORM keeping two separate objects for one row: the model computes the last write, so the balance ends up raised by the amount, but no property is claimed.
- Views.TransferMoney: as for `SaveTransfer`, the balances after a transfer to one's own account are left unstated.
- Banking.MoneyConservation: says nothing about the total after a transfer to one's own account, for the same reason.
- Banking.SnapshotMatchesBalance: leaves out transfers to one's own account, whose snapshot is the debited balance.
- Forms.CleanUsernameField: models stripping, the required check and `max_length=150`, but not Django's validator that rejects a value containing the null character. Such a name is looked up like any other, and no user holds it.
- Ledger.Select: its own contract states which records are kept and bounds the count. Repeated rows are stated by `Ledger.SelectCounts`, and table order by `Ledger.SelectConcat`.
- Reports.TransactionReport: states membership and multiplicity of the listed records, not their order. The queryset (transactions/views.py:153-170) has no `order_by`, so the order comes from the `Transaction` model's default ordering, if it declares one, or else from the database. `transactions/models.py` is not part of this model, so the order is left unstated; the model lists records in table order.
- Reports.LoanList: states membership and multiplicity, not the list's order. The queryset (transactions/views.py:214) has no `order_by` either, for the same reason.
