/** The transaction forms: per-type amount validators, the transfer recipient
    lookup, and the two `save` methods that write a transaction record. */
module Forms {
  import opened Wrappers
  import opened Ledger

  /** Why a form field was rejected; each carries the figure its message quotes. */
  datatype FieldError =
    | BelowMinimum(min: real)
    | AboveMaximum(max: real)
    | InsufficientBalance(balance: real)
    | NotPositive
    | UnknownRecipient(username: Username)
    | Required
    | TooLong(maxLength: nat)

  const MIN_DEPOSIT: real := 100.0
  const MIN_WITHDRAW: real := 500.0
  const MAX_WITHDRAW: real := 20000.0

  /** `DepositForm.clean_amount`. */
  function CleanDepositAmount(amount: real): (r: Result<real, FieldError>)
    ensures r.Success? <==> amount >= MIN_DEPOSIT
    ensures r.Success? ==> r.value == amount
    ensures r.Failure? ==> r.error == BelowMinimum(MIN_DEPOSIT)
  {
    if amount < MIN_DEPOSIT then Failure(BelowMinimum(MIN_DEPOSIT)) else Success(amount)
  }

  /** `WithdrawForm.clean_amount`: the minimum, the maximum and the balance are
      checked in that order and the first rule broken is the one reported. */
  function CleanWithdrawAmount(amount: real, balance: real): (r: Result<real, FieldError>)
    ensures r.Success? <==> MIN_WITHDRAW <= amount <= MAX_WITHDRAW && amount <= balance
    ensures r.Success? ==> r.value == amount
    ensures r == Failure(BelowMinimum(MIN_WITHDRAW)) <==> amount < MIN_WITHDRAW
    ensures r == Failure(AboveMaximum(MAX_WITHDRAW)) <==> MIN_WITHDRAW <= amount && MAX_WITHDRAW < amount
    ensures r == Failure(InsufficientBalance(balance)) <==> MIN_WITHDRAW <= amount <= MAX_WITHDRAW && balance < amount
  {
    if amount < MIN_WITHDRAW then Failure(BelowMinimum(MIN_WITHDRAW))
    else if amount > MAX_WITHDRAW then Failure(AboveMaximum(MAX_WITHDRAW))
    else if amount > balance then Failure(InsufficientBalance(balance))
    else Success(amount)
  }

  /** `LoanRequestForm.clean_amount` places no bound on a loan. */
  function CleanLoanAmount(amount: real): (r: Result<real, FieldError>)
    ensures r.Success? && r.value == amount
  {
    Success(amount)
  }

  /** `TransferForm.clean_amount`: the amount must be positive and covered by the
      sender's balance; the whole balance may be sent. */
  function CleanTransferAmount(amount: real, balance: real): (r: Result<real, FieldError>)
    ensures r.Success? <==> 0.0 < amount <= balance
    ensures r.Success? ==> r.value == amount
    ensures r == Failure(NotPositive) <==> amount <= 0.0
    ensures r == Failure(InsufficientBalance(balance)) <==> 0.0 < amount && balance < amount
  {
    if amount <= 0.0 then Failure(NotPositive)
    else if balance < amount then Failure(InsufficientBalance(balance))
    else Success(amount)
  }

  /** `TransferForm.clean_recipient_username`: the user is looked up by name,
      then that user's bank account; a miss at either step rejects the field.
      On success the account found is what `save` credits. */
  function CleanRecipient(b: Bank, username: Username): (r: Result<AccountId, FieldError>)
    ensures r.Success? <==> username in b.users && b.users[username].Some?
    ensures r.Success? ==> b.users[username] == Some(r.value)
    ensures r.Success? && Valid(b) ==> r.value in b.balances
    ensures r.Failure? ==> r.error == UnknownRecipient(username)
  {
    if username !in b.users then Failure(UnknownRecipient(username))
    else
      match b.users[username]
      case None => Failure(UnknownRecipient(username))
      case Some(account) => Success(account)
  }

  /** The `max_length` of the `recipient_username` field. */
  const USERNAME_MAX_LENGTH: nat := 150

  /** The characters Python's `str.strip()` removes. */
  predicate IsSpace(c: char)
  {
    var n := c as int;
    || 0x09 <= n <= 0x0D || 0x1C <= n <= 0x20 || n == 0x85 || n == 0xA0 || n == 0x1680
    || 0x2000 <= n <= 0x200A || n == 0x2028 || n == 0x2029 || n == 0x202F || n == 0x205F || n == 0x3000
  }

  /** The characters of `s` from index `lo` up to, not including, `hi` are all
      white space. */
  predicate SpaceBetween(s: string, lo: nat, hi: nat)
    requires lo <= hi <= |s|
  {
    forall k | lo <= k < hi :: IsSpace(s[k])
  }

  /** Every character of `s` is white space. */
  predicate AllSpace(s: string)
  {
    SpaceBetween(s, 0, |s|)
  }

  /** The first index at or after `k` that does not hold white space, or `|s|`
      when there is none. */
  function FirstNonSpace(s: string, k: nat): (n: nat)
    requires k <= |s|
    ensures k <= n <= |s| && SpaceBetween(s, k, n)
    ensures n == |s| || !IsSpace(s[n])
    decreases |s| - k
  {
    if k < |s| && IsSpace(s[k]) then FirstNonSpace(s, k + 1) else k
  }

  /** Where `s[lo..hi]` ends once its trailing white space is cut off. */
  function EndNonSpace(s: string, lo: nat, hi: nat): (n: nat)
    requires lo <= hi <= |s|
    ensures lo <= n <= hi && SpaceBetween(s, n, hi)
    ensures n == lo || !IsSpace(s[n - 1])
    decreases hi - lo
  {
    if lo < hi && IsSpace(s[hi - 1]) then EndNonSpace(s, lo, hi - 1) else hi
  }

  /** `s.strip()`: the slice of `s` between its leading and its trailing white
      space. Everything cut off either side is white space, and the result
      neither starts nor ends with white space, which pins it down. */
  function Strip(s: string): (r: string)
    ensures var i := FirstNonSpace(s, 0);
            var j := EndNonSpace(s, i, |s|);
            && r == s[i..j]
            && SpaceBetween(s, 0, i)
            && SpaceBetween(s, j, |s|)
    ensures r == [] || (!IsSpace(r[0]) && !IsSpace(r[|r| - 1]))
  {
    var i := FirstNonSpace(s, 0);
    var j := EndNonSpace(s, i, |s|);
    assert i < j ==> s[i..j][0] == s[i] && s[i..j][j - i - 1] == s[j - 1];
    s[i..j]
  }

  /** Skipping white space from `k` stops at `stop` when everything before
      `stop` is white space and `stop` itself is not. */
  lemma {:induction false} FirstNonSpaceAt(s: string, k: nat, stop: nat)
    requires k <= stop <= |s| && SpaceBetween(s, k, stop)
    requires stop == |s| || !IsSpace(s[stop])
    ensures FirstNonSpace(s, k) == stop
    decreases stop - k
  {
    if k < stop {
      FirstNonSpaceAt(s, k + 1, stop);
    }
  }

  /** Cutting trailing white space off `s[lo..hi]` stops at `stop` when
      everything from `stop` on is white space and the character before it is
      not. */
  lemma {:induction false} EndNonSpaceAt(s: string, lo: nat, stop: nat, hi: nat)
    requires lo <= stop <= hi <= |s| && SpaceBetween(s, stop, hi)
    requires stop == lo || !IsSpace(s[stop - 1])
    ensures EndNonSpace(s, lo, hi) == stop
    decreases hi - stop
  {
    if stop < hi {
      EndNonSpaceAt(s, lo, stop, hi - 1);
    }
  }

  /** Padding a name that has no white space at either end with white space
      on both sides does not change what `Strip` yields. */
  lemma {:induction false} StripPadded(left: string, name: string, right: string)
    requires AllSpace(left) && AllSpace(right)
    requires name == [] || (!IsSpace(name[0]) && !IsSpace(name[|name| - 1]))
    ensures Strip(left + name + right) == name
  {
    var s := left + name + right;
    var i, j := |left|, |left| + |name|;
    assert forall k | 0 <= k < i :: s[k] == left[k];
    assert forall k | j <= k < |s| :: s[k] == right[k - j];
    if name == [] {
      FirstNonSpaceAt(s, 0, |s|);
      EndNonSpaceAt(s, |s|, |s|, |s|);
    } else {
      assert s[i] == name[0] && s[j - 1] == name[|name| - 1];
      FirstNonSpaceAt(s, 0, i);
      EndNonSpaceAt(s, i, j, |s|);
      assert s[i..j] == name;
    }
  }

  /** The `recipient_username` field's own cleaning, which runs before
      `clean_recipient_username`: the value is stripped, must not be empty,
      and may hold at most 150 characters. */
  function CleanUsernameField(raw: string): (r: Result<Username, FieldError>)
    ensures r.Success? <==> 0 < |Strip(raw)| <= USERNAME_MAX_LENGTH
    ensures r.Success? ==> r.value == Strip(raw)
    ensures r == Failure(Required) <==> Strip(raw) == []
    ensures r == Failure(TooLong(USERNAME_MAX_LENGTH)) <==> |Strip(raw)| > USERNAME_MAX_LENGTH
  {
    var name := Strip(raw);
    if name == [] then Failure(Required)
    else if |name| > USERNAME_MAX_LENGTH then Failure(TooLong(USERNAME_MAX_LENGTH))
    else Success(name)
  }

  /** The recipient field as a whole: the field's own cleaning, then the
      account lookup on the cleaned name. */
  function ResolveRecipient(b: Bank, raw: string): (r: Result<AccountId, FieldError>)
    ensures r.Success? <==> 0 < |Strip(raw)| <= USERNAME_MAX_LENGTH && Strip(raw) in b.users && b.users[Strip(raw)].Some?
    ensures r.Success? ==> b.users[Strip(raw)] == Some(r.value)
    ensures r.Success? && Valid(b) ==> r.value in b.balances
    ensures r.Failure? ==> r.error in {Required, TooLong(USERNAME_MAX_LENGTH), UnknownRecipient(Strip(raw))}
    ensures r == Failure(Required) <==> Strip(raw) == []
    ensures r == Failure(TooLong(USERNAME_MAX_LENGTH)) <==> |Strip(raw)| > USERNAME_MAX_LENGTH
    ensures r == Failure(UnknownRecipient(Strip(raw))) <==>
              0 < |Strip(raw)| <= USERNAME_MAX_LENGTH && !(Strip(raw) in b.users && b.users[Strip(raw)].Some?)
  {
    match CleanUsernameField(raw)
    case Failure(e) => Failure(e)
    case Success(name) => CleanRecipient(b, name)
  }

  /** White space typed around a recipient's name does not change whom the
      recipient field resolves to. */
  lemma ResolvePadded(b: Bank, left: string, name: string, right: string)
    requires AllSpace(left) && AllSpace(right)
    requires 0 < |name| <= USERNAME_MAX_LENGTH && !IsSpace(name[0]) && !IsSpace(name[|name| - 1])
    ensures ResolveRecipient(b, left + name + right) == CleanRecipient(b, name)
  {
    StripPadded(left, name, right);
  }

  /** What a bound transfer form carries once every field is clean. */
  datatype TransferOrder = TransferOrder(amount: real, recipient: AccountId)

  /** `TransferForm.is_valid`: the amount field and then the recipient field
      are cleaned, each failing field contributes its one error in that order,
      and the form is valid only when neither failed. */
  function ValidateTransfer(b: Bank, sender: AccountId, amount: real, rawUsername: string): (r: Result<TransferOrder, seq<FieldError>>)
    requires sender in b.balances
    ensures r.Success? <==> 0.0 < amount <= b.balances[sender] && ResolveRecipient(b, rawUsername).Success?
    ensures r.Success? ==> r.value.amount == amount && r.value.recipient == ResolveRecipient(b, rawUsername).value
    ensures r.Failure? ==>
              |r.error| == (if 0.0 < amount <= b.balances[sender] then 0 else 1)
                         + (if ResolveRecipient(b, rawUsername).Success? then 0 else 1)
    ensures r.Failure? ==> (NotPositive in r.error <==> amount <= 0.0)
    ensures r.Failure? ==> (InsufficientBalance(b.balances[sender]) in r.error <==> 0.0 < amount && b.balances[sender] < amount)
    ensures r.Failure? && !(0.0 < amount <= b.balances[sender]) ==> r.error[0] in {NotPositive, InsufficientBalance(b.balances[sender])}
    ensures r.Failure? && ResolveRecipient(b, rawUsername).Failure? ==> r.error[|r.error| - 1] == ResolveRecipient(b, rawUsername).error
  {
    var amountCheck := CleanTransferAmount(amount, b.balances[sender]);
    var recipientCheck := ResolveRecipient(b, rawUsername);
    var errors := (if amountCheck.Failure? then [amountCheck.error] else [])
                + (if recipientCheck.Failure? then [recipientCheck.error] else []);
    if errors == [] then Success(TransferOrder(amountCheck.value, recipientCheck.value))
    else Failure(errors)
  }

  /** `TransactionForm.save`: the record is stamped with the form's account and
      a snapshot of that account's balance as it stands when the form is saved.
      The type field is disabled, so `kind` is the one the view chose. */
  function SaveRecord(b: Bank, account: AccountId, amount: real, kind: TxType, day: Day): (b': Bank)
    requires account in b.balances
    ensures b'.balances == b.balances && b'.users == b.users
    ensures |b'.txs| == |b.txs| + 1 && b'.txs[..|b.txs|] == b.txs
    ensures b'.txs[|b.txs|].account == account && b'.txs[|b.txs|].kind == kind
    ensures b'.txs[|b.txs|].amount == amount && b'.txs[|b.txs|].day == day
    ensures b'.txs[|b.txs|].recipient.None? && !b'.txs[|b.txs|].loanApprove && !b'.txs[|b.txs|].loanApproved
    ensures b'.txs[|b.txs|].balanceAfter == b'.balances[account]
    ensures Valid(b) ==> Valid(b')
  {
    var b' := b.(txs := b.txs + [NewRecord(account, amount, kind, day, b.balances[account])]);
    assert b'.txs[..|b.txs|] == b.txs;
    b'
  }

  /** `TransferForm.save`: the sender is debited, the recipient credited, and a
      TRANSFER record holding the sender's new balance is written. Both balances
      are read before either is written, as the two account objects are. */
  function SaveTransfer(b: Bank, sender: AccountId, recipient: AccountId, amount: real, day: Day): (b': Bank)
    requires sender in b.balances && recipient in b.balances
    ensures b'.users == b.users && b'.balances.Keys == b.balances.Keys
    ensures forall a :: a in b.balances && a != sender && a != recipient ==> b'.balances[a] == b.balances[a]
    ensures sender != recipient ==> b'.balances[sender] == b.balances[sender] - amount
    ensures sender != recipient ==> b'.balances[recipient] == b.balances[recipient] + amount
    ensures sender != recipient ==> b'.balances[sender] + b'.balances[recipient] == b.balances[sender] + b.balances[recipient]
    ensures |b'.txs| == |b.txs| + 1 && b'.txs[..|b.txs|] == b.txs
    ensures b'.txs[|b.txs|].account == sender && b'.txs[|b.txs|].recipient == Some(recipient)
    ensures b'.txs[|b.txs|].amount == amount && b'.txs[|b.txs|].kind == Transfer && Code(b'.txs[|b.txs|].kind) == TRANSFER_CODE
    ensures b'.txs[|b.txs|].day == day && !b'.txs[|b.txs|].loanApprove && !b'.txs[|b.txs|].loanApproved
    ensures sender != recipient ==> b'.txs[|b.txs|].balanceAfter == b'.balances[sender]
    ensures Valid(b) ==> Valid(b')
  {
    var debited := b.balances[sender] - amount;
    var credited := b.balances[recipient] + amount;
    var record := Transaction(sender, amount, Transfer, day, debited, Some(recipient), false, false);
    var b' := Bank(b.balances[sender := debited][recipient := credited], b.users, b.txs + [record]);
    assert b'.txs[..|b.txs|] == b.txs;
    b'
  }
}
