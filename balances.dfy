/** What a recorded transaction does to the account balances, and the
    reconciliation between the balances and the transaction log. */
module Balances {
  import opened LedgerTypes

  type Accounts = map<AccountId, Account>

  /** True when `tx` names `id`, as its owning account or as its transfer recipient. */
  predicate Mentions(tx: BaseTransaction, id: AccountId) {
    tx.accountId == id || tx.detail == Transfer(id)
  }

  /** True when every account `tx` names is in `accounts`. */
  predicate References(tx: BaseTransaction, accounts: Accounts) {
    tx.accountId in accounts && (tx.detail.Transfer? ==> tx.detail.recipientId in accounts)
  }

  /** The signed effect a record is meant to have on account `id`: an expense
      debits its account, an income credits it, and a transfer debits the
      sender and credits the recipient by the same amount. */
  function Delta(tx: BaseTransaction, id: AccountId): (d: int)
    ensures !Mentions(tx, id) ==> d == 0
    ensures tx.detail == Transfer(tx.accountId) ==> d == 0
  {
    match tx.detail
    case Expense => if tx.accountId == id then -tx.amount else 0
    case Income => if tx.accountId == id then tx.amount else 0
    case Transfer(recipient) =>
      (if tx.accountId == id then -tx.amount else 0) + (if recipient == id then tx.amount else 0)
  }

  /** The net effect of a whole log on account `id`. */
  function Net(log: seq<BaseTransaction>, id: AccountId): (n: int)
  {
    if log == [] then 0 else Delta(log[0], id) + Net(log[1..], id)
  }

  /** A log that never names an account has no effect on it. */
  lemma {:induction false} NetUnmentioned(log: seq<BaseTransaction>, id: AccountId)
    requires forall i :: 0 <= i < |log| ==> !Mentions(log[i], id)
    ensures Net(log, id) == 0
  {
    if log != [] {
      assert !Mentions(log[0], id);
      forall i | 0 <= i < |log[1..]| ensures !Mentions(log[1..][i], id) {
        assert log[1..][i] == log[i + 1];
      }
      NetUnmentioned(log[1..], id);
    }
  }

  lemma {:induction false} NetAppend(log: seq<BaseTransaction>, tx: BaseTransaction, id: AccountId)
    ensures Net(log + [tx], id) == Net(log, id) + Delta(tx, id)
  {
    if log == [] {
      assert [] + [tx] == [tx];
      assert [tx][1..] == [];
    } else {
      assert (log + [tx])[1..] == log[1..] + [tx];
      NetAppend(log[1..], tx, id);
    }
  }

  /** Two account rows that agree on everything but the balance. */
  predicate SameDetails(a: Account, b: Account) {
    a.userId == b.userId && a.name == b.name && a.accountType == b.accountType
  }

  /** Adds `delta` to the current balance of `id`, when that account exists. */
  function Adjust(accounts: Accounts, id: AccountId, delta: int): (r: Accounts)
  {
    if id in accounts then accounts[id := accounts[id].(balance := accounts[id].balance + delta)]
    else accounts
  }

  /** The balances after `tx` takes effect, each adjustment applied to the
      balance current at that moment: the reference meaning of a record. */
  function Apply(accounts: Accounts, tx: BaseTransaction): (r: Accounts)
  {
    match tx.detail
    case Expense => Adjust(accounts, tx.accountId, -tx.amount)
    case Income => Adjust(accounts, tx.accountId, tx.amount)
    case Transfer(recipient) => Adjust(Adjust(accounts, tx.accountId, -tx.amount), recipient, tx.amount)
  }

  /** `Apply` changes each balance by exactly the record's `Delta`, keeps
      every other field, and leaves accounts the record does not name alone. */
  lemma ApplyEffect(accounts: Accounts, tx: BaseTransaction)
    ensures var r := Apply(accounts, tx);
      && r.Keys == accounts.Keys
      && (forall id :: id in accounts ==> r[id].balance == accounts[id].balance + Delta(tx, id))
      && (forall id :: id in accounts ==> SameDetails(r[id], accounts[id]))
      && (forall id :: id in accounts && !Mentions(tx, id) ==> r[id] == accounts[id])
  {
  }

  /** The expense and income controllers write the balance they read minus
      (plus) the amount; nothing changes between the read and the write, so
      this is the reference meaning of the record. */
  lemma SingleWriteIsApply(accounts: Accounts, tx: BaseTransaction)
    requires tx.accountId in accounts && (tx.detail.Expense? || tx.detail.Income?)
    ensures var a := accounts[tx.accountId];
      accounts[tx.accountId := a.(balance := a.balance + (if tx.detail.Expense? then -tx.amount else tx.amount))]
        == Apply(accounts, tx)
  {
  }

  /** The balances the transfer controller writes: both rows are read before
      the atomic block, then the sender is set to its read balance minus the
      amount and the recipient to its read balance plus the amount. */
  function TransferAsWritten(accounts: Accounts, sender: AccountId, recipient: AccountId, amount: int): (r: Accounts)
    requires sender in accounts && recipient in accounts
    ensures r.Keys == accounts.Keys
    ensures forall id :: id in accounts ==> SameDetails(r[id], accounts[id])
    ensures forall id :: id in accounts && id != sender && id != recipient ==> r[id] == accounts[id]
  {
    var s := accounts[sender];
    var t := accounts[recipient];
    accounts[sender := s.(balance := s.balance - amount)][recipient := t.(balance := t.balance + amount)]
  }

  /** The row `updateAccount` writes: each of name, type and balance present
      in the request replaces the stored one, an absent one is kept, and the
      owner is kept. */
  function Overwrite(accounts: Accounts, id: AccountId,
                     name: Option<string>, accountType: Option<string>, balance: Option<int>): (r: Accounts)
    requires id in accounts
    ensures r.Keys == accounts.Keys
    ensures forall k :: k in accounts && k != id ==> r[k] == accounts[k]
  {
    var a := accounts[id];
    accounts[id := Account(a.userId, name.Or(a.name), accountType.Or(a.accountType), balance.Or(a.balance))]
  }

  /** Every account's balance is its opening balance plus the net effect of
      the log on it: the balance is a cached value derived from the log. */
  predicate Reconciled(accounts: Accounts, opening: map<AccountId, int>, log: seq<BaseTransaction>) {
    forall id {:trigger accounts[id]} :: id in accounts ==> id in opening && accounts[id].balance == opening[id] + Net(log, id)
  }

  /** Recording any transaction by its reference meaning keeps the balances
      reconciled with the log it is appended to. */
  lemma RecordKeepsReconciled(accounts: Accounts, opening: map<AccountId, int>, log: seq<BaseTransaction>, tx: BaseTransaction)
    requires Reconciled(accounts, opening, log)
    ensures Reconciled(Apply(accounts, tx), opening, log + [tx])
  {
    ApplyEffect(accounts, tx);
    forall id | id in accounts
      ensures Apply(accounts, tx)[id].balance == opening[id] + Net(log + [tx], id)
    {
      NetAppend(log, tx, id);
    }
  }

  /** Opening a fresh account that no record names keeps the ledger reconciled. */
  lemma OpenKeepsReconciled(accounts: Accounts, opening: map<AccountId, int>, log: seq<BaseTransaction>,
                            id: AccountId, account: Account)
    requires Reconciled(accounts, opening, log)
    requires id !in accounts
    requires forall i :: 0 <= i < |log| ==> !Mentions(log[i], id)
    ensures Reconciled(accounts[id := account], opening[id := account.balance], log)
  {
    NetUnmentioned(log, id);
  }

  /** A transfer between two distinct accounts writes exactly the reference
      meaning of the transfer record. */
  lemma TransferAgreesWhenDistinct(accounts: Accounts, tx: BaseTransaction)
    requires tx.detail.Transfer? && References(tx, accounts)
    requires tx.accountId != tx.detail.recipientId
    ensures TransferAsWritten(accounts, tx.accountId, tx.detail.recipientId, tx.amount) == Apply(accounts, tx)
  {
    var w := TransferAsWritten(accounts, tx.accountId, tx.detail.recipientId, tx.amount);
    var a := Apply(accounts, tx);
    forall id | id in accounts ensures w[id] == a[id] {
      assert w[id].balance == a[id].balance;
    }
  }

  /** Between distinct accounts a transfer debits the sender and credits the
      recipient by the amount: the pair's total is conserved and no third
      account changes. */
  lemma TransferConservesPair(accounts: Accounts, sender: AccountId, recipient: AccountId, amount: int)
    requires sender in accounts && recipient in accounts && sender != recipient
    ensures var r := TransferAsWritten(accounts, sender, recipient, amount);
      && r[sender].balance == accounts[sender].balance - amount
      && r[recipient].balance == accounts[recipient].balance + amount
      && r[sender].balance + r[recipient].balance == accounts[sender].balance + accounts[recipient].balance
      && forall id :: id in accounts && id != sender && id != recipient ==> r[id] == accounts[id]
  {
  }

  /** A transfer from an account to itself ends with the account credited by
      the amount (the stale debit is overwritten), while its reference meaning
      leaves the balance unchanged; so it breaks reconciliation exactly when
      the amount is not zero. */
  lemma SelfTransferBreaksReconciled(accounts: Accounts, opening: map<AccountId, int>, log: seq<BaseTransaction>,
                                     tx: BaseTransaction)
    requires Reconciled(accounts, opening, log)
    requires tx.accountId in accounts && tx.detail == Transfer(tx.accountId)
    ensures TransferAsWritten(accounts, tx.accountId, tx.accountId, tx.amount)[tx.accountId].balance
            == accounts[tx.accountId].balance + tx.amount
    ensures Apply(accounts, tx)[tx.accountId].balance == accounts[tx.accountId].balance
    ensures Reconciled(TransferAsWritten(accounts, tx.accountId, tx.accountId, tx.amount), opening, log + [tx])
            <==> tx.amount == 0
  {
    var s := tx.accountId;
    var w := TransferAsWritten(accounts, s, s, tx.amount);
    NetAppend(log, tx, s);
    if tx.amount == 0 {
      forall id | id in w ensures w[id].balance == opening[id] + Net(log + [tx], id) {
        NetAppend(log, tx, id);
      }
    }
  }

  /** Overwriting a row sets each field present in the request and keeps
      every other field; a request with no field changes nothing, and doing
      the same update twice is the same as doing it once. */
  lemma OverwriteIdempotent(accounts: Accounts, id: AccountId,
                            name: Option<string>, accountType: Option<string>, balance: Option<int>)
    requires id in accounts
    ensures var once := Overwrite(accounts, id, name, accountType, balance);
      && once[id].userId == accounts[id].userId
      && once[id].name == (if name.Some? then name.value else accounts[id].name)
      && once[id].accountType == (if accountType.Some? then accountType.value else accounts[id].accountType)
      && once[id].balance == (if balance.Some? then balance.value else accounts[id].balance)
      && (name.None? && accountType.None? && balance.None? ==> once == accounts)
      && Overwrite(once, id, name, accountType, balance) == once
  {
  }

  /** `updateAccount` bypasses the log: a reconciled ledger stays reconciled
      after it exactly when the request carries no balance or the balance
      already stored. */
  lemma OverwriteReconciledIff(accounts: Accounts, opening: map<AccountId, int>, log: seq<BaseTransaction>,
                               id: AccountId, name: Option<string>, accountType: Option<string>, balance: Option<int>)
    requires Reconciled(accounts, opening, log) && id in accounts
    ensures Reconciled(Overwrite(accounts, id, name, accountType, balance), opening, log)
            <==> balance.None? || balance.value == accounts[id].balance
  {
  }
}
