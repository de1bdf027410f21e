/** The read side: a user's accounts, and the transactions recorded against them. */
module Queries {
  import opened LedgerTypes

  /** True when account `id` exists and belongs to `user`. */
  predicate OwnedBy(accounts: map<AccountId, Account>, id: AccountId, user: UserId) {
    id in accounts && accounts[id].userId == user
  }

  /** `getUserAccounts`: the accounts whose owner is the caller. */
  function UserAccounts(accounts: map<AccountId, Account>, user: UserId): (r: map<AccountId, Account>)
    ensures forall id :: id in r <==> OwnedBy(accounts, id, user)
    ensures forall id :: id in r ==> id in accounts && r[id] == accounts[id]
  {
    map id | id in accounts && accounts[id].userId == user :: accounts[id]
  }

  /** Opening an account adds it to its owner's accounts and to no one else's. */
  lemma UserAccountsAfterOpen(accounts: map<AccountId, Account>, id: AccountId, account: Account, other: UserId)
    requires id !in accounts
    ensures UserAccounts(accounts[id := account], account.userId) == UserAccounts(accounts, account.userId)[id := account]
    ensures other != account.userId ==> UserAccounts(accounts[id := account], other) == UserAccounts(accounts, other)
  {
  }

  /** The records of `log` owned by one of the accounts in `ids`, in log order. */
  function TransactionsFor(log: seq<BaseTransaction>, ids: set<AccountId>): (r: seq<BaseTransaction>)
    ensures |r| <= |log|
    ensures forall t :: t in r <==> t in log && t.accountId in ids
  {
    if log == [] then []
    else if log[0].accountId in ids then [log[0]] + TransactionsFor(log[1..], ids)
    else TransactionsFor(log[1..], ids)
  }

  /** A record appended to the log shows up at the end of the listing for
      exactly those account sets that hold its owning account. */
  lemma {:induction false} TransactionsForAppend(log: seq<BaseTransaction>, tx: BaseTransaction, ids: set<AccountId>)
    ensures TransactionsFor(log + [tx], ids)
            == TransactionsFor(log, ids) + (if tx.accountId in ids then [tx] else [])
  {
    if log == [] {
      assert [] + [tx] == [tx];
      assert [tx][1..] == [];
    } else {
      assert (log + [tx])[1..] == log[1..] + [tx];
      assert (log + [tx])[0] == log[0];
      TransactionsForAppend(log[1..], tx, ids);
    }
  }

  /** A record joined with a snapshot of its owning account. */
  datatype TransactionView = TransactionView(tx: BaseTransaction, account: Account)

  /** Pairs each record, in order, with the row of its owning account. */
  function Join(txs: seq<BaseTransaction>, accounts: map<AccountId, Account>): (r: seq<TransactionView>)
    requires forall t :: t in txs ==> t.accountId in accounts
    ensures |r| == |txs|
    ensures forall i :: 0 <= i < |r| ==> r[i].tx == txs[i] && r[i].account == accounts[txs[i].accountId]
    ensures forall v :: v in r <==> v.tx in txs && v.account == accounts[v.tx.accountId]
  {
    if txs == [] then []
    else [TransactionView(txs[0], accounts[txs[0].accountId])] + Join(txs[1..], accounts)
  }

  /** `getTransactions`: fails when the caller is not a known user or owns no
      account; otherwise lists every record whose owning account belongs to
      the caller, joined with that account. */
  function GetTransactions(users: set<UserId>, accounts: map<AccountId, Account>,
                           log: seq<BaseTransaction>, user: UserId): (r: Result<seq<TransactionView>>)
    ensures user !in users ==> r == Err(UserNotFound)
    ensures user in users && (forall id :: !OwnedBy(accounts, id, user)) ==> r == Err(NoAccountsFound)
    ensures r.Ok? <==> user in users && exists id :: OwnedBy(accounts, id, user)
    ensures r.Ok? ==> forall v :: v in r.value <==>
      v.tx in log && OwnedBy(accounts, v.tx.accountId, user) && v.account == accounts[v.tx.accountId]
    ensures r.Ok? ==> var txs := TransactionsFor(log, UserAccounts(accounts, user).Keys);
      && |r.value| == |txs|
      && forall i :: 0 <= i < |r.value| ==> r.value[i].tx == txs[i] && OwnedBy(accounts, txs[i].accountId, user)
  {
    if user !in users then Err(UserNotFound)
    else
      var mine := UserAccounts(accounts, user);
      if mine == map[] then Err(NoAccountsFound)
      else
        assert exists id :: id in mine;
        Ok(Join(TransactionsFor(log, mine.Keys), accounts))
  }
}
