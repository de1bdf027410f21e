/** The account table and the transaction log as one mutable store, with the
    controllers' write operations as methods. Each register operation is one
    atomic step: the database transaction it runs in commits all its writes
    or none. */
module LedgerStore {
  import opened LedgerTypes
  import opened Balances

  class Ledger {
    /** Registered users (managed outside this model). */
    var users: set<UserId>
    /** The account table. */
    var accounts: map<AccountId, Account>
    /** Base transactions with their detail records, in creation order; a
        record's id is its position in this sequence. */
    var log: seq<BaseTransaction>
    /** Source of fresh account ids. */
    var nextId: nat
    /** Each account's balance when it was opened. */
    ghost var opening: map<AccountId, int>

    /** Account ids are below the counter, record ids are their positions
        (hence distinct), and every record names existing accounts. */
    ghost predicate Valid()
      reads this
    {
      && (forall id :: id in accounts ==> id < nextId)
      && (forall i :: 0 <= i < |log| ==> log[i].id == i && References(log[i], accounts))
    }

    /** The balances agree with the opening balances and the log. */
    ghost predicate Balanced()
      reads this
    {
      Reconciled(accounts, opening, log)
    }

    constructor (users: set<UserId>)
      ensures Valid() && Balanced()
      ensures this.users == users && accounts == map[] && log == []
      ensures nextId == 0 && opening == map[]
    {
      this.users := users;
      accounts := map[];
      log := [];
      nextId := 0;
      opening := map[];
    }

    /** `registerAccount`: adds a fresh account owned by the caller with the
        given name, type and balance. */
    method RegisterAccount(caller: UserId, name: string, accountType: string, balance: int) returns (id: AccountId)
      requires Valid()
      modifies this
      ensures Valid()
      ensures id !in old(accounts)
      ensures accounts == old(accounts)[id := Account(caller, name, accountType, balance)]
      ensures log == old(log) && users == old(users)
      ensures opening == old(opening)[id := balance] && nextId == id + 1
      ensures old(Balanced()) ==> Balanced()
    {
      id := nextId;
      nextId := nextId + 1;
      if Balanced() {
        OpenKeepsReconciled(accounts, opening, log, id, Account(caller, name, accountType, balance));
      }
      accounts := accounts[id := Account(caller, name, accountType, balance)];
      opening := opening[id := balance];
    }

    /** `updateAccount`: a partial update of an existing account. Each of
        name, type and balance present in the request replaces the stored
        value; an absent one is kept. Whoever the caller is, only the
        account's existence is checked, and the log is not touched. */
    method UpdateAccount(caller: UserId, accountId: AccountId,
                         name: Option<string>, accountType: Option<string>, balance: Option<int>)
      returns (r: Result<()>)
      requires Valid()
      modifies this
      ensures Valid()
      ensures r.Ok? <==> accountId in old(accounts)
      ensures r.Err? ==> r.error == AccountNotFound && accounts == old(accounts)
      ensures r.Ok? ==> accounts == Overwrite(old(accounts), accountId, name, accountType, balance)
      ensures r.Ok? ==> accounts[accountId] == Account(old(accounts[accountId].userId),
        name.Or(old(accounts[accountId].name)), accountType.Or(old(accounts[accountId].accountType)),
        balance.Or(old(accounts[accountId].balance)))
      ensures name.None? && accountType.None? && balance.None? ==> accounts == old(accounts)
      ensures log == old(log) && users == old(users) && nextId == old(nextId) && opening == old(opening)
      ensures old(Balanced()) && r.Ok? ==>
        (Balanced() <==> balance.None? || balance.value == old(accounts[accountId].balance))
    {
      if accountId !in accounts {
        return Err(AccountNotFound);
      }
      if Balanced() {
        OverwriteReconciledIff(accounts, opening, log, accountId, name, accountType, balance);
      }
      OverwriteIdempotent(accounts, accountId, name, accountType, balance);
      var a := accounts[accountId];
      accounts := accounts[accountId := Account(a.userId, name.Or(a.name), accountType.Or(a.accountType), balance.Or(a.balance))];
      r := Ok(());
    }

    /** Creates a base record with the next id and attaches its detail. */
    method AppendRecord(accountId: AccountId, amount: int, note: string, date: Date, detail: Detail)
      returns (tx: BaseTransaction)
      requires Valid()
      requires References(BaseTransaction(0, accountId, amount, note, date, detail), accounts)
      modifies this`log
      ensures Valid()
      ensures tx == BaseTransaction(|old(log)|, accountId, amount, note, date, detail)
      ensures log == old(log) + [tx]
    {
      tx := BaseTransaction(|log|, accountId, amount, note, date, detail);
      log := log + [tx];
    }

    /** `registerExpenseTransaction`: records an expense and debits its account. */
    method RegisterExpense(accountId: AccountId, amount: int, note: string, date: Date)
      returns (r: Result<BaseTransaction>)
      requires Valid()
      modifies this
      ensures Valid() && users == old(users) && opening == old(opening) && nextId == old(nextId)
      ensures r.Ok? <==> accountId in old(accounts)
      ensures r.Err? ==> r.error == AccountNotFound && accounts == old(accounts) && log == old(log)
      ensures r.Ok? ==> r.value == BaseTransaction(|old(log)|, accountId, amount, note, date, Expense)
      ensures r.Ok? ==> log == old(log) + [r.value]
      ensures r.Ok? ==> accounts == Apply(old(accounts), r.value)
      ensures r.Ok? ==> accounts[accountId].balance == old(accounts[accountId].balance) - amount
      ensures forall id :: id in old(accounts) && id != accountId ==> id in accounts && accounts[id] == old(accounts[id])
      ensures old(Balanced()) ==> Balanced()
    {
      if accountId !in accounts {
        return Err(AccountNotFound);
      }
      var table := accounts;
      var account := table[accountId];
      var tx := AppendRecord(accountId, amount, note, date, Expense);
      SingleWriteIsApply(table, tx);
      table := table[accountId := account.(balance := account.balance - amount)];
      accounts := table;
      if old(Balanced()) {
        assert Balanced() by {
          RecordKeepsReconciled(old(accounts), opening, old(log), tx);
        }
      }
      r := Ok(tx);
    }

    /** `registerIncomeTransaction`: records an income and credits its account. */
    method RegisterIncome(accountId: AccountId, amount: int, note: string, date: Date)
      returns (r: Result<BaseTransaction>)
      requires Valid()
      modifies this
      ensures Valid() && users == old(users) && opening == old(opening) && nextId == old(nextId)
      ensures r.Ok? <==> accountId in old(accounts)
      ensures r.Err? ==> r.error == AccountNotFound && accounts == old(accounts) && log == old(log)
      ensures r.Ok? ==> r.value == BaseTransaction(|old(log)|, accountId, amount, note, date, Income)
      ensures r.Ok? ==> log == old(log) + [r.value]
      ensures r.Ok? ==> accounts == Apply(old(accounts), r.value)
      ensures r.Ok? ==> accounts[accountId].balance == old(accounts[accountId].balance) + amount
      ensures forall id :: id in old(accounts) && id != accountId ==> id in accounts && accounts[id] == old(accounts[id])
      ensures old(Balanced()) ==> Balanced()
    {
      if accountId !in accounts {
        return Err(AccountNotFound);
      }
      var table := accounts;
      var account := table[accountId];
      var tx := AppendRecord(accountId, amount, note, date, Income);
      SingleWriteIsApply(table, tx);
      table := table[accountId := account.(balance := account.balance + amount)];
      accounts := table;
      if old(Balanced()) {
        assert Balanced() by {
          RecordKeepsReconciled(old(accounts), opening, old(log), tx);
        }
      }
      r := Ok(tx);
    }

    /** `registerTransferTransction`: looks the sender up, then the recipient,
        then records the transfer against the sender and writes both balances
        from the values read before the atomic block. When sender and
        recipient are one account, the second write wins: see
        `SelfTransferBreaksReconciled` for what that does to the ledger. */
    method RegisterTransfer(senderId: AccountId, recipientId: AccountId, amount: int, note: string, date: Date)
      returns (r: Result<BaseTransaction>)
      requires Valid()
      modifies this
      ensures Valid() && users == old(users) && opening == old(opening) && nextId == old(nextId)
      ensures senderId !in old(accounts) ==> r == Err(SenderNotFound)
      ensures senderId in old(accounts) && recipientId !in old(accounts) ==> r == Err(RecipientNotFound)
      ensures r.Ok? <==> senderId in old(accounts) && recipientId in old(accounts)
      ensures r.Err? ==> accounts == old(accounts) && log == old(log)
      ensures r.Ok? ==> r.value == BaseTransaction(|old(log)|, senderId, amount, note, date, Transfer(recipientId))
      ensures r.Ok? ==> log == old(log) + [r.value]
      ensures r.Ok? ==> accounts == TransferAsWritten(old(accounts), senderId, recipientId, amount)
      ensures r.Ok? && senderId != recipientId ==>
        && accounts == Apply(old(accounts), r.value)
        && accounts[senderId].balance == old(accounts[senderId].balance) - amount
        && accounts[recipientId].balance == old(accounts[recipientId].balance) + amount
      ensures r.Ok? && senderId == recipientId ==>
        accounts[senderId].balance == old(accounts[senderId].balance) + amount
      ensures forall id :: id in old(accounts) && id != senderId && id != recipientId ==>
        id in accounts && accounts[id] == old(accounts[id])
      ensures old(Balanced()) && senderId != recipientId ==> Balanced()
    {
      if senderId !in accounts {
        return Err(SenderNotFound);
      }
      var sender := accounts[senderId];
      if recipientId !in accounts {
        return Err(RecipientNotFound);
      }
      var recipient := accounts[recipientId];
      var table := accounts;
      var tx := AppendRecord(senderId, amount, note, date, Transfer(recipientId));
      table := table[senderId := sender.(balance := sender.balance - amount)];
      table := table[recipientId := recipient.(balance := recipient.balance + amount)];
      assert table == TransferAsWritten(old(accounts), senderId, recipientId, amount);
      accounts := table;
      if senderId != recipientId {
        assert accounts == Apply(old(accounts), tx) by {
          TransferAgreesWhenDistinct(old(accounts), tx);
        }
        if old(Balanced()) {
          assert Balanced() by {
            RecordKeepsReconciled(old(accounts), opening, old(log), tx);
          }
        }
      }
      r := Ok(tx);
    }
  }

  /** A day of bookkeeping on two accounts, concluded from the contracts alone. */
  method ScenarioDay() {
    var ledger := new Ledger({"alice", "bob"});
    var a := ledger.RegisterAccount("alice", "wallet", "checking", 100);
    var b := ledger.RegisterAccount("bob", "rent", "savings", 0);
    var r := ledger.RegisterExpense(a, 30, "lunch", "today");
    assert ledger.accounts[a].balance == 70;
    r := ledger.RegisterIncome(a, 50, "refund", "today");
    assert ledger.accounts[a].balance == 120;
    r := ledger.RegisterTransfer(a, b, 20, "rent", "today");
    assert ledger.accounts[a].balance == 100 && ledger.accounts[b].balance == 20;
    assert |ledger.log| == 3 && ledger.Balanced();
  }

  /** Repeating an expense makes two records and two debits; an unknown
      sender changes nothing; a self-transfer credits the account. */
  method ScenarioEdges() {
    var ledger := new Ledger({"alice"});
    var a := ledger.RegisterAccount("alice", "wallet", "checking", 100);
    var e1 := ledger.RegisterExpense(a, 10, "coffee", "today");
    var e2 := ledger.RegisterExpense(a, 10, "coffee", "today");
    assert e1.value.id != e2.value.id && ledger.accounts[a].balance == 80;
    var missing := ledger.nextId;
    var r := ledger.RegisterTransfer(missing, a, 5, "x", "today");
    assert r == Err(SenderNotFound) && ledger.accounts[a].balance == 80;
    r := ledger.RegisterTransfer(a, a, 20, "self", "today");
    assert r.Ok? && ledger.accounts[a].balance == 100;
  }

  /** A partial update keeps the fields the request leaves out; an empty one
      changes nothing; changing the balance this way unbalances the ledger. */
  method ScenarioPatch() {
    var ledger := new Ledger({"alice"});
    var a := ledger.RegisterAccount("alice", "wallet", "checking", 100);
    var u := ledger.UpdateAccount("bob", a, None, None, Some(50));
    assert u.Ok? && ledger.accounts[a] == Account("alice", "wallet", "checking", 50);
    assert !ledger.Balanced();
    u := ledger.UpdateAccount("alice", a, Some("cash"), None, None);
    assert ledger.accounts[a] == Account("alice", "cash", "checking", 50);
    u := ledger.UpdateAccount("alice", a + 1, None, None, None);
    assert u == Err(AccountNotFound);
  }
}
