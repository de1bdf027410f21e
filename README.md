# Finance tracker ledger — a Dafny model

This project models the core of the finance tracker backend: its account table and its transaction log.

- **Account controller.** It lists the caller's accounts, opens a new account, and updates whichever of an account's name, type and balance the request carries.
- **Transaction controller.** It records an expense, an income or a transfer. Each of these appends one base transaction with its detail record and adjusts the balances in one atomic database transaction. It also lists the caller's transactions.

The model has four modules:

- `LedgerTypes` (`types.dfy`) holds the entities:
  - an `Account` row;
  - a `BaseTransaction` whose one detail record is a sum type `Detail = Expense | Income | Transfer(recipientId)`;
  - the controllers' errors;
  - a `Result` type, and an `Option` type for request fields that may be absent.
- `Balances` (`balances.dfy`) gives the meaning of a record:
  - `Delta` is its signed effect on one account;
  - `Net` is the effect of a whole log;
  - `Apply` is the balances after one record, each adjustment applied to the balance current at that moment.

  It also defines the balances the transfer controller actually writes (`TransferAsWritten`) and the row `updateAccount` writes (`Overwrite`). Finally, it defines the ledger invariant `Reconciled`: every balance equals its opening balance plus the net effect of the log.
- `Queries` (`queries.dfy`) is the read side. `getUserAccounts` and `getTransactions` are functions over the account table and the log.
- `LedgerStore` (`ledger.dfy`) is the mutable store. A `Ledger` class holds the users, the account table, the log and an id counter. Its methods are the write operations. Each one states the whole new state, its error cases (which change nothing), and whether it keeps the ledger reconciled.

The code is permissive, and the model follows it:

- No amount or name is validated. Amounts are any integer.
- `getTransactions` reports an error when the caller owns no account. It does not return an empty list.
- No operation checks that the caller owns the account it touches.
- A transfer from an account to itself is accepted (see Findings).

## Model

| member | source | states |
|---|---|---|
| Queries.UserAccounts | fi.nance_tracker_backend/src/controllers/accountController.ts:6-9 | Lists exactly the accounts whose owner is the caller, each row as stored. |
| Queries.UserAccountsAfterOpen | fi.nance_tracker_backend/src/controllers/accountController.ts:43-50 | Opening an account adds it to its owner's listing. Every other user's listing stays the same. |
| LedgerStore.Ledger.RegisterAccount | fi.nance_tracker_backend/src/controllers/accountController.ts:20-50 | The new account has a fresh id and is owned by the caller, with the given name, type and balance, which is recorded as its opening balance. No other row changes and the log is untouched. A reconciled ledger stays reconciled. |
| LedgerStore.Ledger.UpdateAccount | fi.nance_tracker_backend/src/controllers/accountController.ts:66-83 | An unknown id gives AccountNotFound and changes nothing. Otherwise only that row changes, whoever the caller is. Each of name, type and balance present in the request replaces the stored value, and an absent one is kept, as is the owner. A request with no field changes nothing. The log is untouched. A reconciled ledger stays reconciled exactly when the request carries no balance or the stored one. |
| Balances.Overwrite | fi.nance_tracker_backend/src/controllers/accountController.ts:76-83 | The same ids remain, and every row other than the updated one is unchanged. |
| Balances.OverwriteIdempotent | fi.nance_tracker_backend/src/controllers/accountController.ts:76-83 | The updated row holds each field the request carries and keeps every other field, the owner included. A request with no field changes nothing. Applying the same update twice equals applying it once. |
| Balances.OverwriteReconciledIff | fi.nance_tracker_backend/src/controllers/accountController.ts:76-83 | Because the update bypasses the log, the result is reconciled if and only if the request carries no balance or the balance already stored. |
| Balances.OpenKeepsReconciled | fi.nance_tracker_backend/src/controllers/accountController.ts:43-50 | Adding an account that no record names, with its balance as the opening balance, keeps the ledger reconciled. |
| Balances.NetUnmentioned | fi.nance_tracker_backend/src/controllers/accountController.ts:43-50 | A log that never names an account has no net effect on it. |
| Queries.TransactionsFor | fi.nance_tracker_backend/src/controllers/transactionController.ts:20-23 | Keeps exactly the records whose owning account is among the given ids, and no more records than the log holds. |
| Queries.TransactionsForAppend | fi.nance_tracker_backend/src/controllers/transactionController.ts:20-23 | A newly appended record appears at the end of the listing exactly when its owning account is among the ids. |
| Queries.Join | fi.nance_tracker_backend/src/controllers/transactionController.ts:24-29 | Pairs each record, position by position, with its owning account's row. The length is kept and nothing else appears. |
| Queries.GetTransactions | fi.nance_tracker_backend/src/controllers/transactionController.ts:6-32 | An unknown user gives UserNotFound. A user with no account gives NoAccountsFound. The call succeeds exactly for a known user who owns an account. The listing then holds exactly the log's records owned by one of the user's accounts, each joined with that account. Each record appears once, in log order. |
| LedgerStore.Ledger.AppendRecord | fi.nance_tracker_backend/src/controllers/transactionController.ts:53-66 | Appends exactly one base record carrying its detail, with a fresh id (its position in the log). |
| LedgerStore.Ledger.RegisterExpense | fi.nance_tracker_backend/src/controllers/transactionController.ts:43-76 | Succeeds exactly when the account exists. On AccountNotFound nothing changes. On success exactly one Expense record is appended and the account is debited by the amount. This is the record's reference meaning `Apply`, and every other account is unchanged. A reconciled ledger stays reconciled. |
| LedgerStore.Ledger.RegisterIncome | fi.nance_tracker_backend/src/controllers/transactionController.ts:93-126 | Same as for expenses, but the Income record credits the account by the amount. |
| LedgerStore.Ledger.RegisterTransfer | fi.nance_tracker_backend/src/controllers/transactionController.ts:143-189 | The sender is looked up first: a missing sender gives SenderNotFound even when the recipient is also missing. A missing recipient gives RecipientNotFound. Errors change nothing. On success one Transfer record owned by the sender is appended, and the balances are those written from the values read before the atomic block. For distinct accounts this means the sender goes down by the amount, the recipient goes up by it (the reference meaning), and reconciliation is kept. For a self-transfer the account goes up by the amount. Third accounts never change. |
| Balances.Delta | fi.nance_tracker_backend/src/controllers/transactionController.ts:68-186 | A record does nothing to an account it does not name. A transfer to its own sender has zero net effect. |
| Balances.ApplyEffect | fi.nance_tracker_backend/src/controllers/transactionController.ts:68-186 | Applying a record keeps the set of accounts and every field except balances. It changes each balance by exactly the record's `Delta`, and leaves every account the record does not name untouched. |
| Balances.SingleWriteIsApply | fi.nance_tracker_backend/src/controllers/transactionController.ts:68-73 | The expense and income controllers write the balance they read, minus or plus the amount (lines 68-73 and 118-123). This equals the reference meaning of the record. |
| Balances.NetAppend | fi.nance_tracker_backend/src/controllers/transactionController.ts:53-60 | Appending a record to the log changes each account's net effect by exactly that record's `Delta`. |
| Balances.RecordKeepsReconciled | fi.nance_tracker_backend/src/controllers/transactionController.ts:52-76 | Appending any record and applying its reference meaning keeps every balance equal to its opening balance plus the net effect of the log. |
| Balances.TransferAsWritten | fi.nance_tracker_backend/src/controllers/transactionController.ts:174-186 | The two writes keep the set of accounts and every non-balance field, and touch no third account. |
| Balances.TransferAgreesWhenDistinct | fi.nance_tracker_backend/src/controllers/transactionController.ts:174-186 | For distinct sender and recipient, the balances written equal the reference meaning of the transfer record. |
| Balances.TransferConservesPair | fi.nance_tracker_backend/src/controllers/transactionController.ts:174-186 | For distinct accounts the sender loses the amount and the recipient gains it. The pair's total is conserved and third accounts are unchanged. |
| Balances.SelfTransferBreaksReconciled | fi.nance_tracker_backend/src/controllers/transactionController.ts:147-186 | For a self-transfer, the written balance is the old balance plus the amount, while the reference meaning leaves it unchanged. From a reconciled ledger, the result is reconciled if and only if the amount is zero. |

## Left out

- HTTP, routing, status codes and JSON bodies are not modelled. Each failure the controllers throw becomes an `Error` value. The transfer handler's catch block, which sends no response, is not modelled.
- Authentication and the middleware are not part of this model. The caller's user id is taken as a parameter, already attested. The middleware as written never sets it.
- The user controller, sessions and tokens are not part of this model. The set of users is a field the ledger only reads.
- The `type` route parameter of `getTransactions` is read but never used, and the model has no counterpart for it.
- Queries.GetTransactions: lists the records in log order. The query sets no order, so the database may return them in another order.
- Queries.UserAccounts: the account query sets no order either, so the result is a map keyed by id.
- LedgerStore.Ledger.UpdateAccount: a field sent as JSON `null` rather than left out is not modelled. The model has only present or absent fields.
- LedgerStore.Ledger.RegisterAccount: a request missing a field is not modelled. Whether the database accepts such a row depends on its schema, which is not part of the source. The model always takes all three values.
- Amounts and balances are unbounded integers. The `Number()` conversion of a stored decimal, floating-point rounding, and numeric strings arriving in a request body are not modelled.
- Ids are strings the database generates. The model uses an account counter and log positions, so it captures only that ids are fresh and distinct.
- Concurrency is not modelled. Two requests that read the same balance before either writes can lose an update. The model runs each operation as one atomic step, including the reads the source makes before its database transaction.
- Storage failures inside the atomic block, which roll back and report a generic error, are not modelled.
- LedgerStore.Ledger.RegisterTransfer: its contract promises that reconciliation is kept only for distinct accounts. The self-transfer case is stated by `Balances.SelfTransferBreaksReconciled`.

## Findings

| source | as written | input that shows it | evidently intended | confidence | as-written member | corrected member |
|---|---|---|---|---|---|---|
| fi.nance_tracker_backend/src/controllers/transactionController.ts:174-186 | A self-transfer writes the sender's stale balance minus the amount, then overwrites that row with the stale balance plus the amount. The account ends credited by the amount, and the log no longer explains its balance. | An account holding 80 transfers 20 to itself and ends at 100 (see `ScenarioEdges`). | The balance stays at 80, as the sequential debit then credit of `Apply` gives, or equal accounts are rejected. | medium, not executed | Balances.SelfTransferBreaksReconciled | Balances.RecordKeepsReconciled |
