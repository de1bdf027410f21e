/** Entities of the finance tracker's ledger: accounts, base transactions that
    carry exactly one kind-specific detail, and the errors the controllers report. */
module LedgerTypes {

  /** Identifiers the database generates for accounts and transactions;
      modelled as numbers: account ids come from a counter, and a record's
      id is its position in the transaction log. */
  type AccountId = nat
  type TransactionId = nat

  /** The id of the authenticated caller (a string in the source). */
  type UserId = string

  /** Dates arrive in the request body and are stored as given. */
  type Date = string

  /** An account row: its owner, display name, free-form type and balance. */
  datatype Account = Account(userId: UserId, name: string, accountType: string, balance: int)

  /** The one detail record attached to a base transaction. The source keeps
      three optional one-to-one links; a sum type makes "exactly one" hold by
      construction. */
  datatype Detail = Expense | Income | Transfer(recipientId: AccountId)

  /** A base transaction joined with its detail record. `accountId` is the
      account the record belongs to (the sender, for a transfer). */
  datatype BaseTransaction = BaseTransaction(
    id: TransactionId,
    accountId: AccountId,
    amount: int,
    note: string,
    date: Date,
    detail: Detail)

  /** The errors the controllers raise before touching the store. */
  datatype Error =
    | UserNotFound
    | NoAccountsFound
    | AccountNotFound
    | SenderNotFound
    | RecipientNotFound

  datatype Result<T> = Ok(value: T) | Err(error: Error)

  /** A request field that may be absent from the body. */
  datatype Option<T> = None | Some(value: T) {
    /** The field's value, or `default` when it is absent. */
    function Or(default: T): (v: T) {
      if Some? then value else default
    }
  }
}
