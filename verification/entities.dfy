/** The backend's records (users, categories, transactions), the inputs the
    services accept, and the errors they raise. */
module Entities {
  import opened Wrappers

  /** Record identifiers and user ids are strings generated by the database. */
  type Id = string

  /** An instant (a `date` column), as milliseconds since the epoch. */
  type Date = int

  /** A monetary amount. The system stores a float; nothing in the core
      computes with it, so it is carried as an opaque value. */
  type Amount = real

  datatype TransactionType = Income | Outcome

  /** A stored transaction. `createdAt`/`updatedAt` are not modelled. */
  datatype Transaction = Transaction(
    id: Id,
    title: string,
    description: Option<string>,
    amount: Amount,
    transactionType: TransactionType,
    date: Date,
    userId: Id,
    categoryId: Id)

  /** A stored category; it belongs to the user `userId`. */
  datatype Category = Category(
    id: Id,
    name: string,
    color: Option<string>,
    icon: Option<string>,
    userId: Id)

  /** A stored user; `password` holds the hash, never the plain text. */
  datatype User = User(id: Id, name: string, email: string, password: string)

  // ---------------------------------------------------------------------
  // Inputs

  /** Input of `createTransaction`; `date` may be left for the server. */
  datatype CreateTransactionInput = CreateTransactionInput(
    title: string,
    description: Option<string>,
    amount: Amount,
    transactionType: TransactionType,
    categoryId: Id,
    date: Option<Date>)

  /** Input of `updateTransaction`: every field may be null or omitted
      (both are `None` here, since the update treats them alike). */
  datatype UpdateTransactionInput = UpdateTransactionInput(
    title: Option<string>,
    description: Option<string>,
    amount: Option<Amount>,
    transactionType: Option<TransactionType>,
    categoryId: Option<Id>,
    date: Option<Date>)

  /** The optional filter of the paged query. */
  datatype TransactionFilters = TransactionFilters(
    title: Option<string>,
    transactionType: Option<TransactionType>,
    categoryId: Option<Id>,
    startDate: Option<Date>,
    endDate: Option<Date>)

  /** A nullable input field as it reaches the persistence layer: omitted
      (`undefined`), explicitly `null`, or given. */
  datatype Nullable<T> = Omitted | Null | Given(value: T)

  /** Input of `createCategory` and `updateCategory` (no description). */
  datatype CategoryInput = CategoryInput(name: string, color: Nullable<string>, icon: Nullable<string>)

  datatype RegisterInput = RegisterInput(name: string, email: string, password: string)

  // ---------------------------------------------------------------------
  // Errors

  /** The errors the services throw: a missing record, a record (or a
      category in the ownership chain) that belongs to someone else, a
      duplicate registration, a failure to sign tokens. */
  datatype ServiceError =
    | NotFound(message: string)
    | Forbidden(message: string)
    | Conflict(message: string)
    | Failed(message: string)

  const CATEGORY_NOT_FOUND := "Category not found"
  const TRANSACTION_NOT_FOUND := "Transaction not found"
  const CANNOT_USE_CATEGORY := "You don't have permission to use this category"
  const CANNOT_READ_CATEGORY_TRANSACTIONS := "You don't have permission to access this category's transactions"
  const CANNOT_UPDATE_TRANSACTION := "You don't have permission to update this transaction"
  const CANNOT_DELETE_TRANSACTION := "You don't have permission to delete this transaction"
  const EMAIL_TAKEN := "An user with this email already exists."
  const TOKENS_FAILED := "Error generating tokens."
}
