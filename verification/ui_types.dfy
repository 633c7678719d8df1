/** The shapes the web client receives: a category with its transaction
    count, and a transaction carrying its category. Dates arrive as strings. */
module UiTypes {

  /** The client's `TransactionType` enum, whose values are strings. */
  datatype UiTransactionType = Income | Outcome {
    function Name(): (s: string)
      ensures s == "income" || s == "outcome"
      ensures this.Income? <==> s == "income"
    {
      match this
      case Income => "income"
      case Outcome => "outcome"
    }
  }

  datatype UiCategory = UiCategory(
    id: string,
    name: string,
    icon: string,
    color: string,
    countTransactions: nat)

  datatype UiTransaction = UiTransaction(
    id: string,
    title: string,
    transactionType: UiTransactionType,
    date: string,
    category: UiCategory)
}
