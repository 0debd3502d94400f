/** The transaction records the scoring scripts receive from the ledger
    indexing service. */
module Transactions {

  /** One transaction of a wallet: `value` in wei and `timeStamp` in Unix
      seconds (both already parsed from their decimal strings), and the
      sender and recipient addresses. A contract creation has an empty
      recipient. */
  datatype Tx = Tx(value: int, timeStamp: int, from: string, to: string)
}
