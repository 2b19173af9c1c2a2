/** The values exchanged between the preference store and its transaction layer. */
module Elements {

  /** One byte of a payload, plaintext or encrypted. */
  newtype byte = x: int | 0 <= x < 256

  type Bytes = seq<byte>

  /** The closed tag of a transaction element: how readers and `commit` interpret it. */
  datatype Action = Fetch | Name | Update | Remove

  /**
   * One item operation: a fetch result, a name-only listing entry, or a pending
   * mutation. An absent content (a NAME or REMOVE element) is the empty payload.
   */
  datatype TransactionElement = TransactionElement(action: Action, name: string, content: Bytes)

  function CreateFetchElement(name: string, content: Bytes): TransactionElement {
    TransactionElement(Fetch, name, content)
  }

  function CreateNameElement(name: string): TransactionElement {
    TransactionElement(Name, name, [])
  }

  function CreateUpdateElement(name: string, content: Bytes): TransactionElement {
    TransactionElement(Update, name, content)
  }

  function CreateRemoveElement(name: string): TransactionElement {
    TransactionElement(Remove, name, [])
  }

  /** Only UPDATE and REMOVE elements change the store when committed. */
  predicate Mutates(e: TransactionElement) {
    e.action == Update || e.action == Remove
  }
}
