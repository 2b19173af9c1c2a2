/**
 * What the transaction operations compute, as functions of the stored map.
 * The methods of `Transaction.MultiProcessTransaction` are proved against these.
 */
module TransactionSpec {
  import opened Elements
  import opened Encryption
  import opened Storage

  /** Storage has no entry under the name that was asked for. */
  datatype Error = NotFound(name: string)

  datatype Result<T> = Success(value: T) | Failure(error: Error)

  /** The FETCH element for one stored entry: decrypted name, decrypted bytes. */
  function FetchedElement(files: Files, storedName: string, keys: KeyEncryption, values: ValueEncryption): (r: TransactionElement)
    requires storedName in files
    ensures r.action == Fetch
    ensures r.name == keys.decrypt(storedName) && r.content == values.decrypt(files[storedName])
    ensures keys.Reversible() && values.Reversible() && KeysEncrypted(files, keys) ==>
              keys.encrypt(r.name) == storedName && values.decrypt(files[keys.encrypt(r.name)]) == r.content
  {
    CreateFetchElement(keys.decrypt(storedName), values.decrypt(files[storedName]))
  }

  /**
   * Read one entry. `name` goes to storage exactly as given, and only the name
   * and bytes coming back are decrypted.
   */
  function FetchOneFrom(files: Files, name: string, keys: KeyEncryption, values: ValueEncryption): (r: Result<TransactionElement>)
    ensures r.Success? <==> name in files
    ensures r.Failure? ==> r.error == NotFound(name)
  {
    if name in files then Success(FetchedElement(files, name, keys, values)) else Failure(NotFound(name))
  }

  /** One FETCH element per listed name, in listing order. */
  function FetchAll(files: Files, names: seq<string>, keys: KeyEncryption, values: ValueEncryption): (r: seq<TransactionElement>)
    requires forall i :: 0 <= i < |names| ==> names[i] in files
    ensures |r| == |names|
  {
    seq(|names|, i requires 0 <= i < |names| => FetchedElement(files, names[i], keys, values))
  }

  /** One NAME element per listed name, carrying the name as storage lists it. */
  function NameElements(names: seq<string>): (r: seq<TransactionElement>)
    ensures |r| == |names|
  {
    seq(|names|, i requires 0 <= i < |names| => CreateNameElement(names[i]))
  }

  /**
   * Commit one element: UPDATE saves the encrypted content under the encrypted
   * name, REMOVE deletes the encrypted name, FETCH and NAME do nothing.
   */
  function ApplyElement(files: Files, e: TransactionElement, keys: KeyEncryption, values: ValueEncryption): (r: Files)
    ensures !Mutates(e) ==> r == files
    ensures e.action == Update ==> keys.encrypt(e.name) in r && r[keys.encrypt(e.name)] == values.encrypt(e.content)
    ensures e.action == Remove ==> keys.encrypt(e.name) !in r
    ensures forall storedName :: storedName != keys.encrypt(e.name) ==>
              (storedName in r <==> storedName in files) && (storedName in r ==> r[storedName] == files[storedName])
  {
    var encryptedName := keys.encrypt(e.name);
    match e.action
    case Update => files[encryptedName := values.encrypt(e.content)]
    case Remove => files - {encryptedName}
    case _ => files
  }

  /** Commit a batch: its elements one after the other, first to last. */
  function ApplyBatch(files: Files, batch: seq<TransactionElement>, keys: KeyEncryption, values: ValueEncryption): (r: Files)
    ensures forall storedName :: storedName in r && storedName !in files ==>
              exists j :: 0 <= j < |batch| && batch[j].action == Update && keys.encrypt(batch[j].name) == storedName
    decreases |batch|
  {
    if batch == [] then files
    else ApplyElement(ApplyBatch(files, batch[..|batch| - 1], keys, values), batch[|batch| - 1], keys, values)
  }

  /** The UPDATE and REMOVE elements of a batch, in batch order. */
  function Mutations(batch: seq<TransactionElement>): (r: seq<TransactionElement>)
    ensures forall e :: e in r <==> e in batch && Mutates(e)
    decreases |batch|
  {
    if batch == [] then []
    else
      var last := batch[|batch| - 1];
      Mutations(batch[..|batch| - 1]) + (if Mutates(last) then [last] else [])
  }

  /** Every stored name is the encrypted form of some plaintext name. */
  ghost predicate KeysEncrypted(files: Files, keys: KeyEncryption) {
    forall storedName :: storedName in files ==> keys.encrypt(keys.decrypt(storedName)) == storedName
  }
}
