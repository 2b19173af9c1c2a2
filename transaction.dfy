/**
 * The multi-process transaction: every public operation takes the process-wide
 * lock, runs against storage and the two transforms, and releases the lock.
 */
module Transaction {
  import opened Elements
  import opened Encryption
  import opened Storage
  import opened Locking
  import opened TransactionSpec
  import opened TransactionProperties

  class MultiProcessTransaction {
    const fileAdapter: FileAdapter
    /** The lock the lock factory hands out for this store. */
    const lock: ProcessLock
    const valueEncryption: ValueEncryption
    const keyEncryption: KeyEncryption

    constructor (fileAdapter: FileAdapter, lock: ProcessLock, valueEncryption: ValueEncryption, keyEncryption: KeyEncryption)
      ensures this.fileAdapter == fileAdapter && this.lock == lock
      ensures this.valueEncryption == valueEncryption && this.keyEncryption == keyEncryption
    {
      this.fileAdapter := fileAdapter;
      this.lock := lock;
      this.valueEncryption := valueEncryption;
      this.keyEncryption := keyEncryption;
    }

    /** Every stored item as a decrypted FETCH element, in the order storage lists them. */
    method FetchContent() returns (elements: seq<TransactionElement>, ghost names: seq<string>)
      requires !lock.held
      modifies lock
      ensures !lock.held
      ensures fileAdapter.files == old(fileAdapter.files)
      ensures IsListing(names, fileAdapter.files)
      ensures elements == FetchAll(fileAdapter.files, names, keyEncryption, valueEncryption)
    {
      lock.Lock();
      elements, names := FetchContentInternal();
      lock.Unlock();
    }

    /** The entry stored under `name`, with `name` passed to storage as given. */
    method FetchOne(name: string) returns (result: Result<TransactionElement>)
      requires !lock.held
      modifies lock
      ensures !lock.held
      ensures fileAdapter.files == old(fileAdapter.files)
      ensures result == FetchOneFrom(fileAdapter.files, name, keyEncryption, valueEncryption)
    {
      lock.Lock();
      result := FetchOneInternal(name);
      lock.Unlock();
    }

    /** Delegates to the full read path: FETCH elements with decrypted content. */
    method FetchNames() returns (elements: seq<TransactionElement>, ghost names: seq<string>)
      requires !lock.held
      modifies lock
      ensures !lock.held
      ensures fileAdapter.files == old(fileAdapter.files)
      ensures IsListing(names, fileAdapter.files)
      ensures elements == FetchAll(fileAdapter.files, names, keyEncryption, valueEncryption)
    {
      lock.Lock();
      elements, names := FetchContentInternal();
      lock.Unlock();
    }

    /** Apply a batch of elements to storage, in order, under one lock acquisition. */
    method Commit(elements: seq<TransactionElement>)
      requires !lock.held
      modifies lock, fileAdapter
      ensures !lock.held
      ensures fileAdapter.files == ApplyBatch(old(fileAdapter.files), elements, keyEncryption, valueEncryption)
    {
      lock.Lock();
      CommitInternal(elements);
      lock.Unlock();
    }

    method FetchContentInternal() returns (elements: seq<TransactionElement>, ghost names: seq<string>)
      requires lock.held
      ensures IsListing(names, fileAdapter.files)
      ensures |elements| == |fileAdapter.files|
      ensures elements == FetchAll(fileAdapter.files, names, keyEncryption, valueEncryption)
    {
      var listed := fileAdapter.Names();
      names := listed;
      ListingLength(listed, fileAdapter.files);
      elements := [];
      for i := 0 to |listed|
        invariant elements == FetchAll(fileAdapter.files, listed[..i], keyEncryption, valueEncryption)
      {
        var element := FetchOneInternal(listed[i]);
        elements := elements + [element.value];
      }
      assert listed[..|listed|] == listed;
    }

    /** Read one entry; `name` must already be a stored (encrypted) name to be found. */
    function FetchOneInternal(name: string): (r: Result<TransactionElement>)
      requires lock.held
      reads this.lock, this.fileAdapter
      ensures r.Success? <==> name in fileAdapter.files
      ensures r.Success? ==> r.value.action == Fetch && r.value.name == keyEncryption.decrypt(name)
      ensures r.Success? ==> r.value.content == valueEncryption.decrypt(fileAdapter.files[name])
    {
      FetchOneFrom(fileAdapter.files, name, keyEncryption, valueEncryption)
    }

    /** Never called: `FetchNames` goes through `FetchContentInternal` instead. */
    method FetchNamesInternal() returns (elements: seq<TransactionElement>, ghost names: seq<string>)
      requires lock.held
      ensures IsListing(names, fileAdapter.files)
      ensures |elements| == |fileAdapter.files|
      ensures forall i :: 0 <= i < |elements| ==> elements[i].action == Name && elements[i].name in fileAdapter.files
      ensures elements == NameElements(names)
    {
      var listed := fileAdapter.Names();
      names := listed;
      ListingLength(listed, fileAdapter.files);
      elements := [];
      for i := 0 to |listed|
        invariant elements == NameElements(listed[..i])
      {
        var element := CreateNameElement(listed[i]);
        elements := elements + [element];
      }
      assert listed[..|listed|] == listed;
    }

    method CommitInternal(elements: seq<TransactionElement>)
      requires lock.held
      modifies fileAdapter
      ensures fileAdapter.files == ApplyBatch(old(fileAdapter.files), elements, keyEncryption, valueEncryption)
    {
      for i := 0 to |elements|
        invariant fileAdapter.files == ApplyBatch(old(fileAdapter.files), elements[..i], keyEncryption, valueEncryption)
      {
        var element := elements[i];
        var action := element.action;
        var name := element.name;
        var encryptedName := keyEncryption.encrypt(name);
        var content := element.content;
        var encrypt := valueEncryption.encrypt(content);
        if action == Update {
          fileAdapter.Save(encryptedName, encrypt);
        }
        if action == Remove {
          fileAdapter.Remove(encryptedName);
        }
        assert elements[..i + 1][..i] == elements[..i];
      }
      assert elements[..|elements|] == elements;
    }
  }

  /**
   * A caller's view of the class: on a fresh empty store, commit
   * `[UPDATE("a", [1,2,3]), UPDATE("b", [4,5]), REMOVE("a")]`, then fetch everything.
   */
  method CommitThenFetchScenario(keyEncryption: KeyEncryption, valueEncryption: ValueEncryption)
    returns (fetched: seq<TransactionElement>)
    requires keyEncryption.Reversible() && valueEncryption.Reversible()
    ensures fetched == [CreateFetchElement("b", [4, 5])]
  {
    var fileAdapter := new FileAdapter(map[]);
    var lock := new ProcessLock();
    var transaction := new MultiProcessTransaction(fileAdapter, lock, valueEncryption, keyEncryption);
    transaction.Commit(ScenarioBatch());
    ghost var names;
    fetched, names := transaction.FetchContent();
    ScenarioOutcome(names, keyEncryption, valueEncryption);
  }
}
