# binaryprefs transaction layer, in Dafny

This project models `MultiProcessTransactionImpl`, the transaction layer of the
binaryprefs key-value preference store. Every public operation takes the
process-wide lock, works against the file adapter and the two transforms, and
releases the lock. The four operations are:

- `fetchContent`: every stored item as a FETCH element.
- `fetchOne`: a single item.
- `fetchNames`: documented as a name listing; the code returns what `fetchContent` returns.
- `commit`: applies an ordered batch of UPDATE and REMOVE elements.

The model is organised as follows:

- `Elements` holds the transaction element: an `action` tag in {FETCH, NAME, UPDATE, REMOVE}, a plaintext `name` and a byte `content`.
- `Encryption` holds the key and value transforms. Each is a pair of functions. `Reversible()` states that decryption undoes encryption.
- `Storage` holds the file adapter. It is a class whose `files` field maps stored (encrypted) names to stored (encrypted) bytes. `Names()` lists them in an order of its own choosing.
- `Locking` holds the process lock. Its ghost flag records whether the current call holds the lock.
- `TransactionSpec` states what each operation computes, as functions of the stored map:
  - `ApplyBatch` folds `ApplyElement` over the batch, first element to last.
  - `FetchAll` builds one FETCH element per listed name.
  - `FetchOneFrom` reads one entry.
- `Transaction.MultiProcessTransaction` is the class itself. Its methods run the loops of the source and are proved against those functions. The read methods also return, as a ghost value, the listing that storage produced.
- `TransactionProperties` proves what commit and the reads guarantee:
  - the batch is applied in order;
  - the last write for a name wins;
  - FETCH and NAME elements are ignored;
  - only the touched names change;
  - update then read gives the content back;
  - remove then read finds nothing;
  - commits to disjoint names commute.

## Where the code and its documented contract differ

In the second and third cases below the model follows the code. In the first there is no code to follow, and the model chooses a reading:

- `fetchContent` (line 34) calls `fetchAllInternal()`. No method of that name is defined in `MultiProcessTransactionImpl.java`. The only read-everything path in the file is `fetchContentInternal` (lines 73-81), so the model reads the call as `fetchContentInternal` and its `FetchContent` delegates to `FetchContentInternal`.
- `fetchOne` passes the caller's name to `fetchOneInternal` unchanged (line 45). `fetchOneInternal` gives it to storage without applying the key transform (line 84). So a plaintext name is found only if it happens to be a stored (encrypted) name, whereas the documented contract says the name is encrypted first. `FetchOneUsesNameAsGiven` shows this with a concrete reversible key transform.
- `fetchNames` calls `fetchContentInternal` (line 56), not `fetchNamesInternal`. So it returns FETCH elements with decrypted content, the same as `fetchContent`, not the cheaper NAME listing that is documented. `fetchNamesInternal` (lines 90-98) is never called. It is still modelled. It builds NAME elements from the stored names without decrypting them.

## Model

| member | source | states |
|---|---|---|
| `Transaction.MultiProcessTransaction.constructor` | library/src/main/java/com/ironz/binaryprefs/file/transaction/MultiProcessTransactionImpl.java:19-27 | the transaction keeps the file adapter, the lock and both transforms it is given |
| `Transaction.MultiProcessTransaction.FetchContent` | library/src/main/java/com/ironz/binaryprefs/file/transaction/MultiProcessTransactionImpl.java:29-38 | runs inside the lock and releases it; leaves the store unchanged; returns one decrypted FETCH element per stored name, in the order of the listing storage returned |
| `Transaction.MultiProcessTransaction.FetchOne` | library/src/main/java/com/ironz/binaryprefs/file/transaction/MultiProcessTransactionImpl.java:40-49 | runs inside the lock and releases it; leaves the store unchanged; looks the argument up as given, unencrypted; NotFound when storage has no such name |
| `Transaction.MultiProcessTransaction.FetchNames` | library/src/main/java/com/ironz/binaryprefs/file/transaction/MultiProcessTransactionImpl.java:51-60 | runs inside the lock and releases it; leaves the store unchanged; returns the same decrypted FETCH elements as FetchContent, not NAME elements |
| `Transaction.MultiProcessTransaction.Commit` | library/src/main/java/com/ironz/binaryprefs/file/transaction/MultiProcessTransactionImpl.java:62-71 | runs inside the lock and releases it; the new store is the old one with the batch applied element by element |
| `Transaction.MultiProcessTransaction.FetchContentInternal` | library/src/main/java/com/ironz/binaryprefs/file/transaction/MultiProcessTransactionImpl.java:73-81 | the elements are exactly as many as the stored items, one per name storage listed, in listing order, each with decrypted name and content |
| `Transaction.MultiProcessTransaction.FetchOneInternal` | library/src/main/java/com/ironz/binaryprefs/file/transaction/MultiProcessTransactionImpl.java:83-88 | succeeds exactly when the given name is a stored name; the element is tagged FETCH and carries the key-decrypted name and the value-decrypted bytes |
| `Transaction.MultiProcessTransaction.FetchNamesInternal` | library/src/main/java/com/ironz/binaryprefs/file/transaction/MultiProcessTransactionImpl.java:90-98 | exactly as many elements as stored items, one NAME element per name storage listed, in listing order, each carrying a stored name undecrypted |
| `Transaction.MultiProcessTransaction.CommitInternal` | library/src/main/java/com/ironz/binaryprefs/file/transaction/MultiProcessTransactionImpl.java:100-114 | after the loop the store is the old store with every element of the batch applied in list order |
| `Transaction.CommitThenFetchScenario` | library/src/main/java/com/ironz/binaryprefs/file/transaction/MultiProcessTransactionImpl.java:62-80 | on an empty store, committing UPDATE a, UPDATE b, REMOVE a and then fetching everything gives exactly FETCH("b", [4,5]) |
| `TransactionSpec.FetchedElement` | library/src/main/java/com/ironz/binaryprefs/file/transaction/MultiProcessTransactionImpl.java:85-87 | the FETCH element of one stored entry carries the key-decrypted name and the value-decrypted bytes; under reversible transforms and encrypted stored names, its name encrypts back to the stored name |
| `TransactionSpec.ApplyElement` | library/src/main/java/com/ironz/binaryprefs/file/transaction/MultiProcessTransactionImpl.java:102-112 | UPDATE leaves the encrypted content under the encrypted name, REMOVE leaves the encrypted name absent, FETCH and NAME change nothing, and no other stored name changes |
| `TransactionSpec.ApplyBatch` | library/src/main/java/com/ironz/binaryprefs/file/transaction/MultiProcessTransactionImpl.java:100-113 | the batch applied element by element, first to last; every name it adds to the store is the encrypted name of some UPDATE element of the batch |
| `TransactionSpec.FetchOneFrom` | library/src/main/java/com/ironz/binaryprefs/file/transaction/MultiProcessTransactionImpl.java:83-87 | the read succeeds exactly when the name, taken as given, is stored; otherwise NotFound for that same name |
| `TransactionSpec.FetchAll` | library/src/main/java/com/ironz/binaryprefs/file/transaction/MultiProcessTransactionImpl.java:73-80 | one element per listed name, same count |
| `TransactionSpec.NameElements` | library/src/main/java/com/ironz/binaryprefs/file/transaction/MultiProcessTransactionImpl.java:92-96 | one NAME element per listed name, same count |
| `TransactionProperties.ApplyBatchConcat` | library/src/main/java/com/ironz/binaryprefs/file/transaction/MultiProcessTransactionImpl.java:100-113 | committing a + b is committing a, then b: elements are applied in list order |
| `TransactionProperties.ApplyBatchSnoc` | library/src/main/java/com/ironz/binaryprefs/file/transaction/MultiProcessTransactionImpl.java:101-112 | one more element is applied to the store the rest of the batch left |
| `TransactionProperties.ApplyBatchFrame` | library/src/main/java/com/ironz/binaryprefs/file/transaction/MultiProcessTransactionImpl.java:101-112 | a stored name that no UPDATE or REMOVE element encrypts to keeps its presence and its bytes |
| `TransactionProperties.LastWriteWins` | library/src/main/java/com/ironz/binaryprefs/file/transaction/MultiProcessTransactionImpl.java:100-113 | the last UPDATE or REMOVE for a stored name decides it: UPDATE leaves its encrypted content, REMOVE leaves it absent |
| `TransactionProperties.LastWriteWinsByName` | library/src/main/java/com/ironz/binaryprefs/file/transaction/MultiProcessTransactionImpl.java:100-113 | with a reversible key transform, the last UPDATE or REMOVE for a plaintext name decides what is stored under its encrypted form |
| `TransactionProperties.ApplyBatchIgnoresNonMutations` | library/src/main/java/com/ironz/binaryprefs/file/transaction/MultiProcessTransactionImpl.java:107-112 | committing a batch equals committing only its UPDATE and REMOVE elements: FETCH and NAME elements change nothing |
| `TransactionProperties.ApplyBatchKeepsKeysEncrypted` | library/src/main/java/com/ironz/binaryprefs/file/transaction/MultiProcessTransactionImpl.java:104-111 | commit only ever writes names produced by the key transform, so every stored name stays an encrypted plaintext name |
| `TransactionProperties.FetchAllCoversStore` | library/src/main/java/com/ironz/binaryprefs/file/transaction/MultiProcessTransactionImpl.java:73-80 | reading a listing of the store gives as many elements as stored items, and the element of every stored item is among them |
| `TransactionProperties.UpdateThenFetchOne` | library/src/main/java/com/ironz/binaryprefs/file/transaction/MultiProcessTransactionImpl.java:83-108 | with reversible transforms, after committing UPDATE(n, c), reading the encrypted name of n gives FETCH(n, c) |
| `TransactionProperties.UpdateThenFetchContent` | library/src/main/java/com/ironz/binaryprefs/file/transaction/MultiProcessTransactionImpl.java:73-108 | with reversible transforms, after committing UPDATE(n, c), every full read contains FETCH(n, c) |
| `TransactionProperties.RemoveThenFetch` | library/src/main/java/com/ironz/binaryprefs/file/transaction/MultiProcessTransactionImpl.java:110-111 | after committing REMOVE(n) to a store of encrypted names, no element of a full read is named n and reading the encrypted name of n fails |
| `TransactionProperties.RemoveIdempotent` | library/src/main/java/com/ironz/binaryprefs/file/transaction/MultiProcessTransactionImpl.java:110-111 | removing a name twice leaves the same store as removing it once; the second REMOVE does not fail |
| `TransactionProperties.ScenarioOutcome` | library/src/main/java/com/ironz/binaryprefs/file/transaction/MultiProcessTransactionImpl.java:100-113 | on an empty store, UPDATE a, UPDATE b, REMOVE a leaves only the encrypted b, and a full read gives exactly FETCH("b", [4,5]) |
| `TransactionProperties.FetchOneUsesNameAsGiven` | library/src/main/java/com/ironz/binaryprefs/file/transaction/MultiProcessTransactionImpl.java:41-45 | with a reversible key transform that prefixes '#', after committing UPDATE("a", [1]), fetchOne("a") is NotFound while fetchOne("#a") returns FETCH("a", [1]) |
| `TransactionProperties.ApplyBatchPointwise` | library/src/main/java/com/ironz/binaryprefs/file/transaction/MultiProcessTransactionImpl.java:101-112 | what a batch leaves under one stored name depends only on what was stored under that name before |
| `TransactionProperties.DisjointCommitsCommute` | library/src/main/java/com/ironz/binaryprefs/file/transaction/MultiProcessTransactionImpl.java:62-71 | two commits whose mutations touch different stored names give the same store whichever takes the lock first |
| `Encryption.EncryptInjective` | library/src/main/java/com/ironz/binaryprefs/file/transaction/MultiProcessTransactionImpl.java:104 | a reversible key transform maps different names to different stored names |
| `Storage.ListingLength` | library/src/main/java/com/ironz/binaryprefs/file/transaction/MultiProcessTransactionImpl.java:74-75 | a listing of the stored names has exactly one entry per stored item |
| `Storage.FileAdapter.Names` | library/src/main/java/com/ironz/binaryprefs/file/transaction/MultiProcessTransactionImpl.java:74 | lists every stored name exactly once and nothing else |
| `Storage.FileAdapter.Save` | library/src/main/java/com/ironz/binaryprefs/file/transaction/MultiProcessTransactionImpl.java:108 | stores the bytes under the name, creating or overwriting; nothing else changes |
| `Storage.FileAdapter.Remove` | library/src/main/java/com/ironz/binaryprefs/file/transaction/MultiProcessTransactionImpl.java:111 | deletes the name's entry, and does nothing when there is none; nothing else changes |
| `Locking.ProcessLock.Lock` | library/src/main/java/com/ironz/binaryprefs/file/transaction/MultiProcessTransactionImpl.java:31-32 | afterwards the current call holds the lock |
| `Locking.ProcessLock.Unlock` | library/src/main/java/com/ironz/binaryprefs/file/transaction/MultiProcessTransactionImpl.java:35-36 | afterwards the current call no longer holds the lock |

## Left out

- Cross-process mutual exclusion itself is not modelled: blocking in `lock()`, other processes and threads, and the lock factory. The lock is a ghost flag that each public operation sets and then clears. The model assumes one critical section per call, so the public operations require the lock not to be held already.
- Failures of the collaborators are not modelled: I/O errors, transform errors, and a commit batch that fails partway and leaves a prefix applied. So the `finally` release is only modelled on the normal path. The one failure that is modelled is reading a name storage does not have. It becomes `Failure(NotFound(name))`. The file adapter's own behaviour on a missing name is not part of this model.
- `valueEncryption.encrypt` is computed for every element of a batch, including REMOVE, FETCH and NAME elements whose content may be null (line 106). The result is used only for UPDATE. An absent content is modelled as the empty payload, and a transform failure on null is not modelled.
- The value transform may use a random IV. It is modelled as one fixed function, which stands for the ciphertext it happened to produce.
- The real encryption algorithms are not modelled. The transforms are arbitrary function values. Only round-trip lemmas assume that they are reversible.
- The order of `fileAdapter.names()` is not modelled. `Names()` picks some order, and the read operations are proved for whatever listing it returns.
- The action tag is an `int` in the source. Values other than the four tags are not modelled. Like FETCH and NAME, they would be ignored by commit.
- The internals of `FileAdapter`, `KeyEncryption`, `ValueEncryption`, `LockFactory` and `TransactionElement` are not part of this model. They are represented by the map, the function pairs, the ghost lock flag and the element datatype.
