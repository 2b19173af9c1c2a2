/** What committing a batch and reading the store back guarantee. */
module TransactionProperties {
  import opened Elements
  import opened Encryption
  import opened Storage
  import opened TransactionSpec

  /** Committing `a + b` is committing `a`, then `b`: elements apply in list order. */
  lemma {:induction false} ApplyBatchConcat(files: Files, a: seq<TransactionElement>, b: seq<TransactionElement>, keys: KeyEncryption, values: ValueEncryption)
    ensures ApplyBatch(files, a + b, keys, values) == ApplyBatch(ApplyBatch(files, a, keys, values), b, keys, values)
    decreases |b|
  {
    if b == [] {
      assert a + b == a;
    } else {
      var front := b[..|b| - 1];
      assert (a + b)[..|a + b| - 1] == a + front;
      ApplyBatchConcat(files, a, front, keys, values);
    }
  }

  /** Committing one more element applies it to the store the rest of the batch left. */
  lemma ApplyBatchSnoc(files: Files, batch: seq<TransactionElement>, e: TransactionElement, keys: KeyEncryption, values: ValueEncryption)
    ensures ApplyBatch(files, batch + [e], keys, values) == ApplyElement(ApplyBatch(files, batch, keys, values), e, keys, values)
  {
    assert (batch + [e])[..|batch|] == batch;
  }

  /**
   * A stored name that no UPDATE or REMOVE element of the batch encrypts to is
   * left exactly as it was: present with the same bytes, or absent.
   */
  lemma {:induction false} ApplyBatchFrame(files: Files, batch: seq<TransactionElement>, storedName: string, keys: KeyEncryption, values: ValueEncryption)
    requires forall j :: 0 <= j < |batch| && Mutates(batch[j]) ==> keys.encrypt(batch[j].name) != storedName
    ensures storedName in ApplyBatch(files, batch, keys, values) <==> storedName in files
    ensures storedName in files ==> ApplyBatch(files, batch, keys, values)[storedName] == files[storedName]
    decreases |batch|
  {
    if batch != [] {
      ApplyBatchFrame(files, batch[..|batch| - 1], storedName, keys, values);
    }
  }

  /**
   * The last UPDATE or REMOVE element for a stored name decides it: an UPDATE
   * leaves its encrypted content there, a REMOVE leaves the name absent.
   */
  lemma LastWriteWins(files: Files, batch: seq<TransactionElement>, i: nat, keys: KeyEncryption, values: ValueEncryption)
    requires i < |batch| && Mutates(batch[i])
    requires forall j :: i < j < |batch| && Mutates(batch[j]) ==> keys.encrypt(batch[j].name) != keys.encrypt(batch[i].name)
    ensures var after := ApplyBatch(files, batch, keys, values);
            var storedName := keys.encrypt(batch[i].name);
            && (batch[i].action == Update ==> storedName in after && after[storedName] == values.encrypt(batch[i].content))
            && (batch[i].action == Remove ==> storedName !in after)
  {
    var storedName := keys.encrypt(batch[i].name);
    var prefix, suffix := batch[..i + 1], batch[i + 1..];
    assert batch == prefix + suffix;
    ApplyBatchConcat(files, prefix, suffix, keys, values);
    assert prefix[..|prefix| - 1] == batch[..i];
    var middle := ApplyBatch(files, prefix, keys, values);
    ApplyBatchFrame(middle, suffix, storedName, keys, values);
  }

  /**
   * Last write wins, by plaintext name: with a reversible key transform, the
   * last UPDATE or REMOVE element for a name decides what is stored for it.
   */
  lemma LastWriteWinsByName(files: Files, batch: seq<TransactionElement>, i: nat, keys: KeyEncryption, values: ValueEncryption)
    requires keys.Reversible()
    requires i < |batch| && Mutates(batch[i])
    requires forall j :: i < j < |batch| && Mutates(batch[j]) ==> batch[j].name != batch[i].name
    ensures var after := ApplyBatch(files, batch, keys, values);
            var storedName := keys.encrypt(batch[i].name);
            && (batch[i].action == Update ==> storedName in after && after[storedName] == values.encrypt(batch[i].content))
            && (batch[i].action == Remove ==> storedName !in after)
  {
    forall j | i < j < |batch| && Mutates(batch[j])
      ensures keys.encrypt(batch[j].name) != keys.encrypt(batch[i].name)
    {
      EncryptInjective(keys, batch[j].name, batch[i].name);
    }
    LastWriteWins(files, batch, i, keys, values);
  }

  /** FETCH and NAME elements in a batch change nothing: only the mutations matter. */
  lemma {:induction false} ApplyBatchIgnoresNonMutations(files: Files, batch: seq<TransactionElement>, keys: KeyEncryption, values: ValueEncryption)
    ensures ApplyBatch(files, batch, keys, values) == ApplyBatch(files, Mutations(batch), keys, values)
    decreases |batch|
  {
    if batch != [] {
      var front, last := batch[..|batch| - 1], batch[|batch| - 1];
      var tail := if Mutates(last) then [last] else [];
      ApplyBatchIgnoresNonMutations(files, front, keys, values);
      ApplyBatchConcat(files, Mutations(front), tail, keys, values);
      if Mutates(last) {
        assert ApplyBatch(ApplyBatch(files, Mutations(front), keys, values), tail, keys, values)
            == ApplyElement(ApplyBatch(files, front, keys, values), last, keys, values) by {
          assert tail[..0] == [];
        }
      }
    }
  }

  /** Commit keeps every stored name the encrypted form of a plaintext name. */
  lemma {:induction false} ApplyBatchKeepsKeysEncrypted(files: Files, batch: seq<TransactionElement>, keys: KeyEncryption, values: ValueEncryption)
    requires keys.Reversible() && KeysEncrypted(files, keys)
    ensures KeysEncrypted(ApplyBatch(files, batch, keys, values), keys)
    decreases |batch|
  {
    if batch != [] {
      ApplyBatchKeepsKeysEncrypted(files, batch[..|batch| - 1], keys, values);
      var name := batch[|batch| - 1].name;
      assert keys.decrypt(keys.encrypt(name)) == name;
    }
  }

  /** A listing of the store reads back as exactly one FETCH element per stored item. */
  lemma FetchAllCoversStore(files: Files, names: seq<string>, keys: KeyEncryption, values: ValueEncryption)
    requires IsListing(names, files)
    ensures |FetchAll(files, names, keys, values)| == |files|
    ensures forall storedName :: storedName in files ==> FetchedElement(files, storedName, keys, values) in FetchAll(files, names, keys, values)
  {
    ListingLength(names, files);
    var fetched := FetchAll(files, names, keys, values);
    forall storedName | storedName in files
      ensures FetchedElement(files, storedName, keys, values) in fetched
    {
      var i :| 0 <= i < |names| && names[i] == storedName;
      assert fetched[i] == FetchedElement(files, storedName, keys, values);
    }
  }

  /** After `commit([UPDATE(n, c)])`, fetching the encrypted name gives back `(n, c)`. */
  lemma UpdateThenFetchOne(files: Files, name: string, content: Bytes, keys: KeyEncryption, values: ValueEncryption)
    requires keys.Reversible() && values.Reversible()
    ensures var after := ApplyBatch(files, [CreateUpdateElement(name, content)], keys, values);
            FetchOneFrom(after, keys.encrypt(name), keys, values) == Success(CreateFetchElement(name, content))
  {
    var batch := [CreateUpdateElement(name, content)];
    assert batch[..0] == [];
    assert keys.decrypt(keys.encrypt(name)) == name;
    assert values.decrypt(values.encrypt(content)) == content;
  }

  /** After `commit([UPDATE(n, c)])`, every listing of the store reads back `(n, c)`. */
  lemma UpdateThenFetchContent(files: Files, name: string, content: Bytes, names: seq<string>, keys: KeyEncryption, values: ValueEncryption)
    requires keys.Reversible() && values.Reversible()
    requires IsListing(names, ApplyBatch(files, [CreateUpdateElement(name, content)], keys, values))
    ensures CreateFetchElement(name, content) in FetchAll(ApplyBatch(files, [CreateUpdateElement(name, content)], keys, values), names, keys, values)
  {
    var after := ApplyBatch(files, [CreateUpdateElement(name, content)], keys, values);
    UpdateThenFetchOne(files, name, content, keys, values);
    FetchAllCoversStore(after, names, keys, values);
  }

  /**
   * After `commit([REMOVE(n)])` no read returns `n`, provided every stored
   * name was the encrypted form of a plaintext name.
   */
  lemma RemoveThenFetch(files: Files, name: string, names: seq<string>, keys: KeyEncryption, values: ValueEncryption)
    requires keys.Reversible() && KeysEncrypted(files, keys)
    requires IsListing(names, ApplyBatch(files, [CreateRemoveElement(name)], keys, values))
    ensures forall e :: e in FetchAll(ApplyBatch(files, [CreateRemoveElement(name)], keys, values), names, keys, values) ==> e.name != name
    ensures FetchOneFrom(ApplyBatch(files, [CreateRemoveElement(name)], keys, values), keys.encrypt(name), keys, values).Failure?
  {
    var batch := [CreateRemoveElement(name)];
    ApplyBatchSnoc(files, [], CreateRemoveElement(name), keys, values);
    var after := ApplyBatch(files, batch, keys, values);
    assert after == files - {keys.encrypt(name)};
    var fetched := FetchAll(after, names, keys, values);
    forall e | e in fetched
      ensures e.name != name
    {
      var i :| 0 <= i < |fetched| && fetched[i] == e;
      var storedName := names[i];
      assert storedName in files && storedName != keys.encrypt(name);
      assert keys.encrypt(keys.decrypt(storedName)) == storedName;
    }
  }

  /** Removing a name twice is removing it once; the second REMOVE does not fail. */
  lemma RemoveIdempotent(files: Files, name: string, keys: KeyEncryption, values: ValueEncryption)
    ensures ApplyBatch(files, [CreateRemoveElement(name), CreateRemoveElement(name)], keys, values)
         == ApplyBatch(files, [CreateRemoveElement(name)], keys, values)
  {
    var once := [CreateRemoveElement(name)];
    var twice := once + once;
    ApplyBatchConcat(files, once, once, keys, values);
    assert once[..0] == [];
    assert twice == [CreateRemoveElement(name), CreateRemoveElement(name)];
  }

  /** The batch `[UPDATE("a", [1,2,3]), UPDATE("b", [4,5]), REMOVE("a")]`. */
  function ScenarioBatch(): seq<TransactionElement> {
    [CreateUpdateElement("a", [1, 2, 3]), CreateUpdateElement("b", [4, 5]), CreateRemoveElement("a")]
  }

  /**
   * Committing the scenario batch to an empty store leaves only "b", and
   * reading the store back gives exactly `[FETCH("b", [4,5])]`.
   */
  lemma ScenarioOutcome(names: seq<string>, keys: KeyEncryption, values: ValueEncryption)
    requires keys.Reversible() && values.Reversible()
    requires IsListing(names, ApplyBatch(map[], ScenarioBatch(), keys, values))
    ensures ApplyBatch(map[], ScenarioBatch(), keys, values) == map[keys.encrypt("b") := values.encrypt([4, 5])]
    ensures FetchAll(ApplyBatch(map[], ScenarioBatch(), keys, values), names, keys, values) == [CreateFetchElement("b", [4, 5])]
  {
    var a: Bytes, b: Bytes := [1, 2, 3], [4, 5];
    var updateA, updateB, removeA := CreateUpdateElement("a", a), CreateUpdateElement("b", b), CreateRemoveElement("a");
    EncryptInjective(keys, "a", "b");
    var storedA, storedB := keys.encrypt("a"), keys.encrypt("b");
    ApplyBatchSnoc(map[], [], updateA, keys, values);
    var first := ApplyBatch(map[], [updateA], keys, values);
    assert first == map[storedA := values.encrypt(a)];
    ApplyBatchSnoc(map[], [updateA], updateB, keys, values);
    assert [updateA] + [updateB] == [updateA, updateB];
    var second := ApplyBatch(map[], [updateA, updateB], keys, values);
    assert second == first[storedB := values.encrypt(b)];
    ApplyBatchSnoc(map[], [updateA, updateB], removeA, keys, values);
    assert [updateA, updateB] + [removeA] == ScenarioBatch();
    var after := ApplyBatch(map[], ScenarioBatch(), keys, values);
    assert after == second - {storedA};
    assert after == map[storedB := values.encrypt(b)];
    ListingLength(names, after);
    assert names == [keys.encrypt("b")];
    assert keys.decrypt(keys.encrypt("b")) == "b";
    assert values.decrypt(values.encrypt(b)) == b;
  }

  /** A key transform that prefixes '#': reversible, and never the identity. */
  function PrefixKeys(): KeyEncryption {
    KeyEncryption(name => ['#'] + name, storedName => if |storedName| > 0 then storedName[1..] else storedName)
  }

  /**
   * The public single read passes the caller's name to storage unencrypted:
   * after committing `UPDATE("a", [1])` under `PrefixKeys`, reading "a" finds
   * nothing, while reading the encrypted name "#a" finds the entry.
   */
  lemma FetchOneUsesNameAsGiven(values: ValueEncryption)
    requires values.Reversible()
    ensures PrefixKeys().Reversible()
    ensures var after := ApplyBatch(map[], [CreateUpdateElement("a", [1])], PrefixKeys(), values);
            && FetchOneFrom(after, "a", PrefixKeys(), values) == Failure(NotFound("a"))
            && FetchOneFrom(after, "#a", PrefixKeys(), values) == Success(CreateFetchElement("a", [1]))
  {
    var keys := PrefixKeys();
    forall name: string ensures keys.decrypt(keys.encrypt(name)) == name {
      assert (['#'] + name)[1..] == name;
    }
    assert keys.encrypt("a") == "#a";
    UpdateThenFetchOne(map[], "a", [1], keys, values);
  }

  /** Two stores hold the same thing under `storedName`: both nothing, or the same bytes. */
  ghost predicate AgreeAt(left: Files, right: Files, storedName: string) {
    (storedName in left <==> storedName in right) && (storedName in left ==> left[storedName] == right[storedName])
  }

  /** What a batch leaves under one stored name depends only on what was there before. */
  lemma {:induction false} ApplyBatchPointwise(left: Files, right: Files, batch: seq<TransactionElement>, storedName: string, keys: KeyEncryption, values: ValueEncryption)
    requires AgreeAt(left, right, storedName)
    ensures AgreeAt(ApplyBatch(left, batch, keys, values), ApplyBatch(right, batch, keys, values), storedName)
    decreases |batch|
  {
    if batch != [] {
      ApplyBatchPointwise(left, right, batch[..|batch| - 1], storedName, keys, values);
    }
  }

  /**
   * Two commits whose UPDATE and REMOVE elements touch different stored names
   * give the same store whichever of them takes the lock first.
   */
  lemma DisjointCommitsCommute(files: Files, first: seq<TransactionElement>, second: seq<TransactionElement>, keys: KeyEncryption, values: ValueEncryption)
    requires forall i, j :: 0 <= i < |first| && 0 <= j < |second| && Mutates(first[i]) && Mutates(second[j]) ==>
               keys.encrypt(first[i].name) != keys.encrypt(second[j].name)
    ensures ApplyBatch(ApplyBatch(files, first, keys, values), second, keys, values)
         == ApplyBatch(ApplyBatch(files, second, keys, values), first, keys, values)
  {
    var afterFirst := ApplyBatch(files, first, keys, values);
    var afterSecond := ApplyBatch(files, second, keys, values);
    var firstThenSecond := ApplyBatch(afterFirst, second, keys, values);
    var secondThenFirst := ApplyBatch(afterSecond, first, keys, values);
    forall storedName
      ensures storedName in firstThenSecond <==> storedName in secondThenFirst
      ensures storedName in firstThenSecond ==> firstThenSecond[storedName] == secondThenFirst[storedName]
    {
      if exists i :: 0 <= i < |first| && Mutates(first[i]) && keys.encrypt(first[i].name) == storedName {
        ApplyBatchFrame(afterFirst, second, storedName, keys, values);
        ApplyBatchFrame(files, second, storedName, keys, values);
        ApplyBatchPointwise(afterSecond, files, first, storedName, keys, values);
      } else {
        ApplyBatchFrame(afterSecond, first, storedName, keys, values);
        ApplyBatchFrame(files, first, storedName, keys, values);
        ApplyBatchPointwise(afterFirst, files, second, storedName, keys, values);
      }
    }
    assert firstThenSecond.Keys == secondThenFirst.Keys;
    assert forall storedName :: storedName in firstThenSecond ==> firstThenSecond[storedName] == secondThenFirst[storedName];
  }
}
