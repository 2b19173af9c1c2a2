/**
 * The storage collaborator: a map from stored (encrypted) item names to stored
 * (encrypted) bytes. The listing, save and remove calls are methods of
 * `FileAdapter`; the fetch call is the map lookup in `TransactionSpec.FetchOneFrom`.
 */
module Storage {
  import opened Elements

  type Files = map<string, Bytes>

  predicate Distinct(names: seq<string>) {
    forall i, j :: 0 <= i < j < |names| ==> names[i] != names[j]
  }

  /** `names` lists every stored item exactly once, in the order storage chose. */
  ghost predicate IsListing(names: seq<string>, files: Files) {
    Distinct(names) && forall name :: name in names <==> name in files
  }

  lemma {:induction false} DistinctCardinality(names: seq<string>)
    requires Distinct(names)
    ensures |set name | name in names| == |names|
  {
    if names != [] {
      var rest := names[1..];
      assert Distinct(rest);
      DistinctCardinality(rest);
      assert names[0] !in rest;
      assert (set name | name in names) == {names[0]} + (set name | name in rest);
    }
  }

  /** A listing has one entry per stored item. */
  lemma ListingLength(names: seq<string>, files: Files)
    requires IsListing(names, files)
    ensures |names| == |files|
  {
    DistinctCardinality(names);
    assert (set name | name in names) == files.Keys;
  }

  class FileAdapter {
    var files: Files

    constructor (files: Files)
      ensures this.files == files
    {
      this.files := files;
    }

    /** Enumerate the stored names, in an order of storage's choosing. */
    method Names() returns (names: seq<string>)
      ensures IsListing(names, files)
    {
      names := [];
      var rest := files.Keys;
      while rest != {}
        invariant Distinct(names)
        invariant forall name :: name in files <==> name in names || name in rest
        invariant forall name :: name in rest ==> name !in names
        decreases rest
      {
        var name :| name in rest;
        names := names + [name];
        rest := rest - {name};
      }
    }

    /** Persist `bytes` under `name`, creating or overwriting the entry. */
    method Save(name: string, bytes: Bytes)
      modifies this
      ensures files == old(files)[name := bytes]
    {
      files := files[name := bytes];
    }

    /** Delete the entry for `name`; nothing happens when there is none. */
    method Remove(name: string)
      modifies this
      ensures files == old(files) - {name}
    {
      files := files - {name};
    }
  }
}
