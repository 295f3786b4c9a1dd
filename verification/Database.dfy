/** The database: collections by name, their updates, and saving and loading all of them. */
module Databases {
  import opened Bytes
  import opened Wire
  import opened Tables
  import opened Batches
  import opened Iteration
  import opened Persistence
  import opened Streams
  import opened Directory
  import opened Storage

  datatype Status =
    | Success
    | CollectionAlreadyExists
    | CollectionDoesNotExist
    | CollectionNameCantBeEmpty
    | CollectionNameTooLong
    | CollectionNameInvalidCharacters
    | VectorDimensionMismatch
    | InternalError

  /** Letters, digits and the underscore. */
  predicate IsNameCharacter(c: Byte) {
    48 <= c <= 57 || 65 <= c <= 90 || 97 <= c <= 122 || c == 95
  }

  /** utils.cpp lines 41-55. */
  function NameStatus(name: Name): (s: Status)
    ensures s == CollectionNameCantBeEmpty <==> name == []
    ensures s == CollectionNameTooLong <==> |name| > 128
    ensures s == Success <==> 0 < |name| <= 128 && forall i :: 0 <= i < |name| ==>
      'a' as int <= name[i] <= 'z' as int || 'A' as int <= name[i] <= 'Z' as int
      || '0' as int <= name[i] <= '9' as int || name[i] == '_' as int
    ensures s in {Success, CollectionNameCantBeEmpty, CollectionNameTooLong, CollectionNameInvalidCharacters}
    ensures s == Success ==> Plain(name)
  {
    if name == [] then CollectionNameCantBeEmpty
    else if |name| > 128 then CollectionNameTooLong
    else if exists i :: 0 <= i < |name| && !IsNameCharacter(name[i]) then CollectionNameInvalidCharacters
    else Success
  }

  /** An `int` dimension compared with an `unsigned` one. */
  predicate DimensionsAgree(batch: seq<(U64, StoredVector)>, dimension: U32) {
    forall i :: 0 <= i < |batch| ==> batch[i].1.dimension % 0x1_0000_0000 == dimension
  }

  /** Every stored vector has the dimension of its collection. */
  ghost predicate UniformIn(c: Snapshot) {
    forall id :: id in c.vectors ==> c.vectors[id].dimension % 0x1_0000_0000 == c.dimension
  }

  lemma UpsertedIsUniform(c: Snapshot, batch: seq<(U64, StoredVector)>)
    requires UniformIn(c) && DimensionsAgree(batch, c.dimension)
    ensures UniformIn(c.(vectors := Upserted(c.vectors, batch)))
  {
    UpsertedFacts(c.vectors, batch);
  }

  /** An index that is there already under the name stays: `emplace` does not replace it. */
  function WithIndex(c: Snapshot, name: Name, kind: IndexType, p: Params): Snapshot {
    if MakesIndex(kind, p.Hnsw?, p.IvfFlat?) && name !in c.indices then c.(indices := c.indices[name := p]) else c
  }

  /** The directory `storage_path`, in the file system. */
  class Disk {
    var files: Files

    method Write(name: Name, text: Data)
      modifies this
      ensures files == old(files)[name := text]
    {
      files := files[name := text];
    }

    method Rename(from: Name, to: Name)
      requires from in files
      modifies this
      ensures files == Renamed(old(files), from, to)
    {
      files := (files - {from})[to := files[from]];
    }
  }

  class Database {
    var collections: Collections

    /** Collections are filed under their own names, and hold only indices of the kinds that are saved. */
    ghost predicate Valid()
      reads this
    {
      forall n :: n in collections ==> collections[n].name == n && AllSaved(collections[n])
    }

    /** True as long as every collection came from `AddCollection` or from a file that `Save` wrote. */
    ghost predicate PlainNames()
      reads this
    {
      forall n :: n in collections ==> Plain(n)
    }

    /** True as long as every vector came from `AddVectors` or from a file that `Save` wrote. */
    ghost predicate Uniform()
      reads this
    {
      forall n :: n in collections ==> UniformIn(collections[n])
    }

    constructor ()
      ensures Valid() && PlainNames() && Uniform() && collections == map[]
    {
      collections := map[];
    }

    /** Lines 66-75 of database.cpp. */
    method AddCollection(name: Name, dimension: U32) returns (status: Status)
      requires Valid()
      modifies this
      ensures Valid() && (old(PlainNames()) ==> PlainNames()) && (old(Uniform()) ==> Uniform())
      ensures status ==
        if NameStatus(name) != Success then NameStatus(name)
        else if name in old(collections) then CollectionAlreadyExists else Success
      ensures collections ==
        if status == Success then old(collections)[name := Snapshot(name, dimension, map[], map[])]
        else old(collections)
    {
      status := NameStatus(name);
      if status != Success { return; }
      if name in collections { return CollectionAlreadyExists; }
      collections := collections[name := Snapshot(name, dimension, map[], map[])];
    }

    /** Lines 77-87. */
    method DeleteCollection(name: Name) returns (status: Status)
      requires Valid()
      modifies this
      ensures Valid() && (old(PlainNames()) ==> PlainNames()) && (old(Uniform()) ==> Uniform())
      ensures status == Found(name, old(collections))
      ensures collections == if status == Success then old(collections) - {name} else old(collections)
    {
      status := NameStatus(name);
      if status != Success { return; }
      if name !in collections { return CollectionDoesNotExist; }
      collections := collections - {name};
    }

    /** The checks with which operations on one collection begin. */
    function Found(name: Name, among: Collections): (s: Status)
      ensures s == Success <==> NameStatus(name) == Success && name in among
      ensures s == CollectionDoesNotExist <==> NameStatus(name) == Success && name !in among
      ensures NameStatus(name) != Success ==> s == NameStatus(name)
    {
      if NameStatus(name) != Success then NameStatus(name)
      else if name !in among then CollectionDoesNotExist
      else Success
    }

    /** Lines 22-39: a batch goes in whole, or, when one vector has another dimension, not at all. */
    method AddVectors(name: Name, batch: seq<(U64, StoredVector)>) returns (status: Status)
      requires Valid()
      modifies this
      ensures Valid() && (old(PlainNames()) ==> PlainNames()) && (old(Uniform()) ==> Uniform())
      ensures Found(name, old(collections)) != Success ==> status == Found(name, old(collections))
      ensures status == VectorDimensionMismatch <==>
        && Found(name, old(collections)) == Success
        && exists i :: 0 <= i < |batch| && batch[i].1.dimension % 0x1_0000_0000 != old(collections)[name].dimension
      ensures Found(name, old(collections)) == Success ==> status == VectorDimensionMismatch || status == Success
      ensures collections ==
        if status != Success then old(collections)
        else var c := old(collections)[name]; old(collections)[name := c.(vectors := Upserted(c.vectors, batch))]
    {
      status := NameStatus(name);
      if status != Success { return; }
      if name !in collections { return CollectionDoesNotExist; }
      var c := collections[name];
      for i := 0 to |batch|
        invariant DimensionsAgree(batch[..i], c.dimension)
      {
        if batch[i].1.dimension % 0x1_0000_0000 != c.dimension { return VectorDimensionMismatch; }
      }
      assert batch[..|batch|] == batch;
      if UniformIn(c) { UpsertedIsUniform(c, batch); }
      var vectors, ids, added, updated := UpsertAll(c.vectors, batch);
      collections := collections[name := c.(vectors := vectors)];
    }

    /** Lines 104-115: ids that are not stored are passed over. */
    method DeleteVectors(name: Name, ids: seq<U64>) returns (status: Status)
      requires Valid()
      modifies this
      ensures Valid() && (old(PlainNames()) ==> PlainNames()) && (old(Uniform()) ==> Uniform())
      ensures status == Found(name, old(collections))
      ensures collections ==
        if status != Success then old(collections)
        else var c := old(collections)[name]; old(collections)[name := c.(vectors := c.vectors - Elements(ids))]
    {
      status := NameStatus(name);
      if status != Success { return; }
      if name !in collections { return CollectionDoesNotExist; }
      var c := collections[name];
      var vectors, removed := EraseAll(c.vectors, ids);
      collections := collections[name := c.(vectors := vectors)];
    }

    /** Lines 117-131: the answer is success even where no index was made. */
    method AddIndex(name: Name, indexName: Name, kind: IndexType, p: Params) returns (status: Status)
      requires Valid()
      modifies this
      ensures Valid() && (old(PlainNames()) ==> PlainNames()) && (old(Uniform()) ==> Uniform())
      ensures status == Found(name, old(collections))
      ensures collections ==
        if status != Success then old(collections)
        else old(collections)[name := WithIndex(old(collections)[name], indexName, kind, p)]
      ensures status == Success ==>
        && var c, c' := old(collections)[name], collections[name];
        && c' == Snapshot(c.name, c.dimension, c.vectors, c'.indices)
        && c'.indices ==
           if indexName !in c.indices && ((p.Hnsw? && kind == HnswType) || (p.IvfFlat? && kind == IvfFlatType))
           then c.indices[indexName := p] else c.indices
    {
      status := NameStatus(name);
      if status != Success { return; }
      if name !in collections { return CollectionDoesNotExist; }
      collections := collections[name := WithIndex(collections[name], indexName, kind, p)];
    }

    // ----- Saving -----

    /** Lines 148-175; the collections in the order of the hash map, whatever it is. */
    method Save(disk: Disk) returns (status: Status)
      requires disk as object != this
      modifies disk
      ensures status == Success
      ensures PlainNames() ==> SavedAs(old(disk.files), collections, disk.files)
    {
      ghost var before, order, texts := disk.files, [], map[];
      var rest := collections.Keys;
      NoneDone(rest);
      while rest != {}
        invariant rest <= collections.Keys
        invariant SavedPart(collections, collections.Keys - rest, order, texts)
        invariant PlainNames() ==> disk.files == SavedIn(before, order, texts)
      {
        var name :| name in rest;
        ghost var text := SaveOne(name, collections[name], disk);
        NextDone(collections.Keys, rest, name);
        SaveNext(before, collections, collections.Keys - rest, order, texts, name, text);
        order, texts, rest := order + [name], texts[name := text], rest - {name};
      }
      NoneDone(collections.Keys);
      status := Success;
    }

    /** Lines 161-173. */
    method SaveOne(name: Name, c: Snapshot, disk: Disk) returns (ghost text: Data)
      modifies disk
      ensures IsTextOf(text, c)
      ensures Plain(name) ==> disk.files == SavedOne(old(disk.files), name, text)
    {
      var file := ReplaceExtension(name, TMP_SUFFIX);
      var os := new OutStream();
      ghost var ids, names := Serialize(c, os);
      assert os.bytes == Encode(c, ids, names);
      disk.Write(file, os.bytes);
      text := os.bytes;
      if Plain(name) { FileNames(name); }
      disk.Rename(file, ReplaceExtension(file, []));
    }

    // ----- Loading -----

    /**
     Lines 184-213. A file with an unknown HNSW distance throws, which ends the whole
     load. What is read from a file cut short is left open.
    */
    method Load(disk: Disk) returns (status: Status, ghost order: seq<Name>)
      requires Valid()
      modifies this
      ensures Valid()
      ensures AllParse(ParseCollection, disk.files) ==>
        && status == Success
        && IsOrder(order, DbFiles(disk.files)) && Within(order, disk.files.Keys)
        && collections == LoadedFrom(ParseCollection, NameOf, disk.files, order, old(collections))
    {
      status, order := LoadFiles(disk.files, ParseCollection);
    }

    /** Lines 195-212; the files in whatever order the directory lists them. */
    method LoadFiles(files: Files, ghost read: Reader<Snapshot>) returns (status: Status, ghost order: seq<Name>)
      requires Valid() && Same(read, ParseCollection)
      modifies this
      ensures Valid()
      ensures AllParse(read, files) ==>
        && status == Success
        && IsOrder(order, DbFiles(files)) && Within(order, files.Keys)
        && collections == LoadedFrom(read, NameOf, files, order, old(collections))
    {
      order := [];
      var rest := DbFiles(files);
      NoneDone(rest);
      while rest != {}
        invariant Valid() && rest <= DbFiles(files)
        invariant AllParse(read, files) ==>
          LoadedPart(read, files, DbFiles(files) - rest, order, old(collections), collections)
      {
        var f :| f in rest;
        ghost var db := collections;
        status := LoadOne(files[f], read);
        if status != Success { return; }
        NextDone(DbFiles(files), rest, f);
        LoadNext(read, files, DbFiles(files) - rest, order, old(collections), db, f);
        order, rest := order + [f], rest - {f};
      }
      status := Success;
      NoneDone(DbFiles(files));
    }

    /** Lines 205-210. */
    method LoadOne(text: Data, ghost read: Reader<Snapshot>) returns (status: Status)
      requires Valid() && Same(read, ParseCollection)
      modifies this
      ensures Valid()
      ensures read(text).Parsed? ==> status == Success && collections == LoadedOne(read, NameOf, old(collections), text)
    {
      status := Success;
      ghost var parsed := read(text);
      var input := new InStream(text);
      var r := Deserialize(input);
      if r.Parsed? {
        LoadedAllSaved(text);
        collections := collections[r.value.name := r.value];
      } else if r.Rejected? {
        status := InternalError;
      } else if * {
        var c: Snapshot := *;
        if AllSaved(c) { collections := collections[c.name := c]; }
      } else {
        status := InternalError;
      }
    }
  }

  /** The collections named in `done` have been written, with the bytes `texts`. */
  ghost predicate SavedPart(db: Collections, done: set<Name>, order: seq<Name>, texts: map<Name, Data>) {
    && done <= db.Keys && texts.Keys == done
    && IsOrder(order, done) && Within(order, done)
    && forall n :: n in done ==> IsTextOf(texts[n], db[n])
  }

  lemma SaveNext(before: Files, db: Collections, done: set<Name>, order: seq<Name>, texts: map<Name, Data>, name: Name,
                 text: Data)
    requires SavedPart(db, done, order, texts)
    requires name in db && name !in done && IsTextOf(text, db[name])
    ensures SavedPart(db, done + {name}, order + [name], texts[name := text])
    ensures SavedIn(before, order + [name], texts[name := text]) == SavedOne(SavedIn(before, order, texts), name, text)
  {
    OneMoreFile(before, order, texts, name, text);
    OrderGrows(order, done, name);
    TextsNext(db, done, texts, name, text);
  }

  lemma TextsNext(db: Collections, done: set<Name>, texts: map<Name, Data>, name: Name, text: Data)
    requires done <= db.Keys && texts.Keys == done && forall n :: n in done ==> IsTextOf(texts[n], db[n])
    requires name in db && IsTextOf(text, db[name])
    ensures texts[name := text].Keys == done + {name}
    ensures forall n :: n in done + {name} ==> IsTextOf(texts[name := text][n], db[n])
  {
  }

  /** The files in `done` have been read, in this order. */
  ghost predicate LoadedPart(read: Reader<Snapshot>, files: Files, done: set<Name>, order: seq<Name>,
                             start: Collections, db: Collections)
  {
    && done <= files.Keys && IsOrder(order, done) && Within(order, done)
    && db == LoadedFrom(read, NameOf, files, order, start)
  }

  lemma LoadNext(read: Reader<Snapshot>, files: Files, done: set<Name>, order: seq<Name>, start: Collections,
                 db: Collections, f: Name)
    requires f in files && f !in done
    ensures LoadedPart(read, files, done, order, start, db) ==>
      LoadedPart(read, files, done + {f}, order + [f], start, LoadedOne(read, NameOf, db, files[f]))
  {
    if LoadedPart(read, files, done, order, start, db) {
      OrderGrows(order, done, f);
      assert (order + [f])[..|order|] == order;
    }
  }

  lemma {:induction false} TextsGrow(before: Files, order: seq<Name>, texts: map<Name, Data>, name: Name, text: Data)
    requires Within(order, texts.Keys) && name !in order
    ensures Within(order, texts[name := text].Keys)
    ensures SavedIn(before, order, texts[name := text]) == SavedIn(before, order, texts)
    decreases |order|
  {
    if order != [] {
      TextsGrow(before, order[..|order| - 1], texts, name, text);
    }
  }

  lemma OneMoreFile(before: Files, order: seq<Name>, texts: map<Name, Data>, name: Name, text: Data)
    requires Within(order, texts.Keys) && name !in order
    ensures Within(order + [name], texts[name := text].Keys)
    ensures SavedIn(before, order + [name], texts[name := text]) == SavedOne(SavedIn(before, order, texts), name, text)
  {
    TextsGrow(before, order, texts, name, text);
    assert (order + [name])[..|order|] == order;
  }

  /** A file never yields an index of an unsaved kind. */
  lemma LoadedAllSaved(bs: Data)
    ensures ParseCollection(bs).Parsed? ==> AllSaved(ParseCollection(bs).value)
  {
    var r := ParseCollection(bs);
    if r.Parsed? {
      var r0 := TakePrefixed(bs);
      var r1 := TakeInt(r0.rest, 4);
      assert r == ParseBody(r0.value, r1.value, r1.rest);
      BodyAllSaved(r0.value, r1.value, r1.rest);
    }
  }

  lemma BodyAllSaved(name: Name, dimension: U32, bs: Data)
    ensures ParseBody(name, dimension, bs).Parsed? ==> AllSaved(ParseBody(name, dimension, bs).value)
  {
    if ParseBody(name, dimension, bs).Parsed? {
      var vecCount := TakeInt(bs, 4);
      var vs := ParseTable(ParseVectorEntry, false, vecCount.value, map[], vecCount.rest);
      var idxCount := TakeInt(vs.rest, 4);
      IndicesAllSaved(idxCount.value, idxCount.rest);
    }
  }

  lemma IndicesAllSaved(n: nat, bs: Data)
    ensures var r := ParseTable(ParseIndexEntry, true, n, map[], bs);
      r.Parsed? ==> forall name :: name in r.value ==> !r.value[name].Unsaved?
  {
    TableValues(ParseIndexEntry, true, n, map[], bs, (p: Params) => !p.Unsaved?);
  }

  // ----- From one run of the program to the next -----

  /**
   server.cpp lines 704-708 and 652-656: a save at shutdown, a load into a new database
   at the next start. What the directory stored before, `kept`, comes back too, but for
   the collections saved again.
  */
  method Restart(db: Database, disk: Disk, ghost kept: Collections) returns (next: Database, status: Status)
    requires db.Valid() && Savable(db.collections) && Stores(ParseCollection, NameOf, disk.files, kept)
    modifies disk
    ensures fresh(next) && next.Valid() && status == Success
    ensures next.collections == kept + db.collections
    ensures Stores(ParseCollection, NameOf, disk.files, kept + db.collections)
  {
    ghost var before := disk.files;
    status := db.Save(disk);
    SaveIsReadable(before, db.collections, disk.files);
    SavedAndRead(ParseCollection, NameOf, before, kept, db.collections, disk.files, []);
    next := new Database();
    ghost var order;
    status, order := next.Load(disk);
    SavedAndRead(ParseCollection, NameOf, before, kept, db.collections, disk.files, order);
  }

  /** With no `.db` files there before, every collection is restored, and nothing else. */
  method SaveAndLoad(db: Database, disk: Disk) returns (next: Database, status: Status)
    requires db.Valid() && Savable(db.collections) && DbFiles(disk.files) == {}
    modifies disk
    ensures fresh(next) && next.Valid() && status == Success && next.collections == db.collections
  {
    NothingStored(ParseCollection, NameOf, disk.files);
    NothingOver(db.collections);
    next, status := Restart(db, disk, map[]);
  }
}
