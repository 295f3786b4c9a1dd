/** Saving databases to the storage directory and loading them again: database.cpp lines 148-220. */
module Storage {
  import opened Bytes
  import opened Tables
  import opened Persistence
  import opened Directory

  /** The collections of a database, by name. */
  type Collections = map<Name, Snapshot>

  function NameOf(c: Snapshot): Name {
    c.name
  }

  /** `bytes` are a serialization of `c`, for some iteration orders of its maps. */
  ghost predicate IsTextOf(bytes: Data, c: Snapshot) {
    exists ids, names {:trigger Encode(c, ids, names)} ::
      && IsOrder(ids, c.vectors.Keys) && Within(ids, c.vectors.Keys)
      && IsOrder(names, c.indices.Keys) && Within(names, c.indices.Keys)
      && bytes == Encode(c, ids, names)
  }

  ghost predicate AreTextsOf(texts: map<Name, Data>, db: Collections) {
    texts.Keys == db.Keys && forall n :: n in db ==> IsTextOf(texts[n], db[n])
  }

  /** One save, in whatever orders the hash maps are iterated. */
  ghost predicate SavedAs(before: Files, db: Collections, after: Files) {
    exists order: seq<Name>, texts: map<Name, Data> {:trigger SavedIn(before, order, texts)} ::
      && IsOrder(order, db.Keys) && Within(order, texts.Keys)
      && AreTextsOf(texts, db) && after == SavedIn(before, order, texts)
  }

  /** Each collection is filed under its own plain name, and within the sizes of the format. */
  ghost predicate Savable(db: Collections) {
    forall n :: n in db ==> Plain(n) && db[n].name == n && Fits(db[n]) && AllSaved(db[n])
  }

  lemma TextReadsBack(bytes: Data, c: Snapshot)
    requires IsTextOf(bytes, c) && Fits(c) && AllSaved(c)
    ensures ParseCollection(bytes) == Parsed(c, [])
  {
    var ids, names :| IsOrder(ids, c.vectors.Keys) && Within(ids, c.vectors.Keys)
      && IsOrder(names, c.indices.Keys) && Within(names, c.indices.Keys) && bytes == Encode(c, ids, names);
    FileReadsBackIff(c, ids, names);
  }

  lemma TextsReadBack(texts: map<Name, Data>, db: Collections)
    requires Savable(db) && AreTextsOf(texts, db)
    ensures Readable(ParseCollection, NameOf, texts, db)
  {
    forall n | n in db ensures Plain(n) && NameOf(db[n]) == n && ParseCollection(texts[n]) == Parsed(db[n], []) {
      TextReadsBack(texts[n], db[n]);
    }
  }

  lemma SaveIsReadable(before: Files, db: Collections, after: Files)
    requires Savable(db) && SavedAs(before, db, after)
    ensures SavedReadably(ParseCollection, NameOf, before, db, after)
  {
    var order: seq<Name>, texts: map<Name, Data> :| IsOrder(order, db.Keys) && Within(order, texts.Keys)
      && AreTextsOf(texts, db) && after == SavedIn(before, order, texts);
    TextsReadBack(texts, db);
  }

  /** `disks[i]` is what the first `i` saves leave of a directory without `.db` files. */
  ghost predicate Saves(dbs: seq<Collections>, disks: seq<Files>) {
    |disks| > 0 && DbFiles(disks[0]) == {} && Steps(SaveStep, dbs, disks)
  }

  ghost predicate SaveStep(before: Files, db: Collections, after: Files) {
    Savable(db) && SavedAs(before, db, after)
  }

  /** After any history of saves, loading into an empty database yields each collection as it was saved last. */
  lemma LoadYieldsLatest(dbs: seq<Collections>, disks: seq<Files>, order: seq<Name>)
    requires Saves(dbs, disks) && IsOrder(order, DbFiles(disks[|dbs|]))
    ensures Within(order, disks[|dbs|].Keys)
    ensures LoadedFrom(ParseCollection, NameOf, disks[|dbs|], order, map[]) == Latest(dbs)
  {
    forall i | 0 <= i < |dbs| ensures SavedReadably(ParseCollection, NameOf, disks[i], dbs[i], disks[i + 1]) {
      SaveIsReadable(disks[i], dbs[i], disks[i + 1]);
    }
    HistoryLoads(ParseCollection, NameOf, dbs, disks, order);
  }

  /**
   Loading restores the database of the last save exactly when no collection of an
   earlier save is missing from it: saving never removes the file of a deleted
   collection, which therefore comes back.
  */
  lemma RestoredIff(dbs: seq<Collections>, disks: seq<Files>, order: seq<Name>)
    requires dbs != [] && Saves(dbs, disks) && IsOrder(order, DbFiles(disks[|dbs|]))
    ensures Within(order, disks[|dbs|].Keys)
    ensures LoadedFrom(ParseCollection, NameOf, disks[|dbs|], order, map[]) == dbs[|dbs| - 1] <==>
      forall i :: 0 <= i < |dbs| ==> dbs[i].Keys <= dbs[|dbs| - 1].Keys
  {
    LoadYieldsLatest(dbs, disks, order);
    LatestIsLastIff(dbs);
  }

  lemma TextExists(c: Snapshot)
    ensures exists bytes: Data :: IsTextOf(bytes, c)
  {
    var ids := OrderExists(c.vectors.Keys);
    var names := OrderExists(c.indices.Keys);
    assert IsTextOf(Encode(c, ids, names), c);
  }

  ghost function SomeText(c: Snapshot): (bytes: Data)
    ensures IsTextOf(bytes, c)
  {
    TextExists(c);
    var bytes: Data :| IsTextOf(bytes, c);
    bytes
  }

  lemma SaveExists(before: Files, db: Collections) returns (after: Files)
    ensures SavedAs(before, db, after)
  {
    var order := OrderExists(db.Keys);
    var texts := map n | n in db :: SomeText(db[n]);
    assert AreTextsOf(texts, db);
    after := SavedIn(before, order, texts);
  }

  lemma NoneSaved(files: Files)
    ensures SaveStep(files, map[], files)
  {
    var db: Collections, order: seq<Name>, texts: map<Name, Data> := map[], [], map[];
    assert IsOrder(order, db.Keys) && AreTextsOf(texts, db) && files == SavedIn(files, order, texts);
  }

  lemma NoFiles()
    ensures DbFiles(map[]) == {}
  {
  }

  /** A database is saved, all its collections are deleted, and it is saved again. */
  lemma SavedAndDeleted(db: Collections, files: Files) returns (disks: seq<Files>)
    requires Savable(db) && SavedAs(map[], db, files)
    ensures disks == [map[], files, files] && Saves([db, map[]], disks)
  {
    NoneSaved(files);
    NoFiles();
    TwoSteps(SaveStep, db, map[], map[], files, files);
    disks := [map[], files, files];
  }

  /** The collections of any database come back so: loading restores them. */
  lemma DeletedComesBack(db: Collections) returns (disks: seq<Files>, order: seq<Name>)
    requires Savable(db)
    ensures Saves([db, map[]], disks) && IsOrder(order, DbFiles(disks[2])) && Within(order, disks[2].Keys)
    ensures LoadedFrom(ParseCollection, NameOf, disks[2], order, map[]) == db
  {
    var files := SaveExists(map[], db);
    disks := SavedAndDeleted(db, files);
    order := OrderExists(DbFiles(disks[2]));
    LoadYieldsLatest([db, map[]], disks, order);
    NothingOver<Snapshot>(db);
  }
}
