/** The storage directory: file names, and what saving and loading collections does to it. */
module Directory {
  import opened Bytes
  import opened Tables

  /** The regular files of the directory, by name. */
  type Files = map<Name, Data>

  // ----- File names -----

  const DOT: Byte := 46
  /** ".db" */
  const DB_SUFFIX: Data := [46, 100, 98]
  /** ".db.tmp" */
  const TMP_SUFFIX: Data := [46, 100, 98, 46, 116, 109, 112]

  function LastDot(f: Name): (d: int)
    ensures -1 <= d < |f|
  {
    if f == [] then -1
    else if f[|f| - 1] == DOT then |f| - 1
    else LastDot(f[..|f| - 1])
  }

  /** `std::filesystem::path::extension`: from the last dot on, unless the name starts there. */
  function Extension(f: Name): (e: Data)
    ensures |e| <= |f|
  {
    if LastDot(f) <= 0 || f == [DOT, DOT] then [] else f[LastDot(f)..]
  }

  /** `replace_extension`, by one that is empty or starts with a dot. */
  function ReplaceExtension(f: Name, e: Data): Name {
    f[..|f| - |Extension(f)|] + e
  }

  /** Where the collection of a plain name is written first. */
  function TmpFile(name: Name): Name {
    name + TMP_SUFFIX
  }

  /** What that file is renamed to. */
  function FileOf(name: Name): Name {
    name + DB_SUFFIX
  }

  /** No dot and not empty, as `is_collection_name_valid` demands. */
  predicate Plain(name: Name) {
    name != [] && DOT !in name
  }

  lemma {:induction false} DotAt(f: Name, d: int)
    requires -1 <= d < |f| && (d >= 0 ==> f[d] == DOT) && forall i :: d < i < |f| ==> f[i] != DOT
    ensures LastDot(f) == d
    decreases |f|
  {
    if d < |f| - 1 {
      DotAt(f[..|f| - 1], d);
    }
  }

  /**
   Lines 161-163 and 172-173 of database.cpp: of a plain name the extensions are
   appended, not replaced; the file is loaded again, the temporary one is not.
  */
  lemma FileNames(name: Name)
    requires Plain(name)
    ensures ReplaceExtension(name, TMP_SUFFIX) == TmpFile(name)
    ensures ReplaceExtension(TmpFile(name), []) == FileOf(name)
    ensures Extension(FileOf(name)) == DB_SUFFIX && Extension(TmpFile(name)) != DB_SUFFIX
    ensures FileOf(name) == name + ['.' as int, 'd' as int, 'b' as int]
    ensures TmpFile(name) == FileOf(name) + ['.' as int, 't' as int, 'm' as int, 'p' as int]
  {
    DotAt(name, -1);
    DotAt(TmpFile(name), |name| + 3);
    DotAt(FileOf(name), |name|);
    assert TmpFile(name)[|name| + 3..] == [46, 116, 109, 112];
    assert TmpFile(name)[..|name| + 3] == FileOf(name);
    assert FileOf(name)[|name|..] == DB_SUFFIX;
  }

  lemma FilesDiffer(a: Name, b: Name)
    requires Plain(a) && Plain(b)
    ensures FileOf(a) == FileOf(b) <==> a == b
    ensures FileOf(a) != TmpFile(b)
  {
    assert FileOf(a)[..|a|] == a && FileOf(b)[..|b|] == b;
    assert FileOf(a)[|FileOf(a)| - 1] == 98 && TmpFile(b)[|TmpFile(b)| - 1] == 112;
  }

  /** Lines 195-197: the files that `load` reads. */
  function DbFiles(files: Files): set<Name> {
    set f | f in files && Extension(f) == DB_SUFFIX
  }

  // ----- Saving -----

  /** The file system's `rename`. */
  function Renamed(files: Files, from: Name, to: Name): Files
    requires from in files
  {
    (files - {from})[to := files[from]]
  }

  /** Lines 161-173: written under one name, renamed to the other. */
  function SavedOne(files: Files, name: Name, text: Data): Files {
    Renamed(files[TmpFile(name) := text], TmpFile(name), FileOf(name))
  }

  /** The directory after the collections in `order` are written with the bytes `texts`. */
  function SavedIn(files: Files, order: seq<Name>, texts: map<Name, Data>): Files
    requires Within(order, texts.Keys)
  {
    if order == [] then files
    else SavedOne(SavedIn(files, order[..|order| - 1], texts), order[|order| - 1], texts[order[|order| - 1]])
  }

  // ----- Loading -----

  /** How one file is read. */
  type Reader<C> = Data -> Parsed<C>

  function LoadedOne<C>(read: Reader<C>, name: C -> Name, db: map<Name, C>, bytes: Data): map<Name, C> {
    match read(bytes)
    case Parsed(c, _) => db[name(c) := c]
    case Short => db
    case Rejected => db
  }

  /** What loading the files in `order` makes of `db`. */
  function LoadedFrom<C>(read: Reader<C>, name: C -> Name, files: Files, order: seq<Name>,
                         db: map<Name, C>): map<Name, C>
    requires Within(order, files.Keys)
  {
    if order == [] then db
    else LoadedOne(read, name, LoadedFrom(read, name, files, order[..|order| - 1], db), files[order[|order| - 1]])
  }

  // ----- What a directory stores -----

  /** The texts read back as the collections of `db`, which are filed under their own plain names. */
  ghost predicate Readable<C(!new)>(read: Reader<C>, name: C -> Name, texts: map<Name, Data>, db: map<Name, C>) {
    && texts.Keys == db.Keys
    && forall n :: n in db ==> Plain(n) && name(db[n]) == n && read(texts[n]) == Parsed(db[n], [])
  }

  /** The `.db` files are those of `db`, and read back as its collections. */
  ghost predicate Stores<C(!new)>(read: Reader<C>, name: C -> Name, files: Files, db: map<Name, C>) {
    && (forall n :: n in db ==> Plain(n) && name(db[n]) == n)
    && (forall n :: n in db ==> FileOf(n) in files && read(files[FileOf(n)]) == Parsed(db[n], []))
    && (forall f :: f in DbFiles(files) ==> exists n :: n in db && f == FileOf(n))
  }

  lemma SavedOneStores<C(!new)>(read: Reader<C>, name: C -> Name, files: Files, db: map<Name, C>, n: Name, c: C,
                                text: Data)
    requires Stores(read, name, files, db) && Plain(n) && name(c) == n
    requires read(text) == Parsed(c, [])
    ensures Stores(read, name, SavedOne(files, n, text), db[n := c])
  {
    var after, db' := SavedOne(files, n, text), db[n := c];
    FilesDiffer(n, n);
    FileNames(n);
    assert after[FileOf(n)] == text;
    forall m | m in db' && m != n
      ensures FileOf(m) in after && read(after[FileOf(m)]) == Parsed(db'[m], [])
    {
      FilesDiffer(m, n);
    }
    forall f | f in DbFiles(after) ensures exists m :: m in db' && f == FileOf(m) {
      if f != FileOf(n) {
        assert f in DbFiles(files);
        var m :| m in db && f == FileOf(m);
        assert m in db' && f == FileOf(m);
      }
    }
  }

  lemma {:induction false} SavingStores<C(!new)>(read: Reader<C>, name: C -> Name, before: Files, kept: map<Name, C>,
                                                 order: seq<Name>, texts: map<Name, Data>, db: map<Name, C>)
    requires Stores(read, name, before, kept) && Readable(read, name, texts, db)
    requires Within(order, db.Keys)
    ensures Stores(read, name, SavedIn(before, order, texts), kept + Only(order, db))
    decreases |order|
  {
    if order == [] {
      assert kept + Only([], db) == kept;
    } else {
      var rest, n := order[..|order| - 1], order[|order| - 1];
      SavingStores(read, name, before, kept, rest, texts, db);
      SavedOneStores(read, name, SavedIn(before, rest, texts), kept + Only(rest, db), n, db[n], texts[n]);
      OnlyLast(order, db, kept);
    }
  }

  lemma {:induction false} LoadingPart<C(!new)>(read: Reader<C>, name: C -> Name, files: Files, db: map<Name, C>,
                                                order: seq<Name>)
    requires Stores(read, name, files, db) && Within(order, files.Keys)
    requires forall f :: f in order ==> f in DbFiles(files)
    ensures LoadedFrom(read, name, files, order, map[]) == map n | n in db && FileOf(n) in order :: db[n]
    decreases |order|
  {
    if order != [] {
      var rest, f := order[..|order| - 1], order[|order| - 1];
      assert order == rest + [f];
      LoadingPart(read, name, files, db, rest);
      assert f in order;
      var n :| n in db && f == FileOf(n);
      PartGrows(db, rest, f, n);
    }
  }

  lemma PartGrows<C>(db: map<Name, C>, files: seq<Name>, f: Name, n: Name)
    requires (forall m :: m in db ==> Plain(m)) && n in db && f == FileOf(n)
    ensures (map m | m in db && FileOf(m) in files + [f] :: db[m]) ==
      (map m | m in db && FileOf(m) in files :: db[m])[n := db[n]]
  {
    forall m | m in db ensures FileOf(m) == f <==> m == n { FilesDiffer(m, n); }
  }

  /** Loading reads back exactly what the directory stores, in any order of its files. */
  lemma LoadingRestores<C(!new)>(read: Reader<C>, name: C -> Name, files: Files, db: map<Name, C>, order: seq<Name>)
    requires Stores(read, name, files, db) && IsOrder(order, DbFiles(files))
    ensures Within(order, files.Keys) && LoadedFrom(read, name, files, order, map[]) == db
  {
    assert forall i :: 0 <= i < |order| ==> order[i] in order;
    LoadingPart(read, name, files, db, order);
    forall n | n in db ensures FileOf(n) in order { FileNames(n); }
  }

  /** Every `.db` file reads as a collection. */
  ghost predicate AllParse<C(!new)>(read: Reader<C>, files: Files) {
    forall f :: f in DbFiles(files) ==> read(files[f]).Parsed?
  }

  lemma StoredFilesParse<C(!new)>(read: Reader<C>, name: C -> Name, files: Files, db: map<Name, C>)
    requires Stores(read, name, files, db)
    ensures AllParse(read, files)
  {
    forall f | f in DbFiles(files) ensures read(files[f]).Parsed? {
      var n :| n in db && f == FileOf(n);
    }
  }

  lemma NothingStored<C(!new)>(read: Reader<C>, name: C -> Name, files: Files)
    requires DbFiles(files) == {}
    ensures Stores(read, name, files, map[])
  {
  }

  lemma NothingOver<C(!new)>(db: map<Name, C>)
    ensures map[] + db == db && Latest([db, map[]]) == db
  {
    var none: map<Name, C> := map[];
    assert [db][..0] == [] && Latest([db]) == none + db;
    assert [db, none][..1] == [db] && Latest([db, none]) == Latest([db]) + none;
    assert none + db == db && db + none == db;
  }

  /** A save keeps what a directory stores, but for the collections it writes. */
  lemma SavedAndRead<C(!new)>(read: Reader<C>, name: C -> Name, before: Files, kept: map<Name, C>, db: map<Name, C>,
                              after: Files, order: seq<Name>)
    requires Stores(read, name, before, kept) && SavedReadably(read, name, before, db, after)
    ensures Stores(read, name, after, kept + db) && AllParse(read, after)
    ensures IsOrder(order, DbFiles(after)) ==>
      Within(order, after.Keys) && LoadedFrom(read, name, after, order, map[]) == kept + db
  {
    SavingAdds(read, name, before, kept, db, after);
    StoredFilesParse(read, name, after, kept + db);
    if IsOrder(order, DbFiles(after)) { LoadingRestores(read, name, after, kept + db, order); }
  }

  // ----- Over all histories of saves -----

  ghost predicate SavedReadably<C(!new)>(read: Reader<C>, name: C -> Name, before: Files, db: map<Name, C>,
                                         after: Files)
  {
    exists order: seq<Name>, texts: map<Name, Data> {:trigger SavedIn(before, order, texts)} ::
      && IsOrder(order, db.Keys) && Within(order, texts.Keys)
      && Readable(read, name, texts, db) && after == SavedIn(before, order, texts)
  }

  /** `disks[i]` is what the first `i` saves leave of a directory without `.db` files. */
  ghost predicate IsHistory<C(!new)>(read: Reader<C>, name: C -> Name, dbs: seq<map<Name, C>>, disks: seq<Files>) {
    && |disks| == |dbs| + 1
    && DbFiles(disks[0]) == {}
    && forall i :: 0 <= i < |dbs| ==> SavedReadably(read, name, disks[i], dbs[i], disks[i + 1])
  }

  /** Each directory follows from the one before by a `step`. */
  ghost predicate Steps<C(!new)>(step: (Files, map<Name, C>, Files) -> bool, dbs: seq<map<Name, C>>, disks: seq<Files>)
  {
    && |disks| == |dbs| + 1
    && forall i :: 0 <= i < |dbs| ==> step(disks[i], dbs[i], disks[i + 1])
  }

  lemma TwoSteps<C(!new)>(step: (Files, map<Name, C>, Files) -> bool, a: map<Name, C>, b: map<Name, C>, files: Files,
                          files1: Files, files2: Files)
    requires step(files, a, files1) && step(files1, b, files2)
    ensures Steps(step, [a, b], [files, files1, files2])
  {
  }

  /** Each collection as it was saved last. */
  function Latest<C>(dbs: seq<map<Name, C>>): map<Name, C> {
    if dbs == [] then map[] else Latest(dbs[..|dbs| - 1]) + dbs[|dbs| - 1]
  }

  lemma SavingAdds<C(!new)>(read: Reader<C>, name: C -> Name, before: Files, kept: map<Name, C>, db: map<Name, C>,
                            after: Files)
    requires Stores(read, name, before, kept) && SavedReadably(read, name, before, db, after)
    ensures Stores(read, name, after, kept + db)
  {
    var order: seq<Name>, texts: map<Name, Data> :| IsOrder(order, db.Keys) && Within(order, texts.Keys)
      && Readable(read, name, texts, db) && after == SavedIn(before, order, texts);
    SavingStores(read, name, before, kept, order, texts, db);
    OnlyOver(order, db, kept);
  }

  lemma {:induction false} HistoryStores<C(!new)>(read: Reader<C>, name: C -> Name, dbs: seq<map<Name, C>>,
                                                  disks: seq<Files>)
    requires IsHistory(read, name, dbs, disks)
    ensures Stores(read, name, disks[|dbs|], Latest(dbs))
    decreases |dbs|
  {
    if dbs != [] {
      var n := |dbs| - 1;
      HistoryStores(read, name, dbs[..n], disks[..n + 1]);
      SavingAdds(read, name, disks[n], Latest(dbs[..n]), dbs[n], disks[n + 1]);
    }
  }

  lemma {:induction false} LatestKeys<C(!new)>(dbs: seq<map<Name, C>>)
    ensures forall n :: n in Latest(dbs) <==> exists i :: 0 <= i < |dbs| && n in dbs[i]
    decreases |dbs|
  {
    if dbs != [] {
      var rest := dbs[..|dbs| - 1];
      LatestKeys(rest);
      forall n | n in Latest(dbs) ensures exists i :: 0 <= i < |dbs| && n in dbs[i] {
        if n in Latest(rest) {
          var i :| 0 <= i < |rest| && n in rest[i];
          assert n in dbs[i];
        } else {
          assert n in dbs[|dbs| - 1];
        }
      }
      forall i, n | 0 <= i < |dbs| && n in dbs[i] ensures n in Latest(dbs) {
        if i < |rest| { assert n in rest[i]; }
      }
    }
  }

  lemma LatestIsLastIff<C(!new)>(dbs: seq<map<Name, C>>)
    requires dbs != []
    ensures Latest(dbs) == dbs[|dbs| - 1] <==> forall i :: 0 <= i < |dbs| ==> dbs[i].Keys <= dbs[|dbs| - 1].Keys
  {
    LatestKeys(dbs);
    var last := dbs[|dbs| - 1];
    if forall i :: 0 <= i < |dbs| ==> dbs[i].Keys <= last.Keys {
      assert Latest(dbs).Keys == last.Keys;
      assert Latest(dbs) == last;
    }
    if Latest(dbs) == last {
      forall i | 0 <= i < |dbs| ensures dbs[i].Keys <= last.Keys {
        forall n | n in dbs[i] ensures n in last.Keys { assert n in Latest(dbs); }
      }
    }
  }

  lemma HistoryLoads<C(!new)>(read: Reader<C>, name: C -> Name, dbs: seq<map<Name, C>>, disks: seq<Files>,
                              order: seq<Name>)
    requires IsHistory(read, name, dbs, disks) && IsOrder(order, DbFiles(disks[|dbs|]))
    ensures Within(order, disks[|dbs|].Keys)
    ensures LoadedFrom(read, name, disks[|dbs|], order, map[]) == Latest(dbs)
  {
    HistoryStores(read, name, dbs, disks);
    LoadingRestores(read, name, disks[|dbs|], Latest(dbs), order);
  }
}
