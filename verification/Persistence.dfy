/** Saving and loading whole collections: collection.cpp lines 176-249. */
module Persistence {
  import opened Bytes
  import opened Wire
  import opened Tables

  /** What a collection saves: `vectors_` and `indices_` with the index graphs left out. */
  datatype Snapshot = Snapshot(name: Name, dimension: U32, vectors: map<U64, StoredVector>, indices: map<Name, Params>)

  /** The sizes that the 32-bit counts can express. */
  ghost predicate Fits(c: Snapshot) {
    && |c.name| < Pow256(4)
    && |c.vectors| < Pow256(4) && (forall id :: id in c.vectors ==> VectorFits(c.vectors[id]))
    && |c.indices| < Pow256(4) && (forall n :: n in c.indices ==> |n| < Pow256(4) && ParamsFit(c.indices[n]))
  }

  /** Only indices of a saved kind; `add_index` stores no others. */
  predicate AllSaved(c: Snapshot) {
    forall n :: n in c.indices ==> !c.indices[n].Unsaved?
  }

  // ----- Entries -----

  function EncodeVectorEntry(id: U64, v: StoredVector): Data {
    Le(id, 8) + EncodeVector(v)
  }

  /** An index of type `unknown` is passed over. */
  function EncodeIndexEntry(name: Name, p: Params): Data {
    if p.Unsaved? then [] else Prefixed(name) + EncodeParams(p)
  }

  function TakeU64(bs: Data): (r: Parsed<U64>)
    ensures r == TakeInt(bs, 8)
  {
    TakeIntBound(bs, 8);
    assert Pow256(8) == 0x1_0000_0000_0000_0000;
    TakeInt(bs, 8)
  }

  function ParseVectorEntry(bs: Data): Parsed<Option<(U64, StoredVector)>> {
    var (id, r0) :- TakeU64(bs);
    var (v, r1) :- ParseVector(r0);
    Parsed(Some((id, v)), r1)
  }

  function ParseIndexEntry(bs: Data): Parsed<Option<(Name, Params)>> {
    var (name, r0) :- TakePrefixed(bs);
    var (p, r1) :- ParseParams(r0);
    Parsed(if p.Some? then Some((name, p.value)) else None, r1)
  }

  lemma VectorEntryReadsBack(id: U64, v: StoredVector)
    requires VectorFits(v)
    ensures ReadsBack(ParseVectorEntry, EncodeVectorEntry, id, v)
  {
    forall rest ensures ParseVectorEntry(EncodeVectorEntry(id, v) + rest) == Parsed(Some((id, v)), rest) {
      assert Pow256(8) == 0x1_0000_0000_0000_0000;
      Assoc(Le(id, 8), EncodeVector(v), rest);
      TakeIntFront(id, 8, EncodeVector(v) + rest);
      VectorRoundTrip(v, rest);
    }
  }

  lemma IndexEntryReadsBack(name: Name, p: Params)
    requires |name| < Pow256(4) && ParamsFit(p) && !p.Unsaved?
    ensures ReadsBack(ParseIndexEntry, EncodeIndexEntry, name, p)
  {
    forall rest ensures ParseIndexEntry(EncodeIndexEntry(name, p) + rest) == Parsed(Some((name, p)), rest) {
      Assoc(Prefixed(name), EncodeParams(p), rest);
      PrefixedRoundTrip(name, EncodeParams(p) + rest);
      ParamsRoundTrip(p, rest);
    }
  }

  // ----- Collections -----

  /** The part of a file after the header. */
  function EncodeBody(vecCount: nat, vectors: Data, idxCount: nat, indices: Data): Data {
    Le(vecCount, 4) + (vectors + (Le(idxCount, 4) + indices))
  }

  ghost function Encode(c: Snapshot, ids: seq<U64>, names: seq<Name>): Data
    requires Within(ids, c.vectors.Keys) && Within(names, c.indices.Keys)
  {
    Prefixed(c.name) + (Le(c.dimension, 4) +
      EncodeBody(|c.vectors|, EncodeTable(EncodeVectorEntry, ids, c.vectors),
                 |c.indices|, EncodeTable(EncodeIndexEntry, names, c.indices)))
  }

  /** `vectors_.emplace` keeps the first vector of an id, `indices_[ name ] =` the last index of a name. */
  function ParseBody(name: Name, dimension: U32, bs: Data): Parsed<Snapshot> {
    var (vecCount, r0) :- TakeInt(bs, 4);
    var (vs, r1) :- ParseTable(ParseVectorEntry, false, vecCount, map[], r0);
    var (idxCount, r2) :- TakeInt(r1, 4);
    var (ix, r3) :- ParseTable(ParseIndexEntry, true, idxCount, map[], r2);
    Parsed(Snapshot(name, dimension, vs, ix), r3)
  }

  function ParseCollection(bs: Data): Parsed<Snapshot> {
    var (name, r0) :- TakePrefixed(bs);
    TakeIntBound(r0, 4);
    assert Pow256(4) == 0x1_0000_0000;
    var (dimension, r1) :- TakeInt(r0, 4);
    ParseBody(name, dimension, r1)
  }

  lemma Slices(a: Data, b: Data, c: Data, d: Data, tail: Data)
    ensures var bs := (a + b) + (c + (d + tail));
      && bs[..|a|] == a && bs[|a|..|a| + |b|] == b
      && bs[|a| + |b|..|a| + |b| + |c|] == c && bs[|a| + |b| + |c|..|a| + |b| + |c| + |d|] == d
      && bs[|a| + |b| + |c| + |d|..] == tail
  {
    var bs := (a + b) + (c + (d + tail));
    assert bs == a + b + c + d + tail;
  }

  /** Where the parts of a file stand; each entry of a table begins with its key. */
  lemma FileLayout(c: Snapshot, ids: seq<U64>, names: seq<Name>)
    requires Within(ids, c.vectors.Keys) && Within(names, c.indices.Keys)
    ensures var bs, n := Encode(c, ids, names), |c.name|;
      && n + 12 <= |bs|
      && bs[..4] == Le(n, 4) && bs[4..n + 4] == c.name
      && bs[n + 4..n + 8] == Le(c.dimension, 4) && bs[n + 8..n + 12] == Le(|c.vectors|, 4)
      && bs[n + 12..] == EncodeTable(EncodeVectorEntry, ids, c.vectors) + (Le(|c.indices|, 4) +
           EncodeTable(EncodeIndexEntry, names, c.indices))
  {
    Slices(Le(|c.name|, 4), c.name, Le(c.dimension, 4), Le(|c.vectors|, 4),
           EncodeTable(EncodeVectorEntry, ids, c.vectors) +
           (Le(|c.indices|, 4) + EncodeTable(EncodeIndexEntry, names, c.indices)));
  }

  // ----- Round trip -----

  lemma HeaderRoundTrip(name: Name, dimension: U32, body: Data)
    requires |name| < Pow256(4)
    ensures ParseCollection(Prefixed(name) + (Le(dimension, 4) + body)) == ParseBody(name, dimension, body)
  {
    assert Pow256(4) == 0x1_0000_0000;
    PrefixedRoundTrip(name, Le(dimension, 4) + body);
    TakeIntFront(dimension, 4, body);
  }

  lemma VectorsRoundTrip(ids: seq<U64>, vs: map<U64, StoredVector>, rest: Data)
    requires IsOrder(ids, vs.Keys) && forall id :: id in vs ==> VectorFits(vs[id])
    ensures Within(ids, vs.Keys)
    ensures ParseTable(ParseVectorEntry, false, |ids|, map[], EncodeTable(EncodeVectorEntry, ids, vs) + rest) ==
      Parsed(vs, rest)
  {
    OnlyAll(ids, vs);
    forall i | 0 <= i < |ids| ensures ReadsBack(ParseVectorEntry, EncodeVectorEntry, ids[i], vs[ids[i]]) {
      VectorEntryReadsBack(ids[i], vs[ids[i]]);
    }
    TableRoundTrip(ParseVectorEntry, EncodeVectorEntry, false, ids, vs, map[], rest);
  }

  lemma IndicesRoundTrip(names: seq<Name>, ix: map<Name, Params>, rest: Data)
    requires IsOrder(names, ix.Keys)
    requires forall n :: n in ix ==> |n| < Pow256(4) && ParamsFit(ix[n]) && !ix[n].Unsaved?
    ensures Within(names, ix.Keys)
    ensures ParseTable(ParseIndexEntry, true, |names|, map[], EncodeTable(EncodeIndexEntry, names, ix) + rest) ==
      Parsed(ix, rest)
  {
    OnlyAll(names, ix);
    forall i | 0 <= i < |names| ensures ReadsBack(ParseIndexEntry, EncodeIndexEntry, names[i], ix[names[i]]) {
      IndexEntryReadsBack(names[i], ix[names[i]]);
    }
    TableRoundTrip(ParseIndexEntry, EncodeIndexEntry, true, names, ix, map[], rest);
  }

  lemma UnsavedRunsShort(names: seq<Name>, ix: map<Name, Params>)
    requires IsOrder(names, ix.Keys)
    requires forall n :: n in ix ==> |n| < Pow256(4) && ParamsFit(ix[n])
    requires exists n :: n in ix && ix[n].Unsaved?
    ensures Within(names, ix.Keys)
    ensures ParseTable(ParseIndexEntry, true, |names|, map[], EncodeTable(EncodeIndexEntry, names, ix) + []) == Short
  {
    OnlyAll(names, ix);
    forall i | 0 <= i < |names| && EncodeIndexEntry(names[i], ix[names[i]]) != []
      ensures ReadsBack(ParseIndexEntry, EncodeIndexEntry, names[i], ix[names[i]])
    {
      IndexEntryReadsBack(names[i], ix[names[i]]);
    }
    var n :| n in ix && ix[n].Unsaved?;
    var i :| 0 <= i < |names| && names[i] == n;
    assert EncodeIndexEntry(names[i], ix[names[i]]) == [];
    WrittenBound(EncodeIndexEntry, names, ix);
    MissingEntries(ParseIndexEntry, EncodeIndexEntry, true, |names|, names, ix, map[]);
  }

  /** The vectors read back; then the index section decides. */
  lemma BodyRoundTrip(c: Snapshot, ids: seq<U64>, indices: Data)
    requires Fits(c) && IsOrder(ids, c.vectors.Keys)
    ensures Within(ids, c.vectors.Keys)
    ensures ParseBody(c.name, c.dimension,
                      EncodeBody(|c.vectors|, EncodeTable(EncodeVectorEntry, ids, c.vectors), |c.indices|, indices)) ==
      match ParseTable(ParseIndexEntry, true, |c.indices|, map[], indices)
      case Short => Short
      case Rejected => Rejected
      case Parsed(ix, rest) => Parsed(Snapshot(c.name, c.dimension, c.vectors, ix), rest)
  {
    var r1 := Le(|c.indices|, 4) + indices;
    VectorsRoundTrip(ids, c.vectors, r1);
    TakeIntFront(|c.vectors|, 4, EncodeTable(EncodeVectorEntry, ids, c.vectors) + r1);
    TakeIntFront(|c.indices|, 4, indices);
  }

  lemma EncodeSplits(c: Snapshot, ids: seq<U64>, names: seq<Name>, rest: Data)
    requires Within(ids, c.vectors.Keys) && Within(names, c.indices.Keys)
    ensures Encode(c, ids, names) + rest == Prefixed(c.name) + (Le(c.dimension, 4) +
      EncodeBody(|c.vectors|, EncodeTable(EncodeVectorEntry, ids, c.vectors),
                 |c.indices|, EncodeTable(EncodeIndexEntry, names, c.indices) + rest))
  {
    var vectors, indices := EncodeTable(EncodeVectorEntry, ids, c.vectors),
      EncodeTable(EncodeIndexEntry, names, c.indices);
    var tail := vectors + (Le(|c.indices|, 4) + indices);
    Assoc3(Prefixed(c.name), Le(c.dimension, 4), Le(|c.vectors|, 4) + tail, rest);
    Assoc(Le(|c.vectors|, 4), tail, rest);
    Assoc3(vectors, Le(|c.indices|, 4), indices, rest);
  }

  /** Reading a written collection gets as far as the index section. */
  lemma ReadsUpToIndices(c: Snapshot, ids: seq<U64>, names: seq<Name>, rest: Data)
    requires Fits(c)
    requires IsOrder(ids, c.vectors.Keys) && IsOrder(names, c.indices.Keys)
    ensures Within(ids, c.vectors.Keys) && Within(names, c.indices.Keys)
    ensures ParseCollection(Encode(c, ids, names) + rest) ==
      match ParseTable(ParseIndexEntry, true, |c.indices|, map[],
        EncodeTable(EncodeIndexEntry, names, c.indices) + rest)
      case Short => Short
      case Rejected => Rejected
      case Parsed(ix, r) => Parsed(Snapshot(c.name, c.dimension, c.vectors, ix), r)
  {
    OnlyAll(ids, c.vectors);
    OnlyAll(names, c.indices);
    var indices := EncodeTable(EncodeIndexEntry, names, c.indices) + rest;
    EncodeSplits(c, ids, names, rest);
    HeaderRoundTrip(c.name, c.dimension,
                    EncodeBody(|c.vectors|, EncodeTable(EncodeVectorEntry, ids, c.vectors), |c.indices|, indices));
    BodyRoundTrip(c, ids, indices);
  }

  /**
   Round trip, whatever the iteration orders and whatever follows in the stream: the
   same name, dimension, vectors and index parameters come back, and exactly the
   written bytes are consumed.
  */
  lemma CollectionRoundTrip(c: Snapshot, ids: seq<U64>, names: seq<Name>, rest: Data)
    requires Fits(c) && AllSaved(c)
    requires IsOrder(ids, c.vectors.Keys) && IsOrder(names, c.indices.Keys)
    ensures Within(ids, c.vectors.Keys) && Within(names, c.indices.Keys)
    ensures ParseCollection(Encode(c, ids, names) + rest) == Parsed(c, rest)
  {
    ReadsUpToIndices(c, ids, names, rest);
    IndicesRoundTrip(names, c.indices, rest);
  }

  /** A file reads back as the collection it was written from exactly when every index is of a saved kind. */
  lemma FileReadsBackIff(c: Snapshot, ids: seq<U64>, names: seq<Name>)
    requires Fits(c)
    requires IsOrder(ids, c.vectors.Keys) && IsOrder(names, c.indices.Keys)
    ensures Within(ids, c.vectors.Keys) && Within(names, c.indices.Keys)
    ensures ParseCollection(Encode(c, ids, names)) == Parsed(c, []) <==> AllSaved(c)
  {
    ReadsUpToIndices(c, ids, names, []);
    assert Encode(c, ids, names) + [] == Encode(c, ids, names);
    if AllSaved(c) {
      IndicesRoundTrip(names, c.indices, []);
    } else {
      UnsavedRunsShort(names, c.indices);
    }
  }
}
