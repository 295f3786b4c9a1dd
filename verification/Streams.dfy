/** `serialize` and `deserialize` as the program runs them, on streams, step by step. */
module Streams {
  import opened Bytes
  import opened Iteration
  import opened Wire
  import opened Tables
  import opened Persistence

  class OutStream {
    var bytes: Data

    constructor ()
      ensures bytes == []
    {
      bytes := [];
    }

    method Write(bs: Data)
      modifies this
      ensures bytes == old(bytes) + bs
    {
      bytes := bytes + bs;
    }
  }

  class InStream {
    var rest: Data

    constructor (bs: Data)
      ensures rest == bs
    {
      rest := bs;
    }

    /** `is.read`; running out of bytes is reported, where the program goes on with what it has. */
    method Read(n: nat) returns (r: Parsed<Data>)
      modifies this
      ensures r == Take(old(rest), n)
      ensures r.Parsed? ==> rest == r.rest
    {
      r := Take(rest, n);
      if r.Parsed? { rest := r.rest; }
    }

    method ReadInt(w: nat) returns (r: Parsed<nat>)
      modifies this
      ensures r == TakeInt(old(rest), w)
      ensures r.Parsed? ==> rest == r.rest
    {
      r := TakeInt(rest, w);
      if r.Parsed? { rest := r.rest; }
    }

    method ReadPrefixed() returns (r: Parsed<Data>)
      modifies this
      ensures r == TakePrefixed(old(rest))
      ensures r.Parsed? ==> rest == r.rest
    {
      var n :- ReadInt(4);
      r := Read(n.0);
    }
  }

  // ----- Writing -----

  /** float_vector.cpp lines 73-98. */
  method SerializeVector(v: StoredVector, os: OutStream)
    modifies os
    ensures os.bytes == old(os.bytes) + EncodeVector(v)
  {
    os.Write(Int32(v.dimension));
    if v.dimension > 0 {
      os.Write(v.data);
    }
    ghost var front := os.bytes;
    assert front == old(os.bytes) + (Int32(v.dimension) + (if v.dimension > 0 then v.data else []));
    SerializeMetadata(v.metadata, os);
  }

  /** Lines 81-97. */
  method SerializeMetadata(metadata: Option<seq<Entry>>, os: OutStream)
    modifies os
    ensures os.bytes == old(os.bytes) + EncodeMetadata(metadata)
  {
    if metadata == None {
      os.Write([0]);
    } else {
      os.Write([1]);
      os.Write(Le(|metadata.value|, 4));
      SerializeEntries(metadata.value, os);
    }
  }

  method SerializeEntries(es: seq<Entry>, os: OutStream)
    modifies os
    ensures os.bytes == old(os.bytes) + EncodeList(EncodeEntry, es)
  {
    assert es[0..] == es;
    for i := 0 to |es|
      invariant os.bytes + EncodeList(EncodeEntry, es[i..]) == old(os.bytes) + EncodeList(EncodeEntry, es)
    {
      ghost var before := os.bytes;
      assert es[i..][1..] == es[i + 1..];
      os.Write(Prefixed(es[i].0));
      os.Write(Prefixed(es[i].1));
      FourParts(before, Prefixed(es[i].0), Prefixed(es[i].1), EncodeList(EncodeEntry, es[i + 1..]));
    }
  }

  lemma FourParts(front: Data, a: Data, b: Data, c: Data)
    ensures ((front + a) + b) + c == front + ((a + b) + c)
  {
  }

  lemma {:induction false} TableGrows<K, V>(enc: (K, V) -> Data, order: seq<K>, m: map<K, V>, k: K)
    requires Within(order, m.Keys) && k in m
    ensures EncodeTable(enc, order + [k], m) == EncodeTable(enc, order, m) + enc(k, m[k])
    decreases |order|
  {
    if order == [] {
      assert (order + [k])[1..] == [];
    } else {
      TableGrows(enc, order[1..], m, k);
      assert (order + [k])[1..] == order[1..] + [k];
      Assoc(enc(order[0], m[order[0]]), EncodeTable(enc, order[1..], m), enc(k, m[k]));
    }
  }

  /** `bytes` are `front` and the entries written so far, in the order they came. */
  ghost predicate TableWritten<K(!new), V>(front: Data, bytes: Data, enc: (K, V) -> Data, order: seq<K>, m: map<K, V>,
                                           done: set<K>)
  {
    && Within(order, m.Keys) && IsOrder(order, done)
    && bytes == front + EncodeTable(enc, order, m)
  }

  lemma OneMoreEntry<K(!new), V>(front: Data, bytes: Data, enc: (K, V) -> Data, order: seq<K>, m: map<K, V>,
                                 done: set<K>, k: K)
    requires TableWritten(front, bytes, enc, order, m, done) && k in m && k !in done
    ensures TableWritten(front, bytes + enc(k, m[k]), enc, order + [k], m, done + {k})
  {
    TableGrows(enc, order, m, k);
    OrderGrows(order, done, k);
    Assoc(front, EncodeTable(enc, order, m), enc(k, m[k]));
  }

  /** Lines 191-192 of collection.cpp. */
  method SerializeVectorEntry(id: U64, v: StoredVector, os: OutStream)
    modifies os
    ensures os.bytes == old(os.bytes) + EncodeVectorEntry(id, v)
  {
    os.Write(Le(id, 8));
    SerializeVector(v, os);
    Assoc(old(os.bytes), Le(id, 8), EncodeVector(v));
  }

  /** Lines 189-193: in the order of the hash map's iteration, recorded in `ids`. */
  method SerializeVectors(vs: map<U64, StoredVector>, os: OutStream) returns (ghost ids: seq<U64>)
    modifies os
    ensures TableWritten(old(os.bytes), os.bytes, EncodeVectorEntry, ids, vs, vs.Keys)
  {
    ids := [];
    var rest := vs.Keys;
    NoneDone(rest);
    while rest != {}
      invariant rest <= vs.Keys
      invariant TableWritten(old(os.bytes), os.bytes, EncodeVectorEntry, ids, vs, vs.Keys - rest)
    {
      var id :| id in rest;
      NextDone(vs.Keys, rest, id);
      OneMoreEntry(old(os.bytes), os.bytes, EncodeVectorEntry, ids, vs, vs.Keys - rest, id);
      SerializeVectorEntry(id, vs[id], os);
      ids, rest := ids + [id], rest - {id};
    }
    NoneDone(vs.Keys);
  }

  /** Lines 199-207. */
  method SerializeIndexEntry(name: Name, p: Params, os: OutStream)
    modifies os
    ensures os.bytes == old(os.bytes) + EncodeIndexEntry(name, p)
  {
    if p.Unsaved? { return; }
    os.Write(Prefixed(name));
    os.Write(EncodeParams(p));
    Assoc(old(os.bytes), Prefixed(name), EncodeParams(p));
  }

  /** Lines 197-208. */
  method SerializeIndices(ix: map<Name, Params>, os: OutStream) returns (ghost names: seq<Name>)
    modifies os
    ensures TableWritten(old(os.bytes), os.bytes, EncodeIndexEntry, names, ix, ix.Keys)
  {
    names := [];
    var rest := ix.Keys;
    NoneDone(rest);
    while rest != {}
      invariant rest <= ix.Keys
      invariant TableWritten(old(os.bytes), os.bytes, EncodeIndexEntry, names, ix, ix.Keys - rest)
    {
      var name :| name in rest;
      NextDone(ix.Keys, rest, name);
      OneMoreEntry(old(os.bytes), os.bytes, EncodeIndexEntry, names, ix, ix.Keys - rest, name);
      SerializeIndexEntry(name, ix[name], os);
      names, rest := names + [name], rest - {name};
    }
    NoneDone(ix.Keys);
  }

  /** collection.cpp lines 176-209. */
  method Serialize(c: Snapshot, os: OutStream) returns (ghost ids: seq<U64>, ghost names: seq<Name>)
    modifies os
    ensures IsOrder(ids, c.vectors.Keys) && Within(ids, c.vectors.Keys)
    ensures IsOrder(names, c.indices.Keys) && Within(names, c.indices.Keys)
    ensures os.bytes == old(os.bytes) + Encode(c, ids, names)
  {
    os.Write(Prefixed(c.name));
    os.Write(Le(c.dimension, 4));
    os.Write(Le(|c.vectors|, 4));
    ids := SerializeVectors(c.vectors, os);
    os.Write(Le(|c.indices|, 4));
    names := SerializeIndices(c.indices, os);
    SixParts(old(os.bytes), Prefixed(c.name), Le(c.dimension, 4), Le(|c.vectors|, 4),
             EncodeTable(EncodeVectorEntry, ids, c.vectors), Le(|c.indices|, 4),
               EncodeTable(EncodeIndexEntry, names, c.indices));
  }

  lemma SixParts(front: Data, a: Data, b: Data, c: Data, d: Data, e: Data, f: Data)
    ensures (((((front + a) + b) + c) + d) + e) + f == front + (a + (b + (c + (d + (e + f)))))
  {
  }

  // ----- Reading -----

  /** `one` is the entry parser that `read` is specified by; loops over entries do not look inside it. */
  ghost predicate Same<T>(one: Data -> Parsed<T>, read: Data -> Parsed<T>) {
    forall bs {:trigger read(bs)} :: one(bs) == read(bs)
  }

  /** float_vector.cpp lines 100-136. */
  method DeserializeVector(input: InStream) returns (r: Parsed<StoredVector>)
    modifies input
    ensures r == ParseVector(old(input.rest))
    ensures r.Parsed? ==> input.rest == r.rest
  {
    var u :- input.ReadInt(4);
    var dimension := SignedOf(u.0);
    var data :- input.Read(if dimension > 0 then 4 * dimension else 0);
    var m :- DeserializeMetadata(input);
    r := Parsed(StoredVector(dimension, data.0, m.0), input.rest);
  }

  /** Lines 112-134. */
  method DeserializeMetadata(input: InStream) returns (r: Parsed<Option<seq<Entry>>>)
    modifies input
    ensures r == ParseMetadata(old(input.rest))
    ensures r.Parsed? ==> input.rest == r.rest
  {
    var flag :- input.ReadInt(1);
    if flag.0 == 0 { return Parsed(None, input.rest); }
    var n :- input.ReadInt(4);
    var es :- DeserializeEntries(n.0, input, ParseEntry);
    r := Parsed(Some(es.0), input.rest);
  }

  /** Lines 120-133. */
  method DeserializeEntries(n: nat, input: InStream, ghost one: Data -> Parsed<Entry>) returns (r: Parsed<seq<Entry>>)
    requires Same(one, ParseEntry)
    modifies input
    ensures r == ParseList(one, n, [], old(input.rest))
    ensures r.Parsed? ==> input.rest == r.rest
  {
    ghost var all := ParseList(one, n, [], input.rest);
    var es := [];
    for i := 0 to n
      invariant ParseList(one, n - i, es, input.rest) == all
    {
      var e :- DeserializeEntry(input, one);
      es := es + [e.0];
    }
    r := Parsed(es, input.rest);
  }

  method DeserializeEntry(input: InStream, ghost one: Data -> Parsed<Entry>) returns (r: Parsed<Entry>)
    requires Same(one, ParseEntry)
    modifies input
    ensures r == one(old(input.rest))
    ensures r.Parsed? ==> input.rest == r.rest
  {
    ghost var parsed := ParseEntry(input.rest);
    var key :- input.ReadPrefixed();
    var value :- input.ReadPrefixed();
    r := Parsed((key.0, value.0), input.rest);
  }

  /** index.cpp lines 11-30. */
  method DeserializeIndex(input: InStream) returns (r: Parsed<Option<Params>>)
    modifies input
    ensures r == ParseParams(old(input.rest))
    ensures r.Parsed? ==> input.rest == r.rest
  {
    var tag :- input.ReadInt(1);
    assert Pow256(4) == 0x1_0000_0000 && Pow256(8) == 0x1_0000_0000_0000_0000;
    FieldsBound(input.rest, 4);
    FieldsBound(input.rest, 8);
    if tag.0 == 1 {
      var f :- ReadFields(4, input);
      if !KnownDistance(f.0.dist) { return Rejected; }
      r := Parsed(Some(Hnsw(f.0.dist, f.0.a, f.0.b, f.0.c)), input.rest);
    } else if tag.0 == 0 {
      var f :- ReadFields(8, input);
      r := Parsed(Some(IvfFlat(f.0.dist, f.0.a, f.0.b, f.0.c)), input.rest);
    } else {
      r := Parsed(None, input.rest);
    }
  }

  /** hnsw.h lines 64-71 and ivfflat.h lines 40-48. */
  method ReadFields(w: nat, input: InStream) returns (r: Parsed<Fields>)
    modifies input
    ensures r == ParseFields(old(input.rest), w)
    ensures r.Parsed? ==> input.rest == r.rest
  {
    var dist :- input.ReadInt(1);
    var a :- input.ReadInt(4);
    var b :- input.ReadInt(4);
    var c :- input.ReadInt(w);
    r := Parsed(Fields(dist.0, a.0, b.0, c.0), input.rest);
  }

  /** Lines 225-230. */
  method DeserializeVectors(n: nat, input: InStream, ghost one: Data -> Parsed<Option<(U64, StoredVector)>>)
    returns (r: Parsed<map<U64, StoredVector>>)
    requires Same(one, ParseVectorEntry)
    modifies input
    ensures r == ParseTable(one, false, n, map[], old(input.rest))
    ensures r.Parsed? ==> input.rest == r.rest
  {
    ghost var all := ParseTable(one, false, n, map[], input.rest);
    var vs: map<U64, StoredVector> := map[];
    for i := 0 to n
      invariant ParseTable(one, false, n - i, vs, input.rest) == all
    {
      var entry :- DeserializeVectorEntry(input, one);
      vs := Put(vs, entry.0, false);
    }
    r := Parsed(vs, input.rest);
  }

  /** Lines 227-229. */
  method DeserializeVectorEntry(input: InStream, ghost one: Data -> Parsed<Option<(U64, StoredVector)>>)
    returns (r: Parsed<Option<(U64, StoredVector)>>)
    requires Same(one, ParseVectorEntry)
    modifies input
    ensures r == one(old(input.rest))
    ensures r.Parsed? ==> input.rest == r.rest
  {
    ghost var parsed := ParseVectorEntry(input.rest);
    var id :- input.ReadInt(8);
    var v :- DeserializeVector(input);
    r := Parsed(Some((id.0, v.0)), input.rest);
  }

  /** Lines 234-247. */
  method DeserializeIndices(n: nat, input: InStream, ghost one: Data -> Parsed<Option<(Name, Params)>>)
    returns (r: Parsed<map<Name, Params>>)
    requires Same(one, ParseIndexEntry)
    modifies input
    ensures r == ParseTable(one, true, n, map[], old(input.rest))
    ensures r.Parsed? ==> input.rest == r.rest
  {
    ghost var all := ParseTable(one, true, n, map[], input.rest);
    var ix: map<Name, Params> := map[];
    for i := 0 to n
      invariant ParseTable(one, true, n - i, ix, input.rest) == all
    {
      var entry :- DeserializeIndexEntry(input, one);
      ix := Put(ix, entry.0, true);
    }
    r := Parsed(ix, input.rest);
  }

  /** Lines 236-246. */
  method DeserializeIndexEntry(input: InStream, ghost one: Data -> Parsed<Option<(Name, Params)>>)
    returns (r: Parsed<Option<(Name, Params)>>)
    requires Same(one, ParseIndexEntry)
    modifies input
    ensures r == one(old(input.rest))
    ensures r.Parsed? ==> input.rest == r.rest
  {
    ghost var parsed := ParseIndexEntry(input.rest);
    var name :- input.ReadPrefixed();
    var p :- DeserializeIndex(input);
    r := Parsed(if p.0.Some? then Some((name.0, p.0.value)) else None, input.rest);
  }

  /** collection.cpp lines 211-249. */
  method Deserialize(input: InStream) returns (r: Parsed<Snapshot>)
    modifies input
    ensures r == ParseCollection(old(input.rest))
    ensures r.Parsed? ==> input.rest == r.rest
  {
    var name :- input.ReadPrefixed();
    TakeIntBound(input.rest, 4);
    var dimension :- input.ReadInt(4);
    assert Pow256(4) == 0x1_0000_0000;
    r := DeserializeBody(name.0, dimension.0, input);
  }

  /** Lines 223-247. */
  method DeserializeBody(name: Name, dimension: U32, input: InStream) returns (r: Parsed<Snapshot>)
    modifies input
    ensures r == ParseBody(name, dimension, old(input.rest))
    ensures r.Parsed? ==> input.rest == r.rest
  {
    var vecCount :- input.ReadInt(4);
    var vs :- DeserializeVectors(vecCount.0, input, ParseVectorEntry);
    var idxCount :- input.ReadInt(4);
    var ix :- DeserializeIndices(idxCount.0, input, ParseIndexEntry);
    r := Parsed(Snapshot(name, dimension, vs.0, ix.0), input.rest);
  }
}
