/**
 The binary format of collections: `serialize` and `deserialize` of float_vector.cpp,
 index.cpp, the params structs and collection.cpp, on byte strings.
*/
module Wire {
  import opened Bytes
  import opened Tables

  // ----- float_vector -----

  type Entry = (Data, Data)

  /** `data` holds the `dimension` floats as raw bytes, four each. */
  datatype StoredVector = StoredVector(dimension: int, data: Data, metadata: Option<seq<Entry>>)

  predicate EntryFits(e: Entry) {
    |e.0| < Pow256(4) && |e.1| < Pow256(4)
  }

  /** The vectors that the program can hold: a 32-bit `int` dimension and 32-bit lengths. */
  predicate VectorFits(v: StoredVector) {
    && -0x8000_0000 <= v.dimension < 0x8000_0000
    && |v.data| == (if v.dimension > 0 then 4 * v.dimension else 0)
    && (v.metadata.Some? ==>
          && |v.metadata.value| < Pow256(4)
          && forall i :: 0 <= i < |v.metadata.value| ==> EntryFits(v.metadata.value[i]))
  }

  /** A 32-bit `int` in two's complement. */
  function Int32(n: int): Data {
    Le(n % 0x1_0000_0000, 4)
  }

  function SignedOf(u: nat): int {
    if u < 0x8000_0000 then u else u - 0x1_0000_0000
  }

  function EncodeEntry(e: Entry): Data {
    Prefixed(e.0) + Prefixed(e.1)
  }

  function EncodeMetadata(m: Option<seq<Entry>>): Data {
    match m
    case None => [0]
    case Some(es) => [1] + Le(|es|, 4) + EncodeList(EncodeEntry, es)
  }

  function EncodeVector(v: StoredVector): Data {
    Int32(v.dimension) + (if v.dimension > 0 then v.data else []) + EncodeMetadata(v.metadata)
  }

  function ParseEntry(bs: Data): Parsed<Entry> {
    var (key, r0) :- TakePrefixed(bs);
    var (value, r1) :- TakePrefixed(r0);
    Parsed((key, value), r1)
  }

  function ParseMetadata(bs: Data): Parsed<Option<seq<Entry>>> {
    var (flag, r0) :- TakeInt(bs, 1);
    if flag == 0 then Parsed(None, r0)
    else
      var (n, r1) :- TakeInt(r0, 4);
      var (es, r2) :- ParseList(ParseEntry, n, [], r1);
      Parsed(Some(es), r2)
  }

  function ParseVector(bs: Data): Parsed<StoredVector> {
    var (u, r0) :- TakeInt(bs, 4);
    var dimension := SignedOf(u);
    var (data, r1) :- Take(r0, if dimension > 0 then 4 * dimension else 0);
    var (m, r2) :- ParseMetadata(r1);
    Parsed(StoredVector(dimension, data, m), r2)
  }

  lemma EntriesRoundTrip(es: seq<Entry>, rest: Data)
    requires forall i :: 0 <= i < |es| ==> EntryFits(es[i])
    ensures ParseList(ParseEntry, |es|, [], EncodeList(EncodeEntry, es) + rest) == Parsed(es, rest)
  {
    forall i, r | 0 <= i < |es| ensures ParseEntry(EncodeEntry(es[i]) + r) == Parsed(es[i], r) {
      Assoc(Prefixed(es[i].0), Prefixed(es[i].1), r);
      PrefixedRoundTrip(es[i].0, Prefixed(es[i].1) + r);
      PrefixedRoundTrip(es[i].1, r);
    }
    ListRoundTrip(ParseEntry, EncodeEntry, es, [], rest);
    assert [] + es == es;
  }

  lemma MetadataRoundTrip(m: Option<seq<Entry>>, rest: Data)
    requires m.Some? ==> |m.value| < Pow256(4) && forall i :: 0 <= i < |m.value| ==> EntryFits(m.value[i])
    ensures ParseMetadata(EncodeMetadata(m) + rest) == Parsed(m, rest)
  {
    match m
    case None =>
      assert Le(0, 1) == [0];
      TakeIntFront(0, 1, rest);
    case Some(es) =>
      assert Le(1, 1) == [1];
      var body := Le(|es|, 4) + (EncodeList(EncodeEntry, es) + rest);
      assert EncodeMetadata(m) + rest == [1] + body;
      TakeIntFront(1, 1, body);
      TakeIntFront(|es|, 4, EncodeList(EncodeEntry, es) + rest);
      EntriesRoundTrip(es, rest);
  }

  lemma SignedRoundTrip(n: int, rest: Data)
    requires -0x8000_0000 <= n < 0x8000_0000
    ensures TakeInt(Int32(n) + rest, 4).Parsed? && TakeInt(Int32(n) + rest, 4).rest == rest
    ensures SignedOf(TakeInt(Int32(n) + rest, 4).value) == n
  {
    assert Pow256(4) == 0x1_0000_0000;
    TakeIntFront(n % 0x1_0000_0000, 4, rest);
  }

  lemma VectorParts(v: StoredVector, rest: Data)
    requires VectorFits(v)
    ensures EncodeVector(v) + rest == Int32(v.dimension) + (v.data + (EncodeMetadata(v.metadata) + rest))
  {
  }

  lemma VectorRoundTrip(v: StoredVector, rest: Data)
    requires VectorFits(v)
    ensures ParseVector(EncodeVector(v) + rest) == Parsed(v, rest)
  {
    var tail := EncodeMetadata(v.metadata) + rest;
    VectorParts(v, rest);
    SignedRoundTrip(v.dimension, v.data + tail);
    TakeFront(v.data, tail);
    MetadataRoundTrip(v.metadata, rest);
  }

  /** Where the parts of a vector stand: a signed dimension in four bytes, the data, and the flag of the metadata. */
  lemma VectorLayout(v: StoredVector)
    requires VectorFits(v)
    ensures var bs, end := EncodeVector(v), 4 + |v.data|;
      && end < |bs|
      && bs[..4] == Le(if v.dimension < 0 then v.dimension + 0x1_0000_0000 else v.dimension, 4)
      && bs[4..end] == v.data && bs[end] == (if v.metadata.Some? then 1 else 0)
      && (v.metadata == None ==> |bs| == end + 1)
  {
    Slices3(Int32(v.dimension), v.data, EncodeMetadata(v.metadata));
  }

  // ----- Index parameters -----

  /** The types that `add_index` can be asked for. */
  datatype IndexType = HnswType | IvfFlatType | UnknownType

  /** Lines 87-126 of collection.cpp: an index is made only with parameters of the named type. */
  predicate MakesIndex(kind: IndexType, hnswParams: bool, ivfParams: bool) {
    (kind == HnswType && hnswParams) || (kind == IvfFlatType && ivfParams)
  }

  /**
   What an index saves of itself. HNSW parameters exist only with a known distance
   type, the IVF ones with any byte; `Unsaved` is an index of type `unknown`, such as
   the exact scan.
  */
  datatype Params =
    | Hnsw(dist: Byte, m: U32, efConstruction: U32, efSearch: U32)
    | IvfFlat(dist: Byte, k: U32, nProbe: U32, rebuildThreshold: U64)
    | Unsaved
  {
    /** Derived by the constructor, never stored; 32-bit unsigned. */
    function M0(): nat
      requires Hnsw?
    {
      2 * m % 0x1_0000_0000
    }
  }

  /** `get_distance_instance` knows cosine, euclidean and inner product. */
  predicate KnownDistance(dist: Byte) {
    dist <= 2
  }

  predicate ParamsFit(p: Params) {
    p.Hnsw? ==> KnownDistance(p.dist)
  }

  /** The type tag and the parameters, as `collection::serialize` writes them; nothing for `Unsaved`. */
  function EncodeParams(p: Params): Data {
    match p
    case Hnsw(dist, m, efC, efS) => [1] + EncodeFields(Fields(dist, m, efC, efS), 4)
    case IvfFlat(dist, k, nProbe, threshold) => [0] + EncodeFields(Fields(dist, k, nProbe, threshold), 8)
    case Unsaved => []
  }

  datatype Fields = Fields(dist: nat, a: nat, b: nat, c: nat)

  /** A distance byte, two 32-bit integers and a last one of `w` bytes. */
  function EncodeFields(f: Fields, w: nat): Data {
    Le(f.dist, 1) + (Le(f.a, 4) + (Le(f.b, 4) + Le(f.c, w)))
  }

  function ParseFields(bs: Data, w: nat): Parsed<Fields> {
    var (dist, r0) :- TakeInt(bs, 1);
    var (a, r1) :- TakeInt(r0, 4);
    var (b, r2) :- TakeInt(r1, 4);
    var (c, r3) :- TakeInt(r2, w);
    Parsed(Fields(dist, a, b, c), r3)
  }

  lemma Regroup(a: Data, b: Data, c: Data, d: Data, rest: Data)
    ensures (a + (b + (c + d))) + rest == a + (b + (c + (d + rest)))
  {
  }

  lemma FieldsRoundTrip(f: Fields, w: nat, rest: Data)
    requires f.dist < Pow256(1) && f.a < Pow256(4) && f.b < Pow256(4) && f.c < Pow256(w)
    ensures ParseFields(EncodeFields(f, w) + rest, w) == Parsed(f, rest)
  {
    var r3 := Le(f.c, w) + rest;
    var r2 := Le(f.b, 4) + r3;
    var r1 := Le(f.a, 4) + r2;
    Regroup(Le(f.dist, 1), Le(f.a, 4), Le(f.b, 4), Le(f.c, w), rest);
    TakeIntFront(f.dist, 1, r1);
    TakeIntFront(f.a, 4, r2);
    TakeIntFront(f.b, 4, r3);
    TakeIntFront(f.c, w, rest);
  }

  lemma {:induction false} FromLeBound(bs: Data)
    ensures FromLe(bs) < Pow256(|bs|)
  {
    if bs != [] { FromLeBound(bs[1..]); }
  }

  /** Every integer read fits its width. */
  lemma TakeIntBound(bs: Data, w: nat)
    ensures TakeInt(bs, w).Parsed? ==> TakeInt(bs, w).value < Pow256(w)
  {
    if w <= |bs| { FromLeBound(bs[..w]); }
  }

  lemma FieldsBound(bs: Data, w: nat)
    ensures ParseFields(bs, w).Parsed? ==>
      var f := ParseFields(bs, w).value;
      f.dist < 256 && f.a < Pow256(4) && f.b < Pow256(4) && f.c < Pow256(w)
  {
    TakeIntBound(bs, 1);
    if TakeInt(bs, 1).Parsed? {
      var r0 := TakeInt(bs, 1).rest;
      TakeIntBound(r0, 4);
      if TakeInt(r0, 4).Parsed? {
        var r1 := TakeInt(r0, 4).rest;
        TakeIntBound(r1, 4);
        if TakeInt(r1, 4).Parsed? { TakeIntBound(TakeInt(r1, 4).rest, w); }
      }
    }
  }

  /**
   `index_t::deserialize`: a tag that names no index yields none and reads no further;
   HNSW parameters with an unknown distance type are rejected by an exception.
  */
  function ParseParams(bs: Data): Parsed<Option<Params>> {
    var (tag, r0) :- TakeInt(bs, 1);
    assert Pow256(4) == 0x1_0000_0000 && Pow256(8) == 0x1_0000_0000_0000_0000;
    if tag == 1 then
      FieldsBound(r0, 4);
      var (f, r1) :- ParseFields(r0, 4);
      if KnownDistance(f.dist) then Parsed(Some(Hnsw(f.dist, f.a, f.b, f.c)), r1) else Rejected
    else if tag == 0 then
      FieldsBound(r0, 8);
      var (f, r1) :- ParseFields(r0, 8);
      Parsed(Some(IvfFlat(f.dist, f.a, f.b, f.c)), r1)
    else Parsed(None, r0)
  }

  lemma TagRoundTrip(tag: Byte, body: Data, rest: Data)
    ensures TakeInt(([tag] + body) + rest, 1) == Parsed(tag, body + rest)
  {
    assert Le(tag, 1) == [tag];
    assert ([tag] + body) + rest == [tag] + (body + rest);
    TakeIntFront(tag, 1, body + rest);
  }

  lemma ParamsRoundTrip(p: Params, rest: Data)
    requires ParamsFit(p) && !p.Unsaved?
    ensures ParseParams(EncodeParams(p) + rest) == Parsed(Some(p), rest)
  {
    assert Pow256(4) == 0x1_0000_0000 && Pow256(8) == 0x1_0000_0000_0000_0000;
    match p
    case Hnsw(dist, m, efC, efS) =>
      var f := Fields(dist, m, efC, efS);
      TagRoundTrip(1, EncodeFields(f, 4), rest);
      FieldsRoundTrip(f, 4, rest);
    case IvfFlat(dist, k, nProbe, threshold) =>
      var f := Fields(dist, k, nProbe, threshold);
      TagRoundTrip(0, EncodeFields(f, 8), rest);
      FieldsRoundTrip(f, 8, rest);
  }

  lemma TaggedLayout(tag: Byte, f: Fields, w: nat)
    requires f.dist < 256
    ensures var bs := [tag] + EncodeFields(f, w);
      && |bs| == 10 + w && bs[0] == tag && bs[1] == f.dist
      && bs[2..6] == Le(f.a, 4) && bs[6..10] == Le(f.b, 4) && bs[10..] == Le(f.c, w)
  {
    assert Le(f.dist, 1) == [f.dist];
    assert [tag] + EncodeFields(f, w) == [tag] + [f.dist] + Le(f.a, 4) + Le(f.b, 4) + Le(f.c, w);
  }

  /** Where tag and parameters stand: the tag is 1 for HNSW and 0 for IVF, whose last field has 64 bits. */
  lemma ParamsLayout(p: Params)
    requires !p.Unsaved?
    ensures var bs := EncodeParams(p);
      match p
      case Hnsw(dist, m, efConstruction, efSearch) =>
        && |bs| == 14 && bs[0] == 1 && bs[1] == dist
        && bs[2..6] == Le(m, 4) && bs[6..10] == Le(efConstruction, 4) && bs[10..14] == Le(efSearch, 4)
      case IvfFlat(dist, k, nProbe, threshold) =>
        && |bs| == 18 && bs[0] == 0 && bs[1] == dist
        && bs[2..6] == Le(k, 4) && bs[6..10] == Le(nProbe, 4) && bs[10..18] == Le(threshold, 8)
  {
    match p
    case Hnsw(dist, m, efC, efS) => TaggedLayout(1, Fields(dist, m, efC, efS), 4);
    case IvfFlat(dist, k, nProbe, threshold) => TaggedLayout(0, Fields(dist, k, nProbe, threshold), 8);
  }
}
