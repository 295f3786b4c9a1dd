/**
 The class of `collection.cpp`: stored vectors, any number of indices over them, and
 searches through an index or by the exact scan. One call at a time; the module
 Interleaving splits `add_vectors` into its two critical sections.
*/
module VectorCollection {
  import opened Ranking
  import opened Vectors
  import opened Spaces
  import opened Bytes
  import opened Batches
  import opened HnswState
  import opened HnswEmptied
  import opened IvfSearch
  import BruteForce
  import Pending
  import Hnsw
  import Ivf
  import IvfLists
  import Wire

  datatype AnyIndex = HnswIndex(hnsw: Hnsw.Index) | IvfIndex(ivf: Ivf.Index) {
    function Object(): object {
      if HnswIndex? then hnsw else ivf
    }
  }

  /** What `params_t*` may point to. */
  datatype IndexParams =
    | HnswParams(metric: Metric, m: U32, efConstruction: U32, efSearch: U32)
    | IvfParams(metric: Metric, k: U32, nProbe: U32, rebuildThreshold: U64)
    | NoParams

  /** Every stored id waits for insertion or is in the graph to stay; nothing else is. */
  ghost predicate CaughtUp(p: Pending.Sets, keys: set<Id>) {
    && p.toBeInserted <= keys
    && (forall id :: id in keys ==> id in p.toBeInserted || (id in p.inserted && id !in p.toBeRemoved))
    && (forall id :: id in p.inserted && id !in p.toBeRemoved ==> id in keys && id !in p.toBeInserted)
  }

  lemma AddedCatchesUp(p: Pending.Sets, keys: set<Id>, ids: seq<Id>)
    requires CaughtUp(p, keys)
    ensures CaughtUp(Pending.Added(p, ids), IvfLists.With(keys, ids))
  {
    Pending.AddedFacts(p, ids);
  }

  lemma RemovedCatchesUp(p: Pending.Sets, keys: set<Id>, ids: seq<Id>)
    requires CaughtUp(p, keys) && forall i :: i in ids ==> i in keys
    ensures CaughtUp(Pending.Removed(p, ids), keys - Elements(ids))
  {
    Pending.RemovedFacts(p, ids);
  }

  lemma BuiltCatchesUp(p: Pending.Sets, keys: set<Id>)
    requires CaughtUp(p, keys)
    ensures Pending.Built(p, keys) == Pending.Sets(keys, {}, {})
  {
  }

  /** An index as a value. */
  datatype Sight =
    | OfHnsw(graph: State, pending: Pending.Sets, m0: nat, m: nat, efConstruction: nat)
    | OfIvf(metric: Metric, clusters: seq<Cluster>, converged: bool, k: nat, threshold: nat, changes: nat)

  ghost function Look(x: AnyIndex): Sight
    reads x.Object()
  {
    match x
    case HnswIndex(i) => OfHnsw(i.Graph(), i.View(), i.M0(), i.M, i.efConstruction)
    case IvfIndex(i) => OfIvf(i.metric, i.clusters, i.converged, i.k, i.rebuildThreshold, i.vectorsSinceRebuild)
  }

  /** What every index keeps to in every history. */
  ghost predicate InStep(s: Sight, vectors: map<Id, Vec>) {
    match s
    case OfHnsw(graph, pending, m0, m, ef) => WellFormed(graph) && CaughtUp(pending, vectors.Keys)
    case OfIvf(metric, clusters, converged, k, _, _) => converged && k > 0 ==> Covers(metric, vectors, clusters)
  }

  /**
   A small HNSW graph, or clusters that list each stored id once: such an index answers
   like the exact scan.
  */
  ghost predicate Exactly(s: Sight, vectors: map<Id, Vec>) {
    match s
    case OfHnsw(graph, p, m0, m, ef) => Grows(graph, p, m0, m, ef)
    case OfIvf(metric, clusters, converged, k, _, _) => k > 0 && Listed(clusters) == multiset(vectors.Keys)
  }

  /**
   The next build leaves a graph that is small, or even tiny; with removals or updates
   of inserted ids pending, it must be tiny and some node that stays on its highest level.
   Or else it empties the graph, or the graph was emptied before, and `m0` nodes are enough.
  */
  ghost predicate Grows(graph: State, p: Pending.Sets, m0: nat, m: nat, ef: nat) {
    || Deserves(Small, graph, p.toBeInserted, p.toBeRemoved, m0, m, ef)
    || Deserves(Tiny, graph, p.toBeInserted, p.toBeRemoved, m0, m, ef)
    || Refillable(graph, p.toBeInserted, p.toBeRemoved, m0, m)
  }

  /** Whether the pending sets may become `p'`, for `size` stored ids. */
  ghost predicate MayPend(graph: State, p': Pending.Sets, size: nat, m0: nat, m: nat, ef: nat) {
    || (p'.toBeRemoved == {} && Fits(Small, size, m0, m, ef) && (IsGraph(graph, m0, m) || size <= m0))
    || (Holds(Tiny, graph, {}, m0, m, ef) && Fits(Tiny, size, m0, m, ef) && Anchored(graph, p'.toBeRemoved))
    || (IsGraph(graph, m0, m) && graph.inserted <= p'.toBeRemoved && size <= m0)
  }

  datatype Update = Added(ids: seq<Id>) | Removed(ids: seq<Id>)

  /** What the hooks of the indices are told matches what happened to the vectors. */
  ghost predicate Happened(update: Update, before: map<Id, Vec>, after: map<Id, Vec>, dimension: nat) {
    && (forall id :: id in after ==> |after[id]| == dimension)
    && match update
       case Added(ids) =>
         && after.Keys == IvfLists.With(before.Keys, ids)
         && forall id :: id in after && id !in ids ==> id in before && after[id] == before[id]
       case Removed(ids) => IvfLists.Erased(before, after, ids)
  }

  /**
   Updates under which an index stays exact. For an HNSW index the added ids are
   non-zero, the nodes fit, and no inserted id is removed or updated unless the graph is
   tiny and keeps a node on its highest level, or is emptied. For an IVF index the added ids are new.
  */
  ghost predicate Harmless(s: Sight, update: Update, before: set<Id>) {
    match s
    case OfHnsw(graph, p, m0, m, ef) =>
      (match update
       case Added(ids) => 0 !in ids && MayPend(graph, Pending.Added(p, ids), |IvfLists.With(before, ids)|, m0, m, ef)
       case Removed(ids) => MayPend(graph, Pending.Removed(p, ids), |before - Elements(ids)|, m0, m, ef))
    case OfIvf(_, _, _, _, _, _) => update.Added? ==> IvfLists.FreshBatch(update.ids, before)
  }

  /**
   What the hooks make of an index: an HNSW one only notes the ids; an IVF one counts them,
   and changes its lists or is built again. Without ids removed no hook is called.
  */
  ghost predicate Told(s: Sight, s': Sight, update: Update, after: map<Id, Vec>, dimension: nat) {
    match s
    case OfHnsw(_, p, _, _, _) =>
      s' == s.(pending := match update
                          case Added(ids) => Pending.Added(p, ids)
                          case Removed(ids) => Pending.Removed(p, ids))
    case OfIvf(metric, clusters, converged, k, threshold, changes) =>
      && s'.OfIvf? && s' == s.(clusters := s'.clusters, converged := s'.converged, changes := s'.changes)
      && var changes' := (changes + |update.ids|) % 0x1_0000_0000_0000_0000;
      match update
      case Added(ids) =>
        IvfLists.AddedOrBuilt(changes', threshold, s'.changes, metric, after, k, dimension, clusters, s'.clusters,
                              converged, s'.converged, ids)
      case Removed(ids) =>
        if ids == [] || clusters == [] then s' == s
        else
          IvfLists.ErasedOrBuilt(changes', threshold, s'.changes, metric, after, k, dimension, clusters, s'.clusters,
                                 converged, s'.converged, ids)
  }

  ghost predicate Follows(s: Sight, s': Sight, update: Update, before: map<Id, Vec>, after: map<Id, Vec>,
                          dimension: nat)
  {
    && InStep(s', after)
    && Told(s, s', update, after, dimension)
    && (Exactly(s, before) && Harmless(s, update, before.Keys) ==> Exactly(s', after))
  }

  /** An HNSW index has room for every node, or an IVF one probes every cluster. */
  ghost predicate SearchesAll(x: AnyIndex, vectors: map<Id, Vec>, k: nat)
    reads x.Object()
  {
    match x
    case HnswIndex(i) => Max(k, i.efSearch) >= |vectors|
    case IvfIndex(i) => i.nProbe >= |i.clusters|
  }

  function MetricOf(x: AnyIndex): Metric {
    if x.HnswIndex? then x.hnsw.metric else x.ivf.metric
  }

  class Collection {
    const dimension: nat
    const euclidean: Metric
    /** `numeric_limits<double>::max()` */
    const farthest: real

    var vectors: map<Id, Vec>
    var indices: map<string, AnyIndex>

    /** The index objects. */
    ghost var Repr: set<object>

    ghost predicate Valid()
      reads this, Repr
    {
      && this !in Repr
      && (forall id :: id in vectors ==> |vectors[id]| == dimension)
      && (forall x :: x in indices.Values ==> x.Object() in Repr)
      && (forall x :: x in indices.Values ==> InStep(Look(x), vectors))
    }

    constructor (dimension: nat, euclidean: Metric, farthest: real)
      ensures Valid() && vectors == map[] && indices == map[] && Repr == {}
      ensures this.dimension == dimension && this.euclidean == euclidean && this.farthest == farthest
    {
      this.dimension, this.euclidean, this.farthest := dimension, euclidean, farthest;
      vectors, indices, Repr := map[], map[], {};
    }

    // ----- Adding and removing -----

    /** Lines 20-52; the database lets only vectors of the right dimension through. */
    method AddVectors(batch: seq<(Id, Vec)>) returns (added: nat, updated: nat)
      requires Valid() && forall i :: 0 <= i < |batch| ==> |batch[i].1| == dimension
      modifies this`vectors, Repr
      ensures Valid() && vectors == Upserted(old(vectors), batch)
      ensures added + updated == |batch| && added == |vectors.Keys - old(vectors.Keys)|
      ensures forall x :: x in indices.Values ==>
        Follows(old(Look(x)), Look(x), Added(BatchIds(batch)), old(vectors), vectors, dimension)
    {
      ghost var before := vectors;
      AddingHappened(vectors, batch, dimension);
      var ids;
      vectors, ids, added, updated := UpsertAll(vectors, batch);
      ghost var after := vectors;
      Notify(Added(ids), before, s => InStep(s, before),
             (s, s') => Follows(s, s', Added(ids), before, after, dimension));
    }

    /** Lines 63-85: ids that are not stored are passed over. */
    method RemoveVectors(ids: seq<Id>) returns (count: nat)
      requires Valid()
      modifies this`vectors, Repr
      ensures Valid() && vectors == old(vectors) - Elements(ids)
      ensures count == |old(vectors.Keys) - vectors.Keys|
      ensures forall x :: x in indices.Values ==>
        Follows(old(Look(x)), Look(x), Removed(Present(old(vectors.Keys), ids)), old(vectors), vectors, dimension)
    {
      ghost var before := vectors;
      RemovingHappened(vectors, ids, dimension);
      var removed;
      vectors, removed := EraseAll(vectors, ids);
      ghost var after := vectors;
      NotifyRemoved(removed, before, s => InStep(s, before),
        (s, s') => Follows(s, s', Removed(removed), before, after, dimension));
      count := |removed|;
    }

    /** Lines 76-83. */
    method NotifyRemoved(removed: seq<Id>, ghost before: map<Id, Vec>, ghost ready: Sight -> bool,
                         ghost done: (Sight, Sight) -> bool)
      requires Happened(Removed(removed), before, vectors, dimension) && Stands(ready, done, before, Removed(removed))
      requires this !in Repr && forall x :: x in indices.Values ==> x.Object() in Repr && ready(Look(x))
      modifies Repr
      ensures forall x :: x in indices.Values ==> done(old(Look(x)), Look(x))
    {
      if removed != [] {
        Notify(Removed(removed), before, ready, done);
      } else {
        forall x | x in indices.Values ensures done(Look(x), Look(x)) {
          NoneErased(before, removed);
          assert InStep(Look(x), before);
          assert Follows(Look(x), Look(x), Removed(removed), before, vectors, dimension);
        }
      }
    }

    /** `ready` holds of the indices before, `done` of each before and after; the loop looks into neither. */
    ghost predicate Stands(ready: Sight -> bool, done: (Sight, Sight) -> bool, before: map<Id, Vec>, update: Update)
      reads this
    {
      && (forall s {:trigger InStep(s, before)} :: ready(s) ==> InStep(s, before))
      && (forall s, s' {:trigger Follows(s, s', update, before, vectors, dimension)} ::
            Follows(s, s', update, before, vectors, dimension) ==> done(s, s'))
    }

    /** Lines 43-49 and 79-82; each name has an index of its own. */
    method Notify(update: Update, ghost before: map<Id, Vec>, ghost ready: Sight -> bool,
                  ghost done: (Sight, Sight) -> bool)
      requires Happened(update, before, vectors, dimension) && Stands(ready, done, before, update)
      requires update.Removed? ==> update.ids != []
      requires this !in Repr && forall x :: x in indices.Values ==> x.Object() in Repr && ready(Look(x))
      modifies Repr
      ensures forall x :: x in indices.Values ==> done(old(Look(x)), Look(x))
    {
      var rest := indices.Values;
      while rest != {}
        invariant rest <= indices.Values
        invariant forall x :: x in rest ==> Look(x) == old(Look(x))
        invariant forall x :: x in indices.Values - rest ==> done(old(Look(x)), Look(x))
      {
        var x :| x in rest;
        NotifyOne(x, update, before, ready, done);
        rest := rest - {x};
      }
    }

    method NotifyOne(x: AnyIndex, update: Update, ghost before: map<Id, Vec>, ghost ready: Sight -> bool,
                     ghost done: (Sight, Sight) -> bool)
      requires Happened(update, before, vectors, dimension) && Stands(ready, done, before, update)
      requires update.Removed? ==> update.ids != []
      requires ready(Look(x)) && x.Object() != this
      modifies x.Object()
      ensures done(old(Look(x)), Look(x))
    {
      assert InStep(Look(x), before);
      match x {
        case HnswIndex(i) => TellHnsw(i, update, before, vectors, dimension);
        case IvfIndex(i) => TellIvf(i, update, before, vectors, dimension);
      }
      assert Follows(old(Look(x)), Look(x), update, before, vectors, dimension);
    }

    // ----- Indices -----

    /** Lines 87-137. A name that is taken keeps its index, and the answer is true all the same. */
    method AddIndex(name: string, kind: Wire.IndexType, params: IndexParams) returns (ok: bool)
      requires Valid()
      modifies this`indices, this`Repr
      ensures Valid() && fresh(Repr - old(Repr))
      ensures ok <==> (kind == Wire.HnswType && params.HnswParams?) || (kind == Wire.IvfFlatType && params.IvfParams?)
      ensures !ok || name in old(indices) ==> indices == old(indices)
      ensures ok && name !in old(indices) ==>
        && name in indices && indices == old(indices)[name := indices[name]]
        && fresh(indices[name].Object()) && Made(indices[name], params)
        && BornAs(params, Look(indices[name]), vectors, dimension, farthest)
    {
      ok := Wire.MakesIndex(kind, params.HnswParams?, params.IvfParams?);
      if !ok { return; }
      ghost var v, d, far := vectors, dimension, farthest;
      var x := NewIndex(params, s => InStep(s, v) && BornAs(params, s, v, d, far));
      if name !in indices {
        Emplace(name, x);
      }
    }

    /** `emplace`, for a name that is not taken. */
    method Emplace(name: string, x: AnyIndex)
      requires Valid() && name !in indices && x.Object() != this && InStep(Look(x), vectors)
      modifies this`indices, this`Repr
      ensures Valid() && Repr == old(Repr) + {x.Object()} && indices == old(indices)[name := x]
    {
      ghost var before := indices;
      indices := indices[name := x];
      Repr := Repr + {x.Object()};
      assert forall y :: y in indices.Values ==> y == x || y in before.Values;
    }

    /** An index of either kind, initialised from the stored vectors. */
    method NewIndex(params: IndexParams, ghost born: Sight -> bool) returns (x: AnyIndex)
      requires !params.NoParams? && forall id :: id in vectors ==> |vectors[id]| == dimension
      requires forall s {:trigger born(s)} ::
        InStep(s, vectors) && BornAs(params, s, vectors, dimension, farthest) ==> born(s)
      ensures fresh(x.Object()) && Made(x, params) && born(Look(x))
    {
      match params {
        case HnswParams(metric, m, efC, efS) =>
          x := NewHnsw(metric, m, efC, efS, vectors, dimension, farthest);
        case IvfParams(metric, k, nProbe, threshold) =>
          x := NewIvf(metric, k, nProbe, threshold, vectors, dimension, farthest);
      }
      assert InStep(Look(x), vectors) && BornAs(params, Look(x), vectors, dimension, farthest);
    }

    // ----- Searching -----

    /**
     Lines 150-165: through the named index, or by the exact scan if there is none of
     that name. `answer` is an id without a vector where the program throws.
    */
    method SearchForTopK(q: Vec, k: nat, indexName: string) returns (ok: bool, answer: Hnsw.Answer)
      requires Valid()
      modifies Repr
      ensures Valid()
      ensures forall x :: x in indices.Values ==> Endures(old(Look(x)), Look(x), vectors)
      ensures forall x :: x in indices.Values && (indexName in indices ==> x != indices[indexName]) ==>
        Look(x) == old(Look(x))
      ensures indexName !in indices ==>
        ok && answer == Hnsw.Hits(Space(vectors, euclidean, farthest).Exact(q, vectors.Keys, k))
      ensures indexName in indices ==>
        Outcome(indices[indexName], old(SearchesAll(indices[indexName], vectors, k)), old(Look(indices[indexName])),
                Look(indices[indexName]), vectors, farthest, q, k, ok, answer)
    {
      if indexName !in indices {
        var results := BruteForce.SearchForTopK(Space(vectors, euclidean, farthest), q, k);
        return true, Hnsw.Hits(results);
      }
      ghost var now, x := vectors, indices[indexName];
      ghost var all := SearchesAll(x, vectors, k);
      ok, answer := SearchIndex(indices[indexName], q, k, all, s => InStep(s, now), (s, s') => Endures(s, s', now),
        (s, s', ok, a) => Outcome(x, all, s, s', now, farthest, q, k, ok, a));
    }

    /** `ready` holds of the indices before, `done` of each before and after. */
    ghost predicate Lasts(ready: Sight -> bool, done: (Sight, Sight) -> bool, vectors: map<Id, Vec>) {
      && (forall s {:trigger InStep(s, vectors)} :: ready(s) ==> InStep(s, vectors))
      && (forall s, s' {:trigger Endures(s, s', vectors)} :: ready(s) && Endures(s, s', vectors) ==> done(s, s'))
      && (forall s {:trigger done(s, s)} :: ready(s) ==> done(s, s))
    }

    method SearchIndex(x: AnyIndex, q: Vec, k: nat, ghost all: bool, ghost ready: Sight -> bool,
                       ghost done: (Sight, Sight) -> bool, ghost outcome: (Sight, Sight, bool, Hnsw.Answer) -> bool)
      returns (ok: bool, answer: Hnsw.Answer)
      requires this !in Repr && x in indices.Values && forall id :: id in vectors ==> |vectors[id]| == dimension
      requires forall y :: y in indices.Values ==> y.Object() in Repr && ready(Look(y))
      requires Lasts(ready, done, vectors) && all == SearchesAll(x, vectors, k)
      requires forall s, s', ok, a {:trigger outcome(s, s', ok, a)} ::
        Outcome(x, all, s, s', vectors, farthest, q, k, ok, a) ==> outcome(s, s', ok, a)
      modifies Repr
      ensures forall y :: y in indices.Values ==> done(old(Look(y)), Look(y))
      ensures forall y :: y in indices.Values && y != x ==> Look(y) == old(Look(y))
      ensures outcome(old(Look(x)), Look(x), ok, answer)
    {
      ok, answer := SearchOne(x, q, k, all, ready, done, outcome);
      assert forall y :: y in indices.Values && y != x ==> Look(y) == old(Look(y)) && done(Look(y), Look(y));
    }

    method SearchOne(x: AnyIndex, q: Vec, k: nat, ghost all: bool, ghost ready: Sight -> bool,
                     ghost done: (Sight, Sight) -> bool, ghost outcome: (Sight, Sight, bool, Hnsw.Answer) -> bool)
      returns (ok: bool, answer: Hnsw.Answer)
      requires x.Object() != this && ready(Look(x)) && Lasts(ready, done, vectors) && all == SearchesAll(x, vectors, k)
      requires forall id :: id in vectors ==> |vectors[id]| == dimension
      requires forall s, s', ok, a {:trigger outcome(s, s', ok, a)} ::
        Outcome(x, all, s, s', vectors, farthest, q, k, ok, a) ==> outcome(s, s', ok, a)
      modifies x.Object()
      ensures done(old(Look(x)), Look(x))
      ensures outcome(old(Look(x)), Look(x), ok, answer)
    {
      assert InStep(Look(x), vectors);
      match x {
        case HnswIndex(i) =>
          answer := SearchHnsw(i, Space(vectors, i.metric, farthest), q, k);
          ok := true;
        case IvfIndex(i) =>
          var results;
          ok, results := i.SearchForTopK(vectors, q, k);
          SameExact(q, vectors, i.metric, farthest, k);
          answer := Hnsw.Hits(results);
      }
      assert Endures(old(Look(x)), Look(x), vectors);
      assert Outcome(x, all, old(Look(x)), Look(x), vectors, farthest, q, k, ok, answer);
    }
  }

  /** All that is said of a search through index `x`, which searches all of itself or not. */
  ghost predicate Outcome(x: AnyIndex, all: bool, s: Sight, s': Sight, vectors: map<Id, Vec>, farthest: real, q: Vec,
                          k: nat, ok: bool, answer: Hnsw.Answer)
  {
    var sp := Space(vectors, MetricOf(x), farthest);
    && Moved(x, s, s', vectors, farthest) && Answered(x, s', sp, q, k, answer)
    && FindsExact(s, all, sp, q, k, answer) && FindsItself(s, x, sp, q, k, answer) && Says(x, ok, answer)
  }

  /** An index that is in step stays in step, and exact. */
  ghost predicate Endures(s: Sight, s': Sight, vectors: map<Id, Vec>) {
    InStep(s, vectors) ==> InStep(s', vectors) && (Exactly(s, vectors) ==> Exactly(s', vectors))
  }

  /** What a search does to the index: an HNSW one builds in what is pending, and no more. */
  ghost predicate Moved(x: AnyIndex, s: Sight, s': Sight, vectors: map<Id, Vec>, farthest: real) {
    match s
    case OfHnsw(graph, p, m0, m, ef) =>
      && s'.OfHnsw? && s' == s.(graph := s'.graph, pending := Pending.Sets(vectors.Keys, {}, {}))
      && Hnsw.MoveOf(Space(vectors, MetricOf(x), farthest), m0, m, ef)(graph, p, s'.graph)
    case OfIvf(_, _, _, _, _, _) => s' == s
  }

  /** What a search answers from the index as it is then, whatever its size. */
  ghost predicate Answered(x: AnyIndex, s: Sight, sp: Space, q: Vec, k: nat, answer: Hnsw.Answer) {
    match s
    case OfHnsw(graph, _, _, _, _) => x.HnswIndex? && Hnsw.AnswerOf(sp, q, k, x.hnsw.efSearch)(graph, answer)
    case OfIvf(metric, clusters, _, _, _, _) =>
      x.IvfIndex? && answer == Hnsw.Hits(Answer(Space(sp.vectors, metric, 0.0), q, clusters, x.ivf.nProbe, k))
  }

  /** An exact index that searches all of itself answers like the exact scan. */
  ghost predicate FindsExact(s: Sight, all: bool, sp: Space, q: Vec, k: nat, answer: Hnsw.Answer) {
    Exactly(s, sp.vectors) && all ==> answer == Hnsw.Hits(sp.Exact(q, sp.vectors.Keys, k))
  }

  /**
   After converged builds, an IVF index finds any stored vector: nothing comes before it, and
   Euclidean scores start at zero.
  */
  ghost predicate FindsItself(s: Sight, x: AnyIndex, sp: Space, q: Vec, k: nat, answer: Hnsw.Answer) {
    x.IvfIndex? && s.OfIvf? && s.converged && s.k > 0 && x.ivf.nProbe >= 1 && k >= 1 ==>
      forall id :: id in sp.vectors && sp.vectors[id] == q ==>
        && answer.Hits? && answer.hits != [] && answer.hits[0].dist <= sp.metric(q, q)
        && (IsEuclidean(sp.metric) ==> answer.hits[0].dist == 0.0)
  }

  /** An HNSW index always answers true, an IVF one if there are hits. */
  ghost predicate Says(x: AnyIndex, ok: bool, answer: Hnsw.Answer) {
    answer.Hits? ==> ok == (x.HnswIndex? || answer.hits != [])
  }

  method NewHnsw(metric: Metric, m: U32, efC: U32, efS: U32, vectors: map<Id, Vec>, dimension: nat, farthest: real)
    returns (x: AnyIndex)
    ensures fresh(x.Object()) && Made(x, HnswParams(metric, m, efC, efS)) && InStep(Look(x), vectors)
    ensures BornAs(HnswParams(metric, m, efC, efS), Look(x), vectors, dimension, farthest)
  {
    var i := new Hnsw.Index(metric, m, efC, efS);
    StartHnsw(i, Space(vectors, metric, farthest));
    x := HnswIndex(i);
  }

  method NewIvf(metric: Metric, k: U32, nProbe: U32, threshold: U64, vectors: map<Id, Vec>, dimension: nat,
                farthest: real)
    returns (x: AnyIndex)
    requires forall id :: id in vectors ==> |vectors[id]| == dimension
    ensures fresh(x.Object()) && Made(x, IvfParams(metric, k, nProbe, threshold)) && InStep(Look(x), vectors)
    ensures BornAs(IvfParams(metric, k, nProbe, threshold), Look(x), vectors, dimension, farthest)
  {
    var i := new Ivf.Index(metric, k, nProbe, threshold);
    StartIvf(i, vectors, dimension);
    x := IvfIndex(i);
  }

  method StartIvf(i: Ivf.Index, vectors: map<Id, Vec>, dimension: nat)
    requires forall id :: id in vectors ==> |vectors[id]| == dimension
    modifies i
    ensures i.vectorsSinceRebuild == 0 && i.Good(vectors) && (i.k > 0 ==> i.ListsOnce(vectors))
    ensures IvfLists.BuildsOf(i.metric, vectors, i.k, dimension)(i.clusters, i.converged)
  {
    i.Build(vectors, dimension);
  }

  method StartHnsw(i: Hnsw.Index, sp: Space)
    modifies i
    ensures WellFormed(i.Graph()) && i.View() == Pending.Sets(sp.vectors.Keys, {}, {})
    ensures Hnsw.InitOf(sp, i.M0(), i.M, i.efConstruction)(i.Graph())
    ensures 0 !in sp.vectors.Keys && |sp.vectors.Keys| <= i.M0() + 1 ==> i.Grown(Small)
  {
    ghost var stages := i.Init(sp);
    if 0 !in sp.vectors.Keys && |sp.vectors.Keys| <= i.M0() + 1 {
      assert Fits(Small, |sp.vectors.Keys|, i.M0(), i.M, i.efConstruction);
    }
  }

  method SearchHnsw(i: Hnsw.Index, sp: Space, q: Vec, k: nat) returns (answer: Hnsw.Answer)
    requires InStep(Look(HnswIndex(i)), sp.vectors)
    modifies i
    ensures Endures(old(Look(HnswIndex(i))), Look(HnswIndex(i)), sp.vectors)
    ensures FindsExact(old(Look(HnswIndex(i))), Max(k, i.efSearch) >= |sp.vectors|, sp, q, k, answer)
    ensures i.View() == Pending.Sets(sp.vectors.Keys, {}, {})
    ensures Hnsw.MoveOf(sp, i.M0(), i.M, i.efConstruction)(old(i.Graph()), old(i.View()), i.Graph())
    ensures Hnsw.AnswerOf(sp, q, k, i.efSearch)(i.Graph(), answer)
  {
    BuiltCatchesUp(i.View(), sp.vectors.Keys);
    ghost var was, small, tiny, refills := Look(HnswIndex(i)), i.Grown(Small), i.Grown(Tiny), i.Refills();
    ghost var ep, found, visited;
    answer, ep, found, visited := i.SearchKnn(sp, q, k);
    assert (small ==> i.Grown(Small)) && (tiny ==> i.Grown(Tiny)) && (refills ==> i.Refills());
    assert Exactly(was, sp.vectors) ==> small || tiny || refills;
  }

  /** Where every id has a vector, `farthest` plays no part. */
  lemma SameExact(q: Vec, vectors: map<Id, Vec>, metric: Metric, farthest: real, k: nat)
    ensures Space(vectors, metric, 0.0).Exact(q, vectors.Keys, k) ==
      Space(vectors, metric, farthest).Exact(q, vectors.Keys, k)
  {
    var a, b := Space(vectors, metric, 0.0), Space(vectors, metric, farthest);
    assert forall id :: id in vectors.Keys ==> a.Score(q, id) == b.Score(q, id);
    assert a.Scores(q, vectors.Keys) == b.Scores(q, vectors.Keys);
  }

  ghost predicate Made(x: AnyIndex, params: IndexParams) {
    match params
    case HnswParams(metric, m, efC, efS) =>
      x.HnswIndex? && x.hnsw.metric == metric && x.hnsw.M == m && x.hnsw.efConstruction == efC && x.hnsw.efSearch == efS
    case IvfParams(metric, k, nProbe, threshold) =>
      && x.IvfIndex? && x.ivf.metric == metric
      && x.ivf.k == k && x.ivf.nProbe == nProbe && x.ivf.rebuildThreshold == threshold
    case NoParams => false
  }

  /** A new index is built over the stored vectors, and exact where they are few. */
  ghost predicate BornAs(params: IndexParams, s: Sight, vectors: map<Id, Vec>, dimension: nat, farthest: real) {
    && (StartsExact(params, vectors.Keys) ==> Exactly(s, vectors))
    && match params
       case HnswParams(metric, m, efC, _) =>
         && s.OfHnsw? && s.pending == Pending.Sets(vectors.Keys, {}, {})
         && Hnsw.InitOf(Space(vectors, metric, farthest), 2 * m % 0x1_0000_0000, m, efC)(s.graph)
       case IvfParams(metric, k, _, _) =>
         s.OfIvf? && s.changes == 0 && IvfLists.BuildsOf(metric, vectors, k, dimension)(s.clusters, s.converged)
       case NoParams => false
  }

  /** The collections that a new index answers exactly. */
  ghost predicate StartsExact(params: IndexParams, keys: set<Id>) {
    match params
    case HnswParams(_, m, _, _) => 0 !in keys && |keys| <= 2 * m % 0x1_0000_0000 + 1
    case IvfParams(_, k, _, _) => k > 0
    case NoParams => false
  }

  lemma AddingHappened(vectors: map<Id, Vec>, batch: seq<(Id, Vec)>, dimension: nat)
    requires forall id :: id in vectors ==> |vectors[id]| == dimension
    requires forall i :: 0 <= i < |batch| ==> |batch[i].1| == dimension
    ensures Happened(Added(BatchIds(batch)), vectors, Upserted(vectors, batch), dimension)
  {
    UpsertedFacts(vectors, batch);
    var after := Upserted(vectors, batch);
    forall id | id in after ensures |after[id]| == dimension {
      if id in BatchIds(batch) {
        var i :| 0 <= i < |batch| && batch[i] == (id, after[id]);
      }
    }
  }

  lemma NoneErased(vectors: map<Id, Vec>, removed: seq<Id>)
    requires removed == []
    ensures vectors - Elements(removed) == vectors
  {
  }

  lemma RemovingHappened(vectors: map<Id, Vec>, ids: seq<Id>, dimension: nat)
    requires forall id :: id in vectors ==> |vectors[id]| == dimension
    ensures var removed := Present(vectors.Keys, ids);
      Happened(Removed(removed), vectors, vectors - Elements(removed), dimension)
  {
    PresentFacts(vectors.Keys, ids);
  }

  method TellHnsw(i: Hnsw.Index, update: Update, ghost before: map<Id, Vec>, ghost after: map<Id, Vec>,
                  ghost dimension: nat)
    requires Happened(update, before, after, dimension) && InStep(Look(HnswIndex(i)), before)
    modifies i
    ensures Follows(old(Look(HnswIndex(i))), Look(HnswIndex(i)), update, before, after, dimension)
  {
    match update {
      case Added(ids) => HnswAdded(i, ids, before.Keys, after.Keys);
      case Removed(ids) => HnswRemoved(i, ids, before.Keys, after.Keys);
    }
  }

  method TellIvf(i: Ivf.Index, update: Update, ghost before: map<Id, Vec>, vectors: map<Id, Vec>, dimension: nat)
    requires Happened(update, before, vectors, dimension) && InStep(Look(IvfIndex(i)), before)
    requires update.Removed? ==> update.ids != []
    modifies i
    ensures Follows(old(Look(IvfIndex(i))), Look(IvfIndex(i)), update, before, vectors, dimension)
  {
    match update {
      case Added(ids) => IvfAdded(i, ids, before, vectors, dimension);
      case Removed(ids) => IvfRemoved(i, ids, before, vectors, dimension);
    }
  }

  method IvfAdded(i: Ivf.Index, ids: seq<Id>, ghost before: map<Id, Vec>, vectors: map<Id, Vec>, dimension: nat)
    requires Happened(Added(ids), before, vectors, dimension) && InStep(Look(IvfIndex(i)), before)
    modifies i
    ensures Follows(old(Look(IvfIndex(i))), Look(IvfIndex(i)), Added(ids), before, vectors, dimension)
  {
    ghost var s := Look(IvfIndex(i));
    AddedOutside(i.metric, before, vectors, i.clusters, ids);
    TellAdded(i, ids, vectors, dimension);
    IvfAddedFollows(s, Look(IvfIndex(i)), ids, before, vectors, dimension);
  }

  method TellAdded(i: Ivf.Index, ids: seq<Id>, vectors: map<Id, Vec>, dimension: nat)
    requires forall id :: id in vectors ==> |vectors[id]| == dimension
    modifies i
    ensures Told(old(Look(IvfIndex(i))), Look(IvfIndex(i)), Added(ids), vectors, dimension)
    ensures old(i.GoodBut(vectors, ids)) ==> i.Good(vectors)
    ensures var before := vectors.Keys - Elements(ids);
      (vectors.Keys == IvfLists.With(before, ids) && old(i.k > 0 && Listed(i.clusters) == multiset(before))
       && IvfLists.FreshBatch(ids, before)) ==> i.ListsOnce(vectors)
  {
    i.OnVectorsAdded(vectors, ids, dimension);
  }

  lemma IvfAddedFollows(s: Sight, s': Sight, ids: seq<Id>, before: map<Id, Vec>, after: map<Id, Vec>, dimension: nat)
    requires s.OfIvf? && Told(s, s', Added(ids), after, dimension) && InStep(s', after)
    requires Exactly(s, before) && IvfLists.FreshBatch(ids, before.Keys) ==> Exactly(s', after)
    ensures Follows(s, s', Added(ids), before, after, dimension)
  {
  }

  /** Without ids to remove the hook is not called. */
  method IvfRemoved(i: Ivf.Index, ids: seq<Id>, ghost before: map<Id, Vec>, vectors: map<Id, Vec>, dimension: nat)
    requires ids != [] && Happened(Removed(ids), before, vectors, dimension) && InStep(Look(IvfIndex(i)), before)
    modifies i
    ensures Follows(old(Look(IvfIndex(i))), Look(IvfIndex(i)), Removed(ids), before, vectors, dimension)
  {
    ghost var s := Look(IvfIndex(i));
    RemovedOutside(before, vectors, ids);
    TellRemoved(i, ids, vectors, dimension);
    IvfRemovedFollows(s, Look(IvfIndex(i)), ids, before, vectors, dimension);
  }

  method TellRemoved(i: Ivf.Index, ids: seq<Id>, vectors: map<Id, Vec>, dimension: nat)
    requires ids != [] && forall id :: id in vectors ==> |vectors[id]| == dimension
    modifies i
    ensures Told(old(Look(IvfIndex(i))), Look(IvfIndex(i)), Removed(ids), vectors, dimension)
    ensures Elements(ids) !! vectors.Keys && old(i.Good(vectors)) ==> i.Good(vectors)
    ensures (Elements(ids) !! vectors.Keys && Distinct(ids)
      && old(i.k > 0 && Listed(i.clusters) == multiset(vectors.Keys + Elements(ids)))) ==> i.ListsOnce(vectors)
  {
    i.OnVectorsRemoved(vectors, ids, dimension);
  }

  lemma IvfRemovedFollows(s: Sight, s': Sight, ids: seq<Id>, before: map<Id, Vec>, after: map<Id, Vec>, dimension: nat)
    requires s.OfIvf? && Told(s, s', Removed(ids), after, dimension) && InStep(s', after)
    requires Exactly(s, before) ==> Exactly(s', after)
    ensures Follows(s, s', Removed(ids), before, after, dimension)
  {
  }

  /** What covered the vectors before an add covers them after it, but for the ids added. */
  lemma AddedOutside(metric: Metric, before: map<Id, Vec>, after: map<Id, Vec>, clusters: seq<Cluster>, ids: seq<Id>)
    requires after.Keys == IvfLists.With(before.Keys, ids)
    requires forall id :: id in after && id !in ids ==> id in before && after[id] == before[id]
    ensures Covers(metric, before, clusters) ==> IvfLists.CoversOutside(metric, after, clusters, ids)
    ensures IvfLists.FreshBatch(ids, before.Keys) ==> before.Keys == after.Keys - Elements(ids)
  {
  }

  lemma RemovedOutside(before: map<Id, Vec>, after: map<Id, Vec>, ids: seq<Id>)
    requires IvfLists.Erased(before, after, ids)
    ensures Elements(ids) !! after.Keys && before.Keys == after.Keys + Elements(ids)
    ensures forall id :: id in after ==> id in before && after[id] == before[id]
  {
  }

  method HnswAdded(i: Hnsw.Index, ids: seq<Id>, ghost before: set<Id>, ghost after: set<Id>)
    requires WellFormed(i.Graph()) && CaughtUp(i.View(), before)
    requires after == IvfLists.With(before, ids)
    modifies i
    ensures i.Graph() == old(i.Graph()) && i.View() == Pending.Added(old(i.View()), ids) && CaughtUp(i.View(), after)
    ensures (old(Grows(i.Graph(), i.View(), i.M0(), i.M, i.efConstruction)) && 0 !in ids
             && MayPend(i.Graph(), i.View(), |after|, i.M0(), i.M, i.efConstruction)) ==>
      Grows(i.Graph(), i.View(), i.M0(), i.M, i.efConstruction)
  {
    ghost var p := i.View();
    i.OnVectorsAdded(ids);
    AddedCatchesUp(p, before, ids);
    Pending.AddedFacts(p, ids);
    StillGrows(i.Graph(), p, i.View(), after, i.M0(), i.M, i.efConstruction);
  }

  method HnswRemoved(i: Hnsw.Index, ids: seq<Id>, ghost before: set<Id>, ghost after: set<Id>)
    requires WellFormed(i.Graph()) && CaughtUp(i.View(), before)
    requires after == before - Elements(ids)
    requires forall x :: x in ids ==> x in before
    modifies i
    ensures i.Graph() == old(i.Graph()) && i.View() == Pending.Removed(old(i.View()), ids) && CaughtUp(i.View(), after)
    ensures (old(Grows(i.Graph(), i.View(), i.M0(), i.M, i.efConstruction))
             && MayPend(i.Graph(), i.View(), |after|, i.M0(), i.M, i.efConstruction)) ==>
      Grows(i.Graph(), i.View(), i.M0(), i.M, i.efConstruction)
  {
    ghost var p := i.View();
    i.OnVectorsRemoved(ids);
    RemovedCatchesUp(p, before, ids);
    Pending.RemovedFacts(p, ids);
    StillGrows(i.Graph(), p, i.View(), after, i.M0(), i.M, i.efConstruction);
  }

  lemma StillGrows(graph: State, p: Pending.Sets, p': Pending.Sets, keys: set<Id>, m0: nat, m: nat, ef: nat)
    requires graph.inserted == p'.inserted && CaughtUp(p', keys) && p.toBeRemoved <= p'.toBeRemoved
    ensures Grows(graph, p, m0, m, ef) && 0 !in p'.toBeInserted && MayPend(graph, p', |keys|, m0, m, ef) ==>
      Grows(graph, p', m0, m, ef)
  {
    assert p'.inserted - p'.toBeRemoved + p'.toBeInserted == keys;
    if Grows(graph, p, m0, m, ef) && 0 !in p'.toBeInserted {
      if p'.toBeRemoved == {} {
        StaysSmall(graph, p, p', keys, m0, m, ef);
      } else {
        MayLose(graph, p', keys, m0, m, ef);
      }
    }
  }

  /** With nothing to remove, any graph that answers exactly may grow as a small one does. */
  lemma StaysSmall(graph: State, p: Pending.Sets, p': Pending.Sets, keys: set<Id>, m0: nat, m: nat, ef: nat)
    requires Grows(graph, p, m0, m, ef) && p.toBeRemoved == p'.toBeRemoved == {} && 0 !in p'.toBeInserted
    requires graph.inserted == p'.inserted && CaughtUp(p', keys)
    ensures Fits(Small, |keys|, m0, m, ef) && IsGraph(graph, m0, m) ==> Grows(graph, p', m0, m, ef)
    ensures |keys| <= m0 ==> Grows(graph, p', m0, m, ef)
  {
    assert graph.inserted - {} == graph.inserted && graph.inserted + {} == graph.inserted;
    assert p'.inserted + p'.toBeInserted == keys;
    SubsetSize(graph.inserted, keys);
    if IsGraph(graph, m0, m) {
      assert BaseConnected(graph);
      if Fits(Small, |keys|, m0, m, ef) { assert Deserves(Small, graph, p'.toBeInserted, {}, m0, m, ef); }
    } else {
      assert Usable(graph);
    }
  }

  lemma MayLose(graph: State, p': Pending.Sets, keys: set<Id>, m0: nat, m: nat, ef: nat)
    requires p'.toBeRemoved != {} && 0 !in p'.toBeInserted
    requires graph.inserted == p'.inserted && CaughtUp(p', keys)
    ensures MayPend(graph, p', |keys|, m0, m, ef) ==> Grows(graph, p', m0, m, ef)
  {
    assert p'.inserted - p'.toBeRemoved + p'.toBeInserted == keys;
  }
}
