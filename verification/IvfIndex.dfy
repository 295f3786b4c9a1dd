/** The index class of `indices/ivfflat.cpp` and `indices/ivfflat.h`. */
module Ivf {
  import opened Ranking
  import opened Iteration
  import opened Vectors
  import opened Spaces
  import opened Inertia
  import opened KMeansSteps
  import opened Descent
  import KMeans
  import opened IvfSearch
  import opened IvfLists
  import opened Batches

  class Index {
    const metric: Metric
    const k: nat
    const nProbe: nat
    const rebuildThreshold: nat

    var clusters: seq<Cluster>
    var vectorsSinceRebuild: nat
    /** Whether the k-means run of the last build stopped by itself. */
    ghost var converged: bool

    /** A converged build and incremental updates since: every stored id sits with its nearest centroid. */
    ghost predicate Good(vectors: map<Id, Vec>)
      reads this
    {
      converged && k > 0 ==> Covers(metric, vectors, clusters)
    }

    /** Each stored id is listed exactly once, and nothing else is. */
    ghost predicate ListsOnce(vectors: map<Id, Vec>)
      reads this
    {
      Listed(clusters) == multiset(vectors.Keys)
    }

    constructor (metric: Metric, k: nat, nProbe: nat, rebuildThreshold: nat)
      ensures this.metric == metric && this.k == k && this.nProbe == nProbe
      ensures this.rebuildThreshold == rebuildThreshold
      ensures clusters == [] && vectorsSinceRebuild == 0
    {
      this.metric, this.k, this.nProbe, this.rebuildThreshold := metric, k, nProbe, rebuildThreshold;
      clusters, vectorsSinceRebuild, converged := [], 0, true;
    }

    /** Lines 33-47: ids and vectors in the order of the hash set, whatever it is. */
    method Gather(vectors: map<Id, Vec>) returns (ids: seq<Id>, xs: seq<Vec>)
      ensures Gathered(vectors, ids, xs)
    {
      ids, xs := [], [];
      var rest := vectors.Keys;
      NoneDone(rest);
      while rest != {}
        invariant rest <= vectors.Keys
        invariant multiset(ids) == multiset(vectors.Keys - rest) && |xs| == |ids|
        invariant forall i :: 0 <= i < |ids| ==> ids[i] in vectors && xs[i] == vectors[ids[i]]
      {
        var id :| id in rest;
        NextDone(vectors.Keys, rest, id);
        assert multiset(vectors.Keys - rest + {id}) == multiset(vectors.Keys - rest) + multiset{id};
        ids, xs, rest := ids + [id], xs + [vectors[id]], rest - {id};
      }
      NoneDone(vectors.Keys);
      assert |ids| == |multiset(ids)| == |vectors.Keys|;
    }

    /** Lines 54-64. */
    method MakeClusters(result: seq<Centroid>, ids: seq<Id>, ghost a: seq<nat>) returns (made: seq<Cluster>)
      requires |a| == |ids| && KMeans.IsPartition(result, a, |ids|)
      ensures |made| == |result| && Centroids(made) == Centers(result)
      ensures ListsBy(made, ids, a, |ids|)
    {
      made := [];
      for j := 0 to |result|
        invariant |made| == j
        invariant forall i :: 0 <= i < j ==>
          Below(result[i].ids, |ids|) && made[i] == Cluster(result[i].center, IdsAt(ids, result[i].ids))
      {
        MembersMean(a, j, |ids|);
        made := made + [Cluster(result[j].center, IdsAt(ids, result[j].ids))];
      }
    }

    /** Lines 23-65. */
    method Build(vectors: map<Id, Vec>, dim: nat)
      requires forall id :: id in vectors ==> |vectors[id]| == dim
      modifies this
      ensures BuiltBy(metric, vectors, k, dim, clusters, converged)
      ensures |clusters| == Min(k, |vectors|) && vectorsSinceRebuild == 0
      ensures k > 0 ==> ListsOnce(vectors)
      ensures Good(vectors)
      ensures IsEuclidean(metric) && (|vectors| <= k || Pow(Min(k, |vectors|), |vectors|) < 100) ==> converged
    {
      clusters, vectorsSinceRebuild, converged := [], 0, true;
      if vectors.Keys == {} {
        NothingBuilt(metric, vectors, k, dim);
      } else {
        clusters, converged := Clustered(vectors, dim);
      }
      BuiltFacts(metric, vectors, k, dim, clusters, converged);
    }

    /** Lines 33-64. */
    method Clustered(vectors: map<Id, Vec>, dim: nat) returns (made: seq<Cluster>, ghost stable: bool)
      requires vectors.Keys != {} && forall id :: id in vectors ==> |vectors[id]| == dim
      ensures BuiltBy(metric, vectors, k, dim, made, stable)
      ensures IsEuclidean(metric) && (|vectors| <= k || Pow(Min(k, |vectors|), |vectors|) < 100) ==> stable
    {
      var ids, xs := Gather(vectors);
      assert |xs| == |vectors.Keys| > 0;
      var result;
      ghost var a, history, costs, rounds;
      result, a, stable, history, costs, rounds := KMeans.Run(metric, xs, k, 100, dim);
      if result == [] {
        NothingBuilt(metric, vectors, k, dim);
        return [], true;
      }
      made := MakeClusters(result, ids, a);
      assert |made| == |result| == Min(k, |vectors|);
      assert FromRun(metric, dim, made, stable, ids, xs, result, a, rounds);
    }

    /** Lines 178-195. */
    method AddVectorsIncremental(vectors: map<Id, Vec>, newIds: seq<Id>)
      requires clusters != []
      modifies `clusters
      ensures clusters == Appended(metric, vectors, old(clusters), newIds)
    {
      for t := 0 to |newIds|
        invariant clusters != [] && clusters == Appended(metric, vectors, old(clusters), newIds[..t])
      {
        assert newIds[..t + 1][..t] == newIds[..t];
        AddOne(vectors, newIds[t]);
      }
      assert newIds[..|newIds|] == newIds;
    }

    /** Lines 188-193. */
    method AddOne(vectors: map<Id, Vec>, id: Id)
      requires clusters != []
      modifies `clusters
      ensures clusters == AppendedOne(metric, vectors, old(clusters), id)
    {
      if id in vectors {
        var c := FindNearestCluster(vectors[id]);
        clusters := WithIds(clusters, c, clusters[c].ids + [id]);
      }
    }

    /** Lines 159-176; with no clusters the answer is 0. */
    method FindNearestCluster(v: Vec) returns (c: nat)
      ensures clusters == [] ==> c == 0
      ensures clusters != [] ==> c == Nearest(metric, v, Centroids(clusters))
    {
      var best := FindNearest(metric, v, Centroids(clusters));
      c := if best == -1 then 0 else best;
    }

    /** What is stored besides `ids` is covered, if the builds so far have converged. */
    ghost predicate GoodBut(vectors: map<Id, Vec>, ids: seq<Id>)
      reads this
    {
      converged && k > 0 ==> CoversOutside(metric, vectors, clusters, ids)
    }

    /** Lines 122-139. */
    method OnVectorsAdded(vectors: map<Id, Vec>, newIds: seq<Id>, dim: nat)
      requires forall id :: id in vectors ==> |vectors[id]| == dim
      modifies this
      ensures var changes := (old(vectorsSinceRebuild) + |newIds|) % 0x1_0000_0000_0000_0000;
        && (if old(clusters) != [] && changes < rebuildThreshold
            then vectorsSinceRebuild == changes && clusters == Appended(metric, vectors, old(clusters), newIds)
            else vectorsSinceRebuild == 0 && BuildsOf(metric, vectors, k, dim)(clusters, converged))
        && AddedOrBuilt(changes, rebuildThreshold, vectorsSinceRebuild, metric, vectors, k, dim, old(clusters),
                        clusters, old(converged), converged, newIds)
      ensures old(GoodBut(vectors, newIds)) ==> Good(vectors)
      ensures (vectors.Keys == With(vectors.Keys - Elements(newIds), newIds)
        && old(k > 0 && Listed(clusters) == multiset(vectors.Keys - Elements(newIds)))
        && FreshBatch(newIds, vectors.Keys - Elements(newIds))) ==> ListsOnce(vectors)
    {
      if clusters == [] {
        Build(vectors, dim);
        return;
      }
      vectorsSinceRebuild := Counted(|newIds|);
      if vectorsSinceRebuild >= rebuildThreshold {
        Build(vectors, dim);
      } else {
        AddVectorsIncremental(vectors, newIds);
        AppendingKeeps(metric, vectors, old(clusters), newIds);
      }
    }

    /** The rebuild counter after `n` more changes; a `size_t` of 64 bits. */
    function Counted(n: nat): nat
      reads `vectorsSinceRebuild
    {
      (vectorsSinceRebuild + n) % 0x1_0000_0000_0000_0000
    }

    /** Lines 141-157; the ids are those that `remove_vectors` found and erased. */
    method OnVectorsRemoved(vectors: map<Id, Vec>, removedIds: seq<Id>, dim: nat)
      requires forall id :: id in vectors ==> |vectors[id]| == dim
      modifies this
      ensures old(clusters) == [] ==>
        clusters == [] && vectorsSinceRebuild == old(vectorsSinceRebuild) && converged == old(converged)
      ensures old(clusters) != [] ==>
        && var changes := (old(vectorsSinceRebuild) + |removedIds|) % 0x1_0000_0000_0000_0000;
        && (if changes < rebuildThreshold
            then vectorsSinceRebuild == changes && clusters == ErasedIn(old(clusters), removedIds)
            else vectorsSinceRebuild == 0 && BuildsOf(metric, vectors, k, dim)(clusters, converged))
        && ErasedOrBuilt(changes, rebuildThreshold, vectorsSinceRebuild, metric, vectors, k, dim, old(clusters),
                         clusters, old(converged), converged, removedIds)
      ensures Elements(removedIds) !! vectors.Keys && old(Good(vectors)) ==> Good(vectors)
      ensures (Elements(removedIds) !! vectors.Keys && Distinct(removedIds)
        && old(k > 0 && Listed(clusters) == multiset(vectors.Keys + Elements(removedIds)))) ==> ListsOnce(vectors)
    {
      if clusters == [] {
        NothingToErase(vectors.Keys, removedIds);
        return;
      }
      vectorsSinceRebuild := Counted(|removedIds|);
      if vectorsSinceRebuild >= rebuildThreshold {
        Build(vectors, dim);
      } else {
        RemoveVectorsIncremental(removedIds);
        if Elements(removedIds) !! vectors.Keys { ErasingKeeps(metric, vectors, old(clusters), removedIds); }
      }
    }

    /** Lines 197-213. */
    method RemoveVectorsIncremental(removedIds: seq<Id>)
      modifies `clusters
      ensures clusters == ErasedIn(old(clusters), removedIds)
    {
      for t := 0 to |removedIds|
        invariant clusters == ErasedIn(old(clusters), removedIds[..t])
      {
        assert removedIds[..t + 1][..t] == removedIds[..t];
        RemoveOne(removedIds[t]);
      }
      assert removedIds[..|removedIds|] == removedIds;
    }

    /** Lines 203-211. */
    method RemoveOne(id: Id)
      modifies `clusters
      ensures clusters == ErasedOne(old(clusters), id)
    {
      var c := 0;
      while c < |clusters|
        invariant clusters == old(clusters) && c <= |clusters|
        invariant forall i :: 0 <= i < c ==> id !in clusters[i].ids
      {
        if id in clusters[c].ids {
          clusters := WithIds(clusters, c, EraseFirst(clusters[c].ids, id));
          return;
        }
        c := c + 1;
      }
    }

    /** Lines 67-120. */
    method SearchForTopK(vectors: map<Id, Vec>, q: Vec, topK: nat) returns (ok: bool, results: seq<Cand>)
      ensures results == Answer(Space(vectors, metric, 0.0), q, clusters, nProbe, topK) && ok == (results != [])
      ensures nProbe >= |clusters| && OnceEach(clusters, vectors.Keys) ==>
        results == Space(vectors, metric, 0.0).Exact(q, vectors.Keys, topK)
      ensures Covers(metric, vectors, clusters) && nProbe >= 1 && topK >= 1 ==>
        forall id :: id in vectors && vectors[id] == q ==> ok && results[0].dist <= metric(q, q)
      ensures (Covers(metric, vectors, clusters) && nProbe >= 1 && topK >= 1
        && IsEuclidean(metric) && forall i :: i in vectors ==> |vectors[i]| == |q|) ==>
          forall id :: id in vectors && vectors[id] == q ==> ok && results[0].dist == 0.0
    {
      var sp := Space(vectors, metric, 0.0);
      ok, results := Search(sp, q, clusters, nProbe, topK);
      if nProbe >= |clusters| {
        FullProbeIsExactIff(sp, q, clusters, nProbe);
      }
      forall id | Covers(metric, vectors, clusters) && nProbe >= 1 && topK >= 1 && id in vectors && vectors[id] == q
        ensures ok && results[0].dist <= metric(q, q)
        ensures (IsEuclidean(metric) && forall i :: i in vectors ==> |vectors[i]| == |q|) ==> results[0].dist == 0.0
      {
        SelfRecall(sp, id, clusters, nProbe, topK);
        if IsEuclidean(metric) && forall i :: i in vectors ==> |vectors[i]| == |q| {
          EuclideanSelfRecall(sp, id, clusters, nProbe, topK, |q|);
        }
      }
    }
  }
}
