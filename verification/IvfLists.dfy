/** The id lists of the IVF clusters as values: what builds, additions and removals do to them. */
module IvfLists {
  import opened Ranking
  import opened Batches
  import opened Vectors
  import opened Spaces
  import opened Inertia
  import opened KMeansSteps
  import KMeans
  import opened IvfSearch

  // ----- Changing one cluster's list -----

  function WithIds(clusters: seq<Cluster>, c: nat, ids: seq<Id>): seq<Cluster>
    requires c < |clusters|
  {
    clusters[c := Cluster(clusters[c].centroid, ids)]
  }

  lemma LastListed(clusters: seq<Cluster>, n: nat, x: Id)
    requires 0 < n <= |clusters|
    ensures ListedUpTo(clusters, n)[x] == ListedUpTo(clusters, n - 1)[x] + multiset(clusters[n - 1].ids)[x]
  {
  }

  lemma {:induction false} SameListed(before: seq<Cluster>, after: seq<Cluster>, n: nat)
    requires |after| == |before| && n <= |before|
    requires forall i :: 0 <= i < n ==> after[i] == before[i]
    ensures ListedUpTo(after, n) == ListedUpTo(before, n)
    decreases n
  {
    if n > 0 { SameListed(before, after, n - 1); }
  }

  /** Two cluster lists that differ at position `c` only differ in what `c` lists. */
  lemma {:induction false} ListedDiffer(before: seq<Cluster>, after: seq<Cluster>, c: nat, n: nat, x: Id)
    requires |after| == |before| && c < n <= |before|
    requires forall i :: 0 <= i < |before| && i != c ==> after[i] == before[i]
    ensures
      ListedUpTo(after, n)[x] + multiset(before[c].ids)[x] == ListedUpTo(before, n)[x] + multiset(after[c].ids)[x]
    decreases n
  {
    LastListed(before, n, x);
    LastListed(after, n, x);
    if n - 1 == c {
      SameListed(before, after, c);
    } else {
      ListedDiffer(before, after, c, n - 1, x);
    }
  }

  lemma AppendListed(clusters: seq<Cluster>, c: nat, id: Id)
    requires c < |clusters|
    ensures var after := WithIds(clusters, c, clusters[c].ids + [id]);
      Listed(after) == Listed(clusters) + multiset{id} && Centroids(after) == Centroids(clusters)
  {
    var after := WithIds(clusters, c, clusters[c].ids + [id]);
    forall x ensures Listed(after)[x] == (Listed(clusters) + multiset{id})[x] {
      ListedDiffer(clusters, after, c, |clusters|, x);
    }
  }

  /** `erase( find( .. ) )`: the first occurrence goes. */
  function EraseFirst(ids: seq<Id>, id: Id): (r: seq<Id>)
    ensures multiset(r) == multiset(ids) - multiset{id}
  {
    if ids == [] then []
    else
      assert ids == [ids[0]] + ids[1..];
      if ids[0] == id then ids[1..] else [ids[0]] + EraseFirst(ids[1..], id)
  }

  lemma EraseListed(clusters: seq<Cluster>, c: nat, id: Id)
    requires c < |clusters| && id in clusters[c].ids
    ensures var after := WithIds(clusters, c, EraseFirst(clusters[c].ids, id));
      Listed(after) == Listed(clusters) - multiset{id} && Centroids(after) == Centroids(clusters)
  {
    var after := WithIds(clusters, c, EraseFirst(clusters[c].ids, id));
    ListedHere(clusters, c, |clusters|);
    forall x ensures Listed(after)[x] == (Listed(clusters) - multiset{id})[x] {
      ListedDiffer(clusters, after, c, |clusters|, x);
    }
  }

  lemma {:induction false} ListedHere(clusters: seq<Cluster>, c: nat, n: nat)
    requires c < n <= |clusters|
    ensures multiset(clusters[c].ids) <= ListedUpTo(clusters, n)
    decreases n
  {
    if c < n - 1 { ListedHere(clusters, c, n - 1); }
  }

  lemma {:induction false} NotListed(clusters: seq<Cluster>, id: Id, n: nat)
    requires n <= |clusters| && forall c :: 0 <= c < n ==> id !in clusters[c].ids
    ensures id !in ListedUpTo(clusters, n)
    decreases n
  {
    if n > 0 { NotListed(clusters, id, n - 1); }
  }

  // ----- What a build lists -----

  ghost predicate Below(positions: seq<nat>, n: nat) {
    forall p :: 0 <= p < |positions| ==> positions[p] < n
  }

  function IdsAt(ids: seq<Id>, positions: seq<nat>): seq<Id>
    requires Below(positions, |ids|)
  {
    seq(|positions|, p requires 0 <= p < |positions| => ids[positions[p]])
  }

  /** The clusters of a build list `ids` by the assignment `a`. */
  ghost predicate ListsBy(clusters: seq<Cluster>, ids: seq<Id>, a: seq<nat>, n: nat)
    requires n <= |a| == |ids|
  {
    forall j :: 0 <= j < |clusters| ==>
      Below(Members(a, j, n), |ids|) && clusters[j].ids == IdsAt(ids, Members(a, j, n))
  }

  ghost function MembersListed(ids: seq<Id>, a: seq<nat>, n: nat, k: nat): multiset<Id>
    requires n <= |a| == |ids|
    decreases k
  {
    if k == 0 then multiset{}
    else
      MembersMean(a, k - 1, n);
      MembersListed(ids, a, n, k - 1) + multiset(IdsAt(ids, Members(a, k - 1, n)))
  }

  lemma MembersNext(ids: seq<Id>, a: seq<nat>, n: nat, j: nat)
    requires 0 < n <= |a| == |ids|
    ensures Below(Members(a, j, n), |ids|) && Below(Members(a, j, n - 1), |ids|)
    ensures IdsAt(ids, Members(a, j, n)) ==
      IdsAt(ids, Members(a, j, n - 1)) + (if a[n - 1] == j then [ids[n - 1]] else [])
  {
    MembersMean(a, j, n);
    MembersMean(a, j, n - 1);
  }

  lemma LastMembersNext(ids: seq<Id>, a: seq<nat>, n: nat, j: nat, x: Id)
    requires 0 < n <= |a| == |ids|
    ensures Below(Members(a, j, n), |ids|) && Below(Members(a, j, n - 1), |ids|)
    ensures multiset(IdsAt(ids, Members(a, j, n)))[x] ==
      multiset(IdsAt(ids, Members(a, j, n - 1)))[x] + (if a[n - 1] == j && x == ids[n - 1] then 1 else 0)
  {
    MembersNext(ids, a, n, j);
  }

  /** How often the first `k` clusters list `x`. */
  ghost function CountListed(ids: seq<Id>, a: seq<nat>, n: nat, k: nat, x: Id): nat
    requires n <= |a| == |ids|
    decreases k
  {
    if k == 0 then 0
    else
      MembersMean(a, k - 1, n);
      CountListed(ids, a, n, k - 1, x) + multiset(IdsAt(ids, Members(a, k - 1, n)))[x]
  }

  lemma {:induction false} MembersCounted(ids: seq<Id>, a: seq<nat>, n: nat, k: nat, x: Id)
    requires n <= |a| == |ids|
    ensures MembersListed(ids, a, n, k)[x] == CountListed(ids, a, n, k, x)
    decreases k
  {
    if k > 0 { MembersCounted(ids, a, n, k - 1, x); }
  }

  lemma {:induction false} CountNext(ids: seq<Id>, a: seq<nat>, n: nat, k: nat, x: Id)
    requires 0 < n <= |a| == |ids|
    ensures CountListed(ids, a, n, k, x) ==
      CountListed(ids, a, n - 1, k, x) + (if a[n - 1] < k && x == ids[n - 1] then 1 else 0)
    decreases k
  {
    if k > 0 {
      CountNext(ids, a, n, k - 1, x);
      LastMembersNext(ids, a, n, k - 1, x);
    }
  }

  lemma MembersListedNext(ids: seq<Id>, a: seq<nat>, n: nat, k: nat, x: Id)
    requires 0 < n <= |a| == |ids|
    ensures MembersListed(ids, a, n, k)[x] ==
      MembersListed(ids, a, n - 1, k)[x] + (if a[n - 1] < k && x == ids[n - 1] then 1 else 0)
  {
    MembersCounted(ids, a, n, k, x);
    MembersCounted(ids, a, n - 1, k, x);
    CountNext(ids, a, n, k, x);
  }

  lemma {:induction false} AssignmentListsAll(ids: seq<Id>, a: seq<nat>, n: nat, k: nat)
    requires n <= |a| == |ids| && IsAssignment(a, |ids|, k)
    ensures MembersListed(ids, a, n, k) == multiset(ids[..n])
    decreases n
  {
    if n == 0 {
      NoMembersListed(ids, a, k);
    } else {
      AssignmentListsAll(ids, a, n - 1, k);
      assert ids[..n] == ids[..n - 1] + [ids[n - 1]];
      forall x ensures MembersListed(ids, a, n, k)[x] == multiset(ids[..n])[x] {
        MembersListedNext(ids, a, n, k, x);
      }
    }
  }

  lemma {:induction false} NoMembersListed(ids: seq<Id>, a: seq<nat>, k: nat)
    requires |a| == |ids|
    ensures MembersListed(ids, a, 0, k) == multiset{}
    decreases k
  {
    if k > 0 { NoMembersListed(ids, a, k - 1); }
  }

  lemma {:induction false} BuiltListed(clusters: seq<Cluster>, ids: seq<Id>, a: seq<nat>, k: nat)
    requires |a| == |ids| && k <= |clusters| && ListsBy(clusters, ids, a, |ids|)
    ensures ListedUpTo(clusters, k) == MembersListed(ids, a, |ids|, k)
    decreases k
  {
    if k > 0 { BuiltListed(clusters, ids, a, k - 1); }
  }

  /** `ids` and `xs` are the stored ids and vectors, in some order. */
  ghost predicate Gathered(vectors: map<Id, Vec>, ids: seq<Id>, xs: seq<Vec>) {
    && multiset(ids) == multiset(vectors.Keys) && |xs| == |ids| == |vectors|
    && forall i :: 0 <= i < |ids| ==> ids[i] in vectors && xs[i] == vectors[ids[i]]
  }

  /** The clusters are the result of a k-means run over the gathered vectors. */
  ghost predicate FromRun(metric: Metric, dim: nat, clusters: seq<Cluster>, converged: bool, ids: seq<Id>, xs: seq<Vec>,
                          result: seq<Centroid>, a: seq<nat>, rounds: seq<seq<Vec>>)
  {
    && KMeans.IsResult(metric, xs, dim, result, a, !converged, rounds)
    && 1 < |rounds| <= 101 && (!converged ==> |rounds| == 101)
    && Centroids(clusters) == Centers(result) && |a| == |ids| == |xs| && ListsBy(clusters, ids, a, |ids|)
  }

  /** The clusters are those of a k-means run of at most 100 rounds over the stored vectors. */
  ghost predicate BuiltBy(metric: Metric, vectors: map<Id, Vec>, k: nat, dim: nat, clusters: seq<Cluster>,
                          converged: bool)
  {
    if |vectors| == 0 || k == 0 then clusters == []
    else
      && |clusters| == Min(k, |vectors|)
      && exists ids, xs, result, a, rounds ::
           Gathered(vectors, ids, xs) && FromRun(metric, dim, clusters, converged, ids, xs, result, a, rounds)
  }

  type Builder = (seq<Cluster>, bool) -> bool

  /** What a build may leave, as a relation that can be handed on. */
  ghost function BuildsOf(metric: Metric, vectors: map<Id, Vec>, k: nat, dim: nat): Builder {
    (clusters, converged) => BuiltBy(metric, vectors, k, dim, clusters, converged)
  }

  /** A build lists every id once. */
  lemma BuildListsAll(clusters: seq<Cluster>, ids: seq<Id>, a: seq<nat>)
    requires IsAssignment(a, |ids|, |clusters|) && ListsBy(clusters, ids, a, |ids|)
    ensures Listed(clusters) == multiset(ids)
  {
    BuiltListed(clusters, ids, a, |clusters|);
    AssignmentListsAll(ids, a, |ids|, |clusters|);
    assert ids[..|ids|] == ids;
  }

  /** A converged build lists each id with the cluster nearest to its vector. */
  lemma BuildCovers(metric: Metric, vectors: map<Id, Vec>, clusters: seq<Cluster>, ids: seq<Id>, xs: seq<Vec>,
                    a: seq<nat>)
    requires |xs| == |ids| && clusters != []
    requires a == AssignmentOf(metric, xs, Centroids(clusters))
    requires ListsBy(clusters, ids, a, |ids|)
    requires forall i :: 0 <= i < |ids| ==> ids[i] in vectors && xs[i] == vectors[ids[i]]
    requires forall id :: id in vectors ==> id in ids
    ensures Covers(metric, vectors, clusters)
  {
    forall id | id in vectors
      ensures id in clusters[Nearest(metric, vectors[id], Centroids(clusters))].ids
    {
      var i :| 0 <= i < |ids| && ids[i] == id;
      var j := a[i];
      MembersMean(a, j, |ids|);
      assert i in Members(a, j, |ids|);
      var p :| 0 <= p < |Members(a, j, |ids|)| && Members(a, j, |ids|)[p] == i;
      assert clusters[j].ids[p] == id;
    }
  }

  /** Nothing to cluster, or no clusters wanted. */
  lemma NothingBuilt(metric: Metric, vectors: map<Id, Vec>, k: nat, dim: nat)
    requires vectors.Keys == {} || k == 0
    ensures BuiltBy(metric, vectors, k, dim, [], true)
  {
  }

  /** What a build leaves: min(k, n) clusters that list each id once, nearest by when k-means stopped by itself. */
  lemma BuiltFacts(metric: Metric, vectors: map<Id, Vec>, k: nat, dim: nat, clusters: seq<Cluster>, converged: bool)
    requires BuiltBy(metric, vectors, k, dim, clusters, converged)
    ensures |clusters| == Min(k, |vectors|)
    ensures k > 0 ==> Listed(clusters) == multiset(vectors.Keys)
    ensures k > 0 && converged ==> Covers(metric, vectors, clusters)
  {
    if |vectors| == 0 || k == 0 {
      assert |vectors| == |vectors.Keys|;
    } else {
      var ids, xs, result, a, rounds :|
        Gathered(vectors, ids, xs) && FromRun(metric, dim, clusters, converged, ids, xs, result, a, rounds);
      RunBuilds(metric, vectors, dim, clusters, converged, ids, xs, result, a, rounds);
    }
  }

  lemma RunBuilds(metric: Metric, vectors: map<Id, Vec>, dim: nat, clusters: seq<Cluster>, converged: bool,
                  ids: seq<Id>, xs: seq<Vec>, result: seq<Centroid>, a: seq<nat>, rounds: seq<seq<Vec>>)
    requires Gathered(vectors, ids, xs) && FromRun(metric, dim, clusters, converged, ids, xs, result, a, rounds)
    ensures Listed(clusters) == multiset(vectors.Keys)
    ensures converged ==> Covers(metric, vectors, clusters)
  {
    assert |clusters| == |Centroids(clusters)| == |result|;
    BuildListsAll(clusters, ids, a);
    if converged {
      assert a == AssignmentOf(metric, xs, Centroids(clusters));
      forall id | id in vectors ensures id in ids { assert id in multiset(ids); }
      BuildCovers(metric, vectors, clusters, ids, xs, a);
    }
  }

  // ----- The index -----

  /** The listed ids that still have a vector, repetitions included, in the order given. */
  function StoredIds(ids: seq<Id>, keys: set<Id>): seq<Id> {
    if ids == [] then []
    else StoredIds(ids[..|ids| - 1], keys) + (if ids[|ids| - 1] in keys then [ids[|ids| - 1]] else [])
  }

  /** Coverage of the ids that are not in `pending`. */
  ghost predicate CoversOutside(metric: Metric, vectors: map<Id, Vec>, clusters: seq<Cluster>, pending: seq<Id>) {
    forall id :: id in vectors && id !in pending ==>
      clusters != [] && id in clusters[Nearest(metric, vectors[id], Centroids(clusters))].ids
  }

  /** No list lost an id, and a stored `id` is now listed with its nearest centroid. */
  ghost predicate AddedTo(metric: Metric, vectors: map<Id, Vec>, before: seq<Cluster>, after: seq<Cluster>, id: Id) {
    && after != [] && KeepsListed(before, after)
    && (id in vectors ==> id in after[Nearest(metric, vectors[id], Centroids(after))].ids)
  }

  lemma CoversMore(metric: Metric, vectors: map<Id, Vec>, before: seq<Cluster>, after: seq<Cluster>, id: Id,
                   pending: seq<Id>)
    requires AddedTo(metric, vectors, before, after, id) && Centroids(after) == Centroids(before)
    ensures CoversOutside(metric, vectors, before, [id] + pending) ==> CoversOutside(metric, vectors, after, pending)
  {
  }

  /** What the first `t` ids have done to the lists. */
  ghost predicate AddedSoFar(metric: Metric, vectors: map<Id, Vec>, start: seq<Cluster>, clusters: seq<Cluster>,
                             ids: seq<Id>, t: nat)
    requires t <= |ids|
  {
    && |clusters| == |start| && Centroids(clusters) == Centroids(start)
    && Listed(clusters) == Listed(start) + multiset(StoredIds(ids[..t], vectors.Keys))
    && (CoversOutside(metric, vectors, start, ids) ==> CoversOutside(metric, vectors, clusters, ids[t..]))
    && ListsNearest(metric, vectors, clusters, ids[..t])
    && KeepsListed(start, clusters)
  }

  /** No list loses an id. */
  ghost predicate KeepsListed(before: seq<Cluster>, after: seq<Cluster>) {
    |after| == |before| && forall c, x :: 0 <= c < |before| && x in before[c].ids ==> x in after[c].ids
  }

  /** Those of `ids` that are stored are listed with the centroid nearest to their vector. */
  ghost predicate ListsNearest(metric: Metric, vectors: map<Id, Vec>, clusters: seq<Cluster>, ids: seq<Id>) {
    forall id :: id in ids && id in vectors ==>
      clusters != [] && id in clusters[Nearest(metric, vectors[id], Centroids(clusters))].ids
  }

  lemma ListsOneMore(metric: Metric, vectors: map<Id, Vec>, before: seq<Cluster>, after: seq<Cluster>, ids: seq<Id>,
                     id: Id)
    requires ListsNearest(metric, vectors, before, ids)
    requires AddedTo(metric, vectors, before, after, id) && Centroids(after) == Centroids(before)
    ensures ListsNearest(metric, vectors, after, ids + [id])
  {
  }

  /** Lines 188-193: a stored id goes to the end of the list of the centroid nearest to its vector. */
  function AppendedOne(metric: Metric, vectors: map<Id, Vec>, clusters: seq<Cluster>, id: Id): seq<Cluster> {
    if id !in vectors || clusters == [] then clusters
    else
      var c := Nearest(metric, vectors[id], Centroids(clusters));
      WithIds(clusters, c, clusters[c].ids + [id])
  }

  /** The lists after an incremental add. */
  function Appended(metric: Metric, vectors: map<Id, Vec>, clusters: seq<Cluster>, ids: seq<Id>): seq<Cluster> {
    if ids == [] then clusters
    else AppendedOne(metric, vectors, Appended(metric, vectors, clusters, ids[..|ids| - 1]), ids[|ids| - 1])
  }

  /** After `count` changes: an incremental add, or a build that starts the count again. */
  ghost predicate AddedOrBuilt(count: nat, threshold: nat, count': nat, metric: Metric, vectors: map<Id, Vec>, k: nat,
                               dim: nat, before: seq<Cluster>, after: seq<Cluster>, converged: bool, converged': bool,
                               ids: seq<Id>)
  {
    if before != [] && count < threshold
    then count' == count && after == Appended(metric, vectors, before, ids) && converged' == converged
    else count' == 0 && BuildsOf(metric, vectors, k, dim)(after, converged')
  }

  lemma AppendedOneFacts(metric: Metric, vectors: map<Id, Vec>, clusters: seq<Cluster>, id: Id)
    requires clusters != []
    ensures var after := AppendedOne(metric, vectors, clusters, id);
      && Centroids(after) == Centroids(clusters)
      && Listed(after) == Listed(clusters) + (if id in vectors then multiset{id} else multiset{})
      && AddedTo(metric, vectors, clusters, after, id)
  {
    if id in vectors {
      AppendListed(clusters, Nearest(metric, vectors[id], Centroids(clusters)), id);
    }
  }

  lemma {:induction false} AppendedSoFar(metric: Metric, vectors: map<Id, Vec>, start: seq<Cluster>, ids: seq<Id>,
                                         t: nat)
    requires start != [] && t <= |ids|
    ensures AddedSoFar(metric, vectors, start, Appended(metric, vectors, start, ids[..t]), ids, t)
    decreases t
  {
    if t == 0 {
      NothingAppended(metric, vectors, start, ids);
    } else {
      AppendedSoFar(metric, vectors, start, ids, t - 1);
      AppendedNext(metric, vectors, start, Appended(metric, vectors, start, ids[..t - 1]), ids, t - 1);
      AppendedLast(metric, vectors, start, ids, t - 1);
    }
  }

  lemma AppendedLast(metric: Metric, vectors: map<Id, Vec>, start: seq<Cluster>, ids: seq<Id>, t: nat)
    requires t < |ids|
    ensures Appended(metric, vectors, start, ids[..t + 1]) ==
      AppendedOne(metric, vectors, Appended(metric, vectors, start, ids[..t]), ids[t])
  {
    assert ids[..t + 1][..t] == ids[..t];
  }

  lemma NothingAppended(metric: Metric, vectors: map<Id, Vec>, start: seq<Cluster>, ids: seq<Id>)
    ensures AddedSoFar(metric, vectors, start, start, ids, 0)
  {
    assert ids[0..] == ids;
  }

  lemma AppendedNext(metric: Metric, vectors: map<Id, Vec>, start: seq<Cluster>, mid: seq<Cluster>, ids: seq<Id>,
                     t: nat)
    requires start != [] && t < |ids| && AddedSoFar(metric, vectors, start, mid, ids, t)
    ensures AddedSoFar(metric, vectors, start, AppendedOne(metric, vectors, mid, ids[t]), ids, t + 1)
  {
    AppendedOneFacts(metric, vectors, mid, ids[t]);
    AddedNext(metric, vectors, start, mid, AppendedOne(metric, vectors, mid, ids[t]), ids, t);
  }

  /** An incremental add lists the stored ids with their nearest centroids, and covers what was covered but for them. */
  lemma AppendedFacts(metric: Metric, vectors: map<Id, Vec>, clusters: seq<Cluster>, ids: seq<Id>)
    requires clusters != []
    ensures var after := Appended(metric, vectors, clusters, ids);
      && after != [] && KeepsListed(clusters, after) && Centroids(after) == Centroids(clusters)
      && Listed(after) == Listed(clusters) + multiset(StoredIds(ids, vectors.Keys))
      && ListsNearest(metric, vectors, after, ids)
      && (CoversOutside(metric, vectors, clusters, ids) ==> Covers(metric, vectors, after))
  {
    AppendedSoFar(metric, vectors, clusters, ids, |ids|);
    assert ids[..|ids|] == ids;
  }

  /** The stored ids, in order, whose vectors are nearest to the centroid `c`. */
  function SentTo(metric: Metric, vectors: map<Id, Vec>, centroids: seq<Vec>, ids: seq<Id>, c: nat): seq<Id>
    requires centroids != []
  {
    if ids == [] then []
    else
      var rest, id := SentTo(metric, vectors, centroids, ids[..|ids| - 1], c), ids[|ids| - 1];
      if id in vectors && Nearest(metric, vectors[id], centroids) == c then rest + [id] else rest
  }

  /** An incremental add keeps each list and puts after it what belongs there, in the order of the batch. */
  lemma {:induction false} AppendedInOrder(metric: Metric, vectors: map<Id, Vec>, clusters: seq<Cluster>, ids: seq<Id>)
    requires clusters != []
    ensures var after := Appended(metric, vectors, clusters, ids);
      && |after| == |clusters| && Centroids(after) == Centroids(clusters)
      && forall c :: 0 <= c < |after| ==>
           after[c].ids == clusters[c].ids + SentTo(metric, vectors, Centroids(clusters), ids, c)
    decreases |ids|
  {
    if ids != [] {
      var rest := ids[..|ids| - 1];
      AppendedInOrder(metric, vectors, clusters, rest);
      AppendedOneFacts(metric, vectors, Appended(metric, vectors, clusters, rest), ids[|ids| - 1]);
    }
  }

  /** The first cluster that lists `id`, if any. */
  function FirstListing(clusters: seq<Cluster>, id: Id): (c: nat)
    ensures c <= |clusters| && (c < |clusters| ==> id in clusters[c].ids)
    ensures forall i :: 0 <= i < c ==> id !in clusters[i].ids
  {
    if clusters == [] || id in clusters[0].ids then 0
    else
      var c := FirstListing(clusters[1..], id);
      assert forall i :: 0 < i < c + 1 ==> clusters[i] == clusters[1..][i - 1];
      c + 1
  }

  /** Lines 203-211: the first cluster that lists the id loses its first occurrence. */
  function ErasedOne(clusters: seq<Cluster>, id: Id): seq<Cluster> {
    var c := FirstListing(clusters, id);
    if c == |clusters| then clusters else WithIds(clusters, c, EraseFirst(clusters[c].ids, id))
  }

  lemma {:induction false} FirstIsErased(ids: seq<Id>, k: nat)
    requires k < |ids| && ids[k] !in ids[..k]
    ensures EraseFirst(ids, ids[k]) == ids[..k] + ids[k + 1..]
    decreases k
  {
    if k > 0 {
      assert ids[..k][0] == ids[0];
      assert ids[..k] == [ids[0]] + ids[1..][..k - 1];
      FirstIsErased(ids[1..], k - 1);
    }
  }

  /** Where an id is listed for the first time, that one listing goes; nothing else changes. */
  lemma FirstListingGoes(clusters: seq<Cluster>, c: nat, k: nat)
    requires c < |clusters| && k < |clusters[c].ids|
    requires clusters[c].ids[k] !in clusters[c].ids[..k]
    requires forall i :: 0 <= i < c ==> clusters[c].ids[k] !in clusters[i].ids
    ensures var ids := clusters[c].ids;
      ErasedOne(clusters, ids[k]) == clusters[c := Cluster(clusters[c].centroid, ids[..k] + ids[k + 1..])]
  {
    FirstIsErased(clusters[c].ids, k);
  }

  /** The lists after an incremental removal. */
  function ErasedIn(clusters: seq<Cluster>, ids: seq<Id>): seq<Cluster> {
    if ids == [] then clusters else ErasedOne(ErasedIn(clusters, ids[..|ids| - 1]), ids[|ids| - 1])
  }

  ghost predicate ErasedOrBuilt(count: nat, threshold: nat, count': nat, metric: Metric, vectors: map<Id, Vec>, k: nat,
                                dim: nat, before: seq<Cluster>, after: seq<Cluster>, converged: bool, converged': bool,
                                ids: seq<Id>)
  {
    if count < threshold then count' == count && after == ErasedIn(before, ids) && converged' == converged
    else count' == 0 && BuildsOf(metric, vectors, k, dim)(after, converged')
  }

  lemma EraseKeepsOthers(ids: seq<Id>, id: Id)
    ensures forall x :: x != id && x in ids ==> x in EraseFirst(ids, id)
  {
    forall x | x != id && x in ids ensures x in EraseFirst(ids, id) {
      assert x in multiset(ids);
      assert x in multiset(EraseFirst(ids, id));
    }
  }

  lemma ErasedOneFacts(clusters: seq<Cluster>, id: Id)
    ensures var after := ErasedOne(clusters, id);
      && Centroids(after) == Centroids(clusters)
      && Listed(after) == Listed(clusters) - multiset{id}
      && RemovedFrom(clusters, after, id)
  {
    var c := FirstListing(clusters, id);
    if c == |clusters| {
      NotListed(clusters, id, |clusters|);
    } else {
      EraseListed(clusters, c, id);
      EraseKeepsOthers(clusters[c].ids, id);
    }
  }

  lemma {:induction false} ErasedFacts(clusters: seq<Cluster>, ids: seq<Id>)
    ensures ErasedAll(clusters, ErasedIn(clusters, ids), ids)
    decreases |ids|
  {
    if ids != [] {
      var rest := ids[..|ids| - 1];
      ErasedFacts(clusters, rest);
      ErasedOneFacts(ErasedIn(clusters, rest), ids[|ids| - 1]);
      assert ids[..|ids| - 1 + 1] == ids;
      ErasedNext(clusters, ErasedIn(clusters, rest), ErasedIn(clusters, ids), ids, |ids| - 1);
    }
  }

  lemma ErasedNext(start: seq<Cluster>, before: seq<Cluster>, after: seq<Cluster>, ids: seq<Id>, t: nat)
    requires t < |ids| && ErasedAll(start, before, ids[..t])
    requires Centroids(after) == Centroids(before) && Listed(after) == Listed(before) - multiset{ids[t]}
    requires RemovedFrom(before, after, ids[t])
    ensures ErasedAll(start, after, ids[..t + 1])
  {
    assert ids[..t + 1] == ids[..t] + [ids[t]];
    KeptNext(start, before, after, ids[..t], ids[t]);
    MinusNext(Listed(start), ids[..t], ids[t]);
  }

  lemma KeptNext(start: seq<Cluster>, before: seq<Cluster>, after: seq<Cluster>, removed: seq<Id>, id: Id)
    requires KeptOthers(start, before, removed) && RemovedFrom(before, after, id)
    ensures KeptOthers(start, after, removed + [id])
  {
  }

  lemma MinusNext(listed: multiset<Id>, removed: seq<Id>, id: Id)
    ensures listed - multiset(removed) - multiset{id} == listed - multiset(removed + [id])
  {
  }

  /** What an incremental removal does to the lists. */
  ghost predicate ErasedAll(before: seq<Cluster>, after: seq<Cluster>, ids: seq<Id>) {
    && Centroids(after) == Centroids(before)
    && Listed(after) == Listed(before) - multiset(ids)
    && KeptOthers(before, after, ids)
  }

  lemma NextStored(ids: seq<Id>, keys: set<Id>, t: nat)
    requires t < |ids|
    ensures multiset(StoredIds(ids[..t + 1], keys)) ==
      multiset(StoredIds(ids[..t], keys)) + (if ids[t] in keys then multiset{ids[t]} else multiset{})
  {
    assert ids[..t + 1][..t] == ids[..t];
  }

  lemma StoredListed(vectors: map<Id, Vec>, start: seq<Cluster>, mid: seq<Cluster>, clusters: seq<Cluster>,
                     ids: seq<Id>, t: nat)
    requires t < |ids| && Listed(mid) == Listed(start) + multiset(StoredIds(ids[..t], vectors.Keys))
    requires Listed(clusters) == Listed(mid) + (if ids[t] in vectors then multiset{ids[t]} else multiset{})
    ensures Listed(clusters) == Listed(start) + multiset(StoredIds(ids[..t + 1], vectors.Keys))
  {
    NextStored(ids, vectors.Keys, t);
  }

  lemma AddedNext(metric: Metric, vectors: map<Id, Vec>, start: seq<Cluster>, mid: seq<Cluster>, clusters: seq<Cluster>,
                  ids: seq<Id>, t: nat)
    requires t < |ids| && AddedSoFar(metric, vectors, start, mid, ids, t)
    requires AddedTo(metric, vectors, mid, clusters, ids[t]) && Centroids(clusters) == Centroids(mid)
    requires Listed(clusters) == Listed(mid) + (if ids[t] in vectors then multiset{ids[t]} else multiset{})
    ensures AddedSoFar(metric, vectors, start, clusters, ids, t + 1)
  {
    StoredListed(vectors, start, mid, clusters, ids, t);
    assert ids[t..] == [ids[t]] + ids[t + 1..];
    CoversMore(metric, vectors, mid, clusters, ids[t], ids[t + 1..]);
    assert ids[..t + 1] == ids[..t] + [ids[t]];
    ListsOneMore(metric, vectors, mid, clusters, ids[..t], ids[t]);
  }

  /** Erasing `id` from one list leaves every other id where it was. */
  ghost predicate RemovedFrom(before: seq<Cluster>, after: seq<Cluster>, id: Id) {
    && |after| == |before|
    && (forall c, x :: 0 <= c < |before| && x != id && x in before[c].ids ==> x in after[c].ids)
  }

  /** A batch of distinct ids none of which is stored yet. */
  ghost predicate FreshBatch(ids: seq<Id>, keys: set<Id>) {
    Distinct(ids) && forall i :: 0 <= i < |ids| ==> ids[i] !in keys
  }

  lemma {:induction false} AllStored(ids: seq<Id>, keys: set<Id>)
    requires forall i :: 0 <= i < |ids| ==> ids[i] in keys
    ensures StoredIds(ids, keys) == ids
    decreases |ids|
  {
    if ids != [] {
      AllStored(ids[..|ids| - 1], keys);
      assert ids == ids[..|ids| - 1] + [ids[|ids| - 1]];
    }
  }

  lemma {:induction false} DistinctIds(ids: seq<Id>)
    ensures Distinct(ids) <==> (forall x :: multiset(ids)[x] <= 1)
    decreases |ids|
  {
    if ids != [] {
      var init, last := ids[..|ids| - 1], ids[|ids| - 1];
      DistinctIds(init);
      assert ids == init + [last];
      if Distinct(ids) {
        assert last !in init;
        forall x ensures multiset(ids)[x] <= 1 {}
      }
      if forall x :: multiset(ids)[x] <= 1 {
        forall x ensures multiset(init)[x] <= 1 { assert multiset(ids)[x] <= 1; }
        assert multiset(ids)[last] <= 1;
        assert last !in multiset(init);
        assert forall i :: 0 <= i < |init| ==> init[i] in multiset(init);
      }
    }
  }

  function With(keys: set<Id>, ids: seq<Id>): set<Id> {
    keys + Elements(ids)
  }

  lemma OnceThenFresh(listed: multiset<Id>, before: set<Id>, ids: seq<Id>)
    requires listed == multiset(before) + multiset(ids)
    requires forall x :: x in With(before, ids) ==> listed[x] == 1
    ensures FreshBatch(ids, before)
  {
    forall i | 0 <= i < |ids| ensures ids[i] !in before {
      assert ids[i] in multiset(ids) && ids[i] in With(before, ids);
    }
    forall x ensures multiset(ids)[x] <= 1 {
      if x in multiset(ids) { assert x in ids && x in With(before, ids); }
    }
    DistinctIds(ids);
  }

  lemma FreshThenOnce(listed: multiset<Id>, before: set<Id>, ids: seq<Id>)
    requires listed == multiset(before) + multiset(ids) && FreshBatch(ids, before)
    ensures listed == multiset(With(before, ids))
  {
    DistinctIds(ids);
    forall x ensures listed[x] == multiset(With(before, ids))[x] {
      if x in multiset(ids) { assert x in ids; }
      if x in ids { assert x in multiset(ids); }
    }
  }

  /**
   Where the clusters listed each stored id once, an incremental add keeps it so
   exactly when the batch brings distinct new ids: an id that is stored already, or
   repeated, is listed again.
  */
  lemma OnceAfterAddIff(clusters: seq<Cluster>, clusters': seq<Cluster>, before: set<Id>, ids: seq<Id>)
    requires Listed(clusters) == multiset(before)
    requires Listed(clusters') == Listed(clusters) + multiset(ids)
    ensures OnceEach(clusters', With(before, ids)) <==> FreshBatch(ids, before)
    ensures FreshBatch(ids, before) ==> Listed(clusters') == multiset(With(before, ids))
  {
    if FreshBatch(ids, before) {
      FreshThenOnce(Listed(clusters'), before, ids);
    }
    if OnceEach(clusters', With(before, ids)) {
      OnceThenFresh(Listed(clusters'), before, ids);
    }
  }

  /**
   Upserting a stored id once more lists it twice, and a search of all clusters then
   returns it twice, where the exact scan returns each id once.
  */
  lemma UpsertedAgain(sp: Space, q: Vec, clusters: seq<Cluster>, id: Id, nProbe: nat)
    requires clusters != [] && Listed(clusters) == multiset(sp.vectors.Keys)
    requires id in sp.vectors && nProbe >= |clusters|
    ensures var keys, after := sp.vectors.Keys, Appended(sp.metric, sp.vectors, clusters, [id]);
      && !OnceEach(after, keys)
      && |Answer(sp, q, after, nProbe, |keys| + 1)| == |keys| + 1
      && |sp.Exact(q, keys, |keys| + 1)| == |keys|
  {
    var keys, after := sp.vectors.Keys, Appended(sp.metric, sp.vectors, clusters, [id]);
    AppendedFacts(sp.metric, sp.vectors, clusters, [id]);
    AllStored([id], keys);
    assert Listed(after)[id] == 2;
    AllClustersProbed(sp, q, after, nProbe);
    ScoredOnceMore(sp, q, clusters, id);
    sp.ScoresSize(q, keys);
  }

  lemma ScoredOnceMore(sp: Space, q: Vec, clusters: seq<Cluster>, id: Id)
    requires Listed(clusters) == multiset(sp.vectors.Keys) && id in sp.vectors
    ensures |Scored(sp, q, multiset(sp.vectors.Keys) + multiset{id})| == |sp.vectors.Keys| + 1
  {
    SeenIsScores(sp, q, clusters, Scored(sp, q, multiset(sp.vectors.Keys)));
    ScoredAdd(sp, q, multiset(sp.vectors.Keys), id);
    sp.ScoresSize(q, sp.vectors.Keys);
  }

  /** The same for the stored ids of a batch. */
  lemma OnceAfterAppend(metric: Metric, vectors: map<Id, Vec>, clusters: seq<Cluster>, before: set<Id>, ids: seq<Id>)
    requires clusters != [] && vectors.Keys == With(before, ids) && Listed(clusters) == multiset(before)
    ensures var after := Appended(metric, vectors, clusters, ids);
      && (OnceEach(after, vectors.Keys) <==> FreshBatch(ids, before))
      && (FreshBatch(ids, before) ==> Listed(after) == multiset(vectors.Keys))
  {
    AllAppended(metric, vectors, clusters, ids);
    OnceAfterAddIff(clusters, Appended(metric, vectors, clusters, ids), before, ids);
  }

  lemma AllAppended(metric: Metric, vectors: map<Id, Vec>, clusters: seq<Cluster>, ids: seq<Id>)
    requires clusters != [] && forall i :: 0 <= i < |ids| ==> ids[i] in vectors
    ensures Listed(Appended(metric, vectors, clusters, ids)) == Listed(clusters) + multiset(ids)
  {
    AppendedFacts(metric, vectors, clusters, ids);
    AllStored(ids, vectors.Keys);
  }

  /** Ids outside `removed` are still listed where they were. */
  ghost predicate KeptOthers(before: seq<Cluster>, after: seq<Cluster>, removed: seq<Id>) {
    && |after| == |before|
    && forall c, x :: 0 <= c < |before| && x !in removed && x in before[c].ids ==> x in after[c].ids
  }

  /** `after` is what `remove_vectors` leaves of `before`. */
  ghost predicate Erased(before: map<Id, Vec>, after: map<Id, Vec>, removed: seq<Id>) {
    && Distinct(removed)
    && (forall i :: 0 <= i < |removed| ==> removed[i] in before)
    && after == before - Elements(removed)
  }

  /** Erasing ids that are not stored keeps what covers the stored ones. */
  lemma ErasingCovers(metric: Metric, vectors: map<Id, Vec>, clusters: seq<Cluster>, removed: seq<Id>)
    requires Elements(removed) !! vectors.Keys && Covers(metric, vectors, clusters)
    ensures Covers(metric, vectors, ErasedIn(clusters, removed))
  {
    ErasedFacts(clusters, removed);
    forall id | id in vectors ensures id !in removed { assert id !in Elements(removed); }
  }

  lemma NothingToErase(keys: set<Id>, removed: seq<Id>)
    ensures Listed([]) == multiset(keys + Elements(removed)) ==> Listed([]) == multiset(keys)
  {
    assert multiset(keys) <= multiset(keys + Elements(removed));
  }

  /** Erasing each removed id once leaves each stored id listed once. */
  lemma ErasingListsOnce(keys: set<Id>, clusters: seq<Cluster>, removed: seq<Id>)
    requires Elements(removed) !! keys && Listed(clusters) == multiset(keys + Elements(removed))
    requires Distinct(removed)
    ensures Listed(ErasedIn(clusters, removed)) == multiset(keys)
  {
    ErasedFacts(clusters, removed);
    DistinctIds(removed);
    forall x ensures (multiset(keys + Elements(removed)) - multiset(removed))[x] == multiset(keys)[x] {
      if x in removed { assert x in multiset(removed) && x in Elements(removed); }
    }
  }

  /** What an incremental add keeps. */
  lemma AppendingKeeps(metric: Metric, vectors: map<Id, Vec>, clusters: seq<Cluster>, ids: seq<Id>)
    requires clusters != []
    ensures CoversOutside(metric, vectors, clusters, ids) ==>
      Covers(metric, vectors, Appended(metric, vectors, clusters, ids))
    ensures var before := vectors.Keys - Elements(ids);
      (vectors.Keys == With(before, ids) && Listed(clusters) == multiset(before) && FreshBatch(ids, before)) ==>
        Listed(Appended(metric, vectors, clusters, ids)) == multiset(vectors.Keys)
  {
    AppendedFacts(metric, vectors, clusters, ids);
    var before := vectors.Keys - Elements(ids);
    if vectors.Keys == With(before, ids) && Listed(clusters) == multiset(before) {
      OnceAfterAppend(metric, vectors, clusters, before, ids);
    }
  }

  /** What an incremental removal keeps. */
  lemma ErasingKeeps(metric: Metric, vectors: map<Id, Vec>, clusters: seq<Cluster>, removed: seq<Id>)
    requires Elements(removed) !! vectors.Keys
    ensures Covers(metric, vectors, clusters) ==> Covers(metric, vectors, ErasedIn(clusters, removed))
    ensures Distinct(removed) && Listed(clusters) == multiset(vectors.Keys + Elements(removed)) ==>
      Listed(ErasedIn(clusters, removed)) == multiset(vectors.Keys)
  {
    if Covers(metric, vectors, clusters) { ErasingCovers(metric, vectors, clusters, removed); }
    if Distinct(removed) && Listed(clusters) == multiset(vectors.Keys + Elements(removed)) {
      ErasingListsOnce(vectors.Keys, clusters, removed);
    }
  }
}
