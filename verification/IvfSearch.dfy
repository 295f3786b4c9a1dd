/** The two-stage search of `indices/ivfflat.cpp`, and what its answers depend on. */
module IvfSearch {
  import opened Ranking
  import opened Vectors
  import opened Spaces
  import opened Batches
  import opened Heaps
  import opened KMeansSteps

  datatype Cluster = Cluster(centroid: Vec, ids: seq<Id>)

  function Centroids(clusters: seq<Cluster>): seq<Vec> {
    seq(|clusters|, i requires 0 <= i < |clusters| => clusters[i].centroid)
  }

  // ----- Which ids the clusters list -----

  /** The ids listed by the first `n` clusters, with repetitions. */
  ghost function ListedUpTo(clusters: seq<Cluster>, n: nat): multiset<Id>
    requires n <= |clusters|
  {
    if n == 0 then multiset{} else ListedUpTo(clusters, n - 1) + multiset(clusters[n - 1].ids)
  }

  ghost function Listed(clusters: seq<Cluster>): multiset<Id> {
    ListedUpTo(clusters, |clusters|)
  }

  /** The first `n` clusters with their distances to `q`; the id of an entry is the cluster's position. */
  ghost function ClusterScoresUpTo(metric: Metric, q: Vec, clusters: seq<Cluster>, n: nat): set<Cand>
    requires n <= |clusters|
  {
    set i | 0 <= i < n :: Cand(metric(q, clusters[i].centroid), i)
  }

  /** The clusters in the order they are probed: by distance, then by position. */
  ghost function ProbeOrder(metric: Metric, q: Vec, clusters: seq<Cluster>): seq<Cand> {
    Ascending(multiset(ClusterScoresUpTo(metric, q, clusters, |clusters|)))
  }

  ghost predicate Positions(order: seq<Cand>, n: nat) {
    forall p :: 0 <= p < |order| ==> order[p].id < n
  }

  /** The ids listed by the clusters of `order`. */
  ghost function ListedIn(clusters: seq<Cluster>, order: seq<Cand>): multiset<Id>
    requires Positions(order, |clusters|)
    decreases |order|
  {
    if order == [] then multiset{}
    else ListedIn(clusters, order[..|order| - 1]) + multiset(clusters[order[|order| - 1].id].ids)
  }

  lemma ScoreMember(metric: Metric, q: Vec, clusters: seq<Cluster>, n: nat)
    requires 0 < n <= |clusters|
    ensures var c := Cand(metric(q, clusters[n - 1].centroid), n - 1);
      c !in ClusterScoresUpTo(metric, q, clusters, n - 1) &&
      ClusterScoresUpTo(metric, q, clusters, n) == ClusterScoresUpTo(metric, q, clusters, n - 1) + {c}
  {
  }

  lemma {:induction false} ClusterScoresSize(metric: Metric, q: Vec, clusters: seq<Cluster>, n: nat)
    requires n <= |clusters|
    ensures |ClusterScoresUpTo(metric, q, clusters, n)| == n
  {
    if n > 0 {
      ClusterScoresSize(metric, q, clusters, n - 1);
      ScoreMember(metric, q, clusters, n);
    }
  }

  lemma ProbeOrderFacts(metric: Metric, q: Vec, clusters: seq<Cluster>)
    ensures |ProbeOrder(metric, q, clusters)| == |clusters|
    ensures Positions(ProbeOrder(metric, q, clusters), |clusters|)
  {
    var scores := ClusterScoresUpTo(metric, q, clusters, |clusters|);
    var order := ProbeOrder(metric, q, clusters);
    ClusterScoresSize(metric, q, clusters, |clusters|);
    forall p | 0 <= p < |order| ensures order[p].id < |clusters| {
      assert order[p] in multiset(order);
      assert order[p] in scores;
    }
  }

  ghost function Without(order: seq<Cand>, p: nat): seq<Cand>
    requires p < |order|
  {
    order[..p] + order[p + 1..]
  }

  lemma WithoutInner(order: seq<Cand>, p: nat)
    requires p < |order| - 1
    ensures var w := Without(order, p);
      && w != [] && w[|w| - 1] == order[|order| - 1]
      && w[..|w| - 1] == Without(order[..|order| - 1], p)
  {
  }

  lemma WithoutMultiset(order: seq<Cand>, p: nat)
    requires p < |order|
    ensures multiset(Without(order, p)) == multiset(order) - multiset{order[p]}
  {
    assert order == order[..p] + ([order[p]] + order[p + 1..]);
  }

  lemma SwapSums(a: multiset<Id>, x: multiset<Id>, y: multiset<Id>)
    ensures (a + x) + y == (a + y) + x
  {
  }

  /** Taking one entry out of an order takes its cluster's ids out of the listing. */
  lemma {:induction false} ListedWithout(clusters: seq<Cluster>, order: seq<Cand>, p: nat)
    requires Positions(order, |clusters|) && p < |order|
    ensures Positions(Without(order, p), |clusters|)
    ensures ListedIn(clusters, order) == ListedIn(clusters, Without(order, p)) + multiset(clusters[order[p].id].ids)
    decreases |order|
  {
    var last := |order| - 1;
    if p == last {
      assert Without(order, p) == order[..last];
    } else {
      ListedWithout(clusters, order[..last], p);
      WithoutInner(order, p);
      SwapSums(ListedIn(clusters, Without(order[..last], p)), multiset(clusters[order[p].id].ids),
               multiset(clusters[order[last].id].ids));
    }
  }

  lemma SetMinusOne(s: set<Cand>, c: Cand)
    requires c !in s
    ensures multiset(s + {c}) - multiset{c} == multiset(s)
  {
  }

  /** Where the last cluster stands in the order; without it, the order is one of the others. */
  lemma LastPosition(metric: Metric, q: Vec, clusters: seq<Cluster>, n: nat, order: seq<Cand>) returns (p: nat)
    requires 0 < n <= |clusters|
    requires multiset(order) == multiset(ClusterScoresUpTo(metric, q, clusters, n))
    ensures p < |order| && order[p].id == n - 1
    ensures multiset(Without(order, p)) == multiset(ClusterScoresUpTo(metric, q, clusters, n - 1))
  {
    var c := Cand(metric(q, clusters[n - 1].centroid), n - 1);
    ScoreMember(metric, q, clusters, n);
    assert c in multiset(order);
    p :| 0 <= p < |order| && order[p] == c;
    WithoutMultiset(order, p);
    SetMinusOne(ClusterScoresUpTo(metric, q, clusters, n - 1), c);
  }

  /** Probing every cluster, in any order, lists what all clusters list. */
  lemma {:induction false} ProbingAll(metric: Metric, q: Vec, clusters: seq<Cluster>, n: nat, order: seq<Cand>)
    requires n <= |clusters| && Positions(order, |clusters|)
    requires multiset(order) == multiset(ClusterScoresUpTo(metric, q, clusters, n))
    ensures ListedIn(clusters, order) == ListedUpTo(clusters, n)
    decreases n
  {
    if n == 0 {
      assert |multiset(order)| == 0;
    } else {
      var p := LastPosition(metric, q, clusters, n, order);
      ListedWithout(clusters, order, p);
      ProbingAll(metric, q, clusters, n - 1, Without(order, p));
    }
  }

  // ----- The search -----

  /** `seen` scores exactly the listed ids that still have a vector, as often as they are listed. */
  ghost predicate ScoresListed(sp: Space, q: Vec, seen: multiset<Cand>, listed: multiset<Id>) {
    forall c {:trigger seen[c]} :: seen[c] == if c.id in sp.vectors && c == sp.Score(q, c.id) then listed[c.id] else 0
  }

  /** The scores of the listed ids, repetitions included; ids without a vector have none. */
  ghost function Scored(sp: Space, q: Vec, listed: multiset<Id>): (seen: multiset<Cand>)
    ensures ScoresListed(sp, q, seen, listed)
    decreases |listed|
  {
    if listed == multiset{} then multiset{}
    else
      var id :| id in listed;
      Scored(sp, q, listed - multiset{id}) + (if id in sp.vectors then multiset{sp.Score(q, id)} else multiset{})
  }

  lemma ScoredIsUnique(sp: Space, q: Vec, seen: multiset<Cand>, listed: multiset<Id>)
    requires ScoresListed(sp, q, seen, listed)
    ensures seen == Scored(sp, q, listed)
  {
    forall c ensures seen[c] == Scored(sp, q, listed)[c] {}
  }

  lemma ScoredAdd(sp: Space, q: Vec, listed: multiset<Id>, id: Id)
    ensures Scored(sp, q, listed + multiset{id}) ==
      Scored(sp, q, listed) + (if id in sp.vectors then multiset{sp.Score(q, id)} else multiset{})
  {
    var seen := Scored(sp, q, listed) + (if id in sp.vectors then multiset{sp.Score(q, id)} else multiset{});
    forall c
      ensures seen[c] == if c.id in sp.vectors && c == sp.Score(q, c.id) then (listed + multiset{id})[c.id] else 0
    {}
    ScoredIsUnique(sp, q, seen, listed + multiset{id});
  }

  lemma OneMoreListed(listed: multiset<Id>, ids: seq<Id>, t: nat)
    requires t < |ids|
    ensures listed + multiset(ids[..t + 1]) == listed + multiset(ids[..t]) + multiset{ids[t]}
  {
    assert ids[..t + 1] == ids[..t] + [ids[t]];
  }

  /** Lines 100-107: an id without a vector is passed over. */
  method ScanId(sp: Space, q: Vec, id: Id, k: nat, heap0: multiset<Cand>, ghost listed: multiset<Id>)
    returns (heap: multiset<Cand>)
    requires IsBest(heap0, Scored(sp, q, listed), k)
    ensures IsBest(heap, Scored(sp, q, listed + multiset{id}), k)
  {
    heap := heap0;
    ScoredAdd(sp, q, listed, id);
    if id in sp.vectors {
      heap := Push(heap, Scored(sp, q, listed), Cand(sp.metric(q, sp.vectors[id]), id), k);
    } else {
      assert Scored(sp, q, listed) + multiset{} == Scored(sp, q, listed);
    }
  }

  /** Lines 98-108: one cluster's ids go through the bounded heap. */
  method ScanCluster(sp: Space, q: Vec, ids: seq<Id>, k: nat, heap0: multiset<Cand>, ghost listed: multiset<Id>)
    returns (heap: multiset<Cand>)
    requires IsBest(heap0, Scored(sp, q, listed), k)
    ensures IsBest(heap, Scored(sp, q, listed + multiset(ids)), k)
  {
    heap := heap0;
    assert listed + multiset(ids[..0]) == listed;
    for t := 0 to |ids|
      invariant IsBest(heap, Scored(sp, q, listed + multiset(ids[..t])), k)
    {
      OneMoreListed(listed, ids, t);
      heap := ScanId(sp, q, ids[t], k, heap, listed + multiset(ids[..t]));
    }
    assert ids[..|ids|] == ids;
  }

  /** Lines 83-87: every cluster goes into the min-heap. */
  method RankClusters(metric: Metric, q: Vec, clusters: seq<Cluster>) returns (heap: set<Cand>)
    ensures heap == ClusterScoresUpTo(metric, q, clusters, |clusters|)
  {
    heap := {};
    for i := 0 to |clusters|
      invariant heap == ClusterScoresUpTo(metric, q, clusters, i)
    {
      ScoreMember(metric, q, clusters, i + 1);
      heap := heap + {Cand(metric(q, clusters[i].centroid), i)};
    }
  }

  /** The clusters a search probes. */
  ghost function Probes(metric: Metric, q: Vec, clusters: seq<Cluster>, nProbe: nat): (order: seq<Cand>)
    ensures Positions(order, |clusters|) && |order| == Min(nProbe, |clusters|)
  {
    ProbeOrderFacts(metric, q, clusters);
    ProbeOrder(metric, q, clusters)[..Min(nProbe, |clusters|)]
  }

  /** What a search answers: the k best of the vectors that the probed clusters list. */
  ghost function Answer(sp: Space, q: Vec, clusters: seq<Cluster>, nProbe: nat, k: nat): seq<Cand> {
    TopK(Scored(sp, q, ListedIn(clusters, Probes(sp.metric, q, clusters, nProbe))), k)
  }

  method Search(sp: Space, q: Vec, clusters: seq<Cluster>, nProbe: nat, k: nat) returns (ok: bool, results: seq<Cand>)
    ensures results == Answer(sp, q, clusters, nProbe, k)
    ensures ok == (results != [])
  {
    if clusters == [] {
      return false, [];
    }
    var order := RankClusters(sp.metric, q, clusters);
    ProbeOrderFacts(sp.metric, q, clusters);
    ClusterScoresSize(sp.metric, q, clusters, |clusters|);
    results := SearchRanked(sp, q, clusters, order, Min(nProbe, |order|), k, ProbeOrder(sp.metric, q, clusters));
    ok := results != [];
  }

  /** Lines 87-118. */
  method SearchRanked(sp: Space, q: Vec, clusters: seq<Cluster>, order: set<Cand>, probes: nat, k: nat,
                      ghost ranked: seq<Cand>)
    returns (results: seq<Cand>)
    requires probes <= |ranked| && Positions(ranked, |clusters|)
    requires ranked == Ascending(multiset(order))
    ensures results == TopK(Scored(sp, q, ListedIn(clusters, ranked[..probes])), k)
  {
    var heap := ProbeClusters(sp, q, clusters, order, probes, k, ranked);
    BestIsTopK(heap, Scored(sp, q, ListedIn(clusters, ranked[..probes])), k);
    results := Drain(heap);
  }

  lemma NothingScored(sp: Space, q: Vec, clusters: seq<Cluster>, ranked: seq<Cand>, k: nat)
    requires Positions(ranked, |clusters|)
    ensures IsBest(multiset{}, Scored(sp, q, ListedIn(clusters, ranked[..0])), k)
  {
  }

  /** Lines 93-109: the first `probes` clusters off the min-heap. */
  method ProbeClusters(sp: Space, q: Vec, clusters: seq<Cluster>, order0: set<Cand>, probes: nat, k: nat,
                       ghost ranked: seq<Cand>)
    returns (heap: multiset<Cand>)
    requires probes <= |ranked| && Positions(ranked, |clusters|)
    requires ranked == Ascending(multiset(order0))
    ensures IsBest(heap, Scored(sp, q, ListedIn(clusters, ranked[..probes])), k)
  {
    heap := multiset{};
    var order := order0;
    NothingScored(sp, q, clusters, ranked, k);
    for i := 0 to probes
      invariant Remaining(ranked, order, i)
      invariant IsBest(heap, Scored(sp, q, ListedIn(clusters, ranked[..i])), k)
    {
      heap, order := ProbeNext(sp, q, clusters, k, heap, order, ranked, i);
    }
  }

  /** One round: the nearest cluster comes off the min-heap, and its ids go through the other one. */
  method ProbeNext(sp: Space, q: Vec, clusters: seq<Cluster>, k: nat, heap0: multiset<Cand>, order0: set<Cand>,
                   ghost ranked: seq<Cand>, ghost i: nat)
    returns (heap: multiset<Cand>, order: set<Cand>)
    requires i < |ranked| && Positions(ranked, |clusters|) && Remaining(ranked, order0, i)
    requires IsBest(heap0, Scored(sp, q, ListedIn(clusters, ranked[..i])), k)
    ensures Remaining(ranked, order, i + 1)
    ensures IsBest(heap, Scored(sp, q, ListedIn(clusters, ranked[..i + 1])), k)
  {
    var top;
    NearestIsNext(ranked, order0, i);
    ListedNext(clusters, ranked, i);
    top, order := PopNearest(ranked, order0, i);
    heap := ScanCluster(sp, q, clusters[top.id].ids, k, heap0, ListedIn(clusters, ranked[..i]));
  }

  /** After `i` probes the min-heap holds what is left of the probe order. */
  ghost predicate Remaining(ranked: seq<Cand>, order: set<Cand>, i: nat) {
    i <= |ranked| && ranked[i..] == Ascending(multiset(order))
  }

  /** Lines 95-96. */
  method PopNearest(ghost ranked: seq<Cand>, order: set<Cand>, ghost i: nat) returns (top: Cand, order': set<Cand>)
    requires Remaining(ranked, order, i) && i < |ranked| && order != {} && Least(order) == ranked[i]
    ensures top == ranked[i] && Remaining(ranked, order', i + 1)
  {
    AscendingSet(order);
    top := Least(order);
    order' := order - {top};
    assert ranked[i..][1..] == ranked[i + 1..];
  }

  lemma NearestIsNext(ranked: seq<Cand>, order: set<Cand>, i: nat)
    requires i < |ranked| && Remaining(ranked, order, i)
    ensures order != {} && Least(order) == ranked[i]
  {
    assert |multiset(order)| > 0;
    assert multiset(order) != multiset{};
    AscendingSet(order);
    assert ranked[i..][0] == ranked[i];
  }

  lemma ListedNext(clusters: seq<Cluster>, ranked: seq<Cand>, i: nat)
    requires Positions(ranked, |clusters|) && i < |ranked|
    ensures ListedIn(clusters, ranked[..i + 1]) ==
      ListedIn(clusters, ranked[..i]) + multiset(clusters[ranked[i].id].ids)
  {
    assert ranked[..i + 1][..i] == ranked[..i];
  }

  // ----- Against the exact scan -----

  /** Every stored id is listed once; ids that are not stored may be listed. */
  ghost predicate OnceEach(clusters: seq<Cluster>, keys: set<Id>) {
    forall id :: id in keys ==> Listed(clusters)[id] == 1
  }

  lemma AllClustersProbed(sp: Space, q: Vec, clusters: seq<Cluster>, nProbe: nat)
    requires nProbe >= |clusters|
    ensures ListedIn(clusters, Probes(sp.metric, q, clusters, nProbe)) == Listed(clusters)
  {
    var order := ProbeOrder(sp.metric, q, clusters);
    ProbeOrderFacts(sp.metric, q, clusters);
    assert order[..|clusters|] == order;
    ProbingAll(sp.metric, q, clusters, |clusters|, order);
  }

  lemma SeenIsScores(sp: Space, q: Vec, clusters: seq<Cluster>, seen: multiset<Cand>)
    requires ScoresListed(sp, q, seen, Listed(clusters))
    ensures seen == multiset(sp.Scores(q, sp.vectors.Keys)) <==> OnceEach(clusters, sp.vectors.Keys)
  {
    var all := multiset(sp.Scores(q, sp.vectors.Keys));
    forall c ensures all[c] == if c.id in sp.vectors && c == sp.Score(q, c.id) then 1 else 0 {}
    if OnceEach(clusters, sp.vectors.Keys) {
      forall c ensures seen[c] == all[c] {}
    }
    if seen == all {
      forall id | id in sp.vectors ensures Listed(clusters)[id] == 1 {
        assert seen[sp.Score(q, id)] == all[sp.Score(q, id)];
      }
    }
  }

  /**
   A search that probes every cluster answers like the exact scan, ties included and
   for every k, exactly when the clusters list each stored id once.
  */
  lemma FullProbeIsExactIff(sp: Space, q: Vec, clusters: seq<Cluster>, nProbe: nat)
    requires nProbe >= |clusters|
    ensures (forall k :: Answer(sp, q, clusters, nProbe, k) == sp.Exact(q, sp.vectors.Keys, k)) <==>
      OnceEach(clusters, sp.vectors.Keys)
  {
    AllClustersProbed(sp, q, clusters, nProbe);
    var seen, all := Scored(sp, q, Listed(clusters)), multiset(sp.Scores(q, sp.vectors.Keys));
    SeenIsScores(sp, q, clusters, seen);
    if forall k :: Answer(sp, q, clusters, nProbe, k) == sp.Exact(q, sp.vectors.Keys, k) {
      var k := |seen| + |all|;
      assert Answer(sp, q, clusters, nProbe, k) == sp.Exact(q, sp.vectors.Keys, k);
      assert TopK(seen, k) == Ascending(seen) && TopK(all, k) == Ascending(all);
    }
  }

  // ----- Which clusters are probed -----

  /** The clusters that come before cluster `c`: nearer to the query, or as near and listed earlier. */
  ghost function Ahead(metric: Metric, q: Vec, clusters: seq<Cluster>, c: nat): set<nat>
    requires c < |clusters|
  {
    set j: nat | j < |clusters| &&
      (metric(q, clusters[j].centroid) < metric(q, clusters[c].centroid)
       || (metric(q, clusters[j].centroid) == metric(q, clusters[c].centroid) && j < c))
  }

  /** In an ascending enumeration of a set, as many elements come before the p-th as are smaller. */
  lemma SmallerAreBefore(s: set<Cand>, p: nat)
    requires p < |s|
    ensures |Ascending(multiset(s))| == |s|
    ensures (set x | x in s && Less(x, Ascending(multiset(s))[p])) == Elements(Ascending(multiset(s))[..p])
    ensures |Elements(Ascending(multiset(s))[..p])| == p
  {
    var order := Ascending(multiset(s));
    assert Distinct(order) by {
      forall i, j | 0 <= i < j < |order| ensures order[i] != order[j] { OnceInOrder(s, order, i, j); }
    }
    assert Distinct(order[..p]);
    DistinctSize(order[..p]);
    SmallerInOrder(s, order, p);
  }

  lemma SmallerInOrder(s: set<Cand>, order: seq<Cand>, p: nat)
    requires multiset(order) == multiset(s) && Sorted(order) && Distinct(order) && p < |order|
    ensures (set x | x in s && Less(x, order[p])) == Elements(order[..p])
  {
    forall x | x in s ensures Less(x, order[p]) <==> x in order[..p] {
      assert x in multiset(order);
      var i :| 0 <= i < |order| && order[i] == x;
      if i < p {
        assert order[..p][i] == x && Leq(x, order[p]);
      } else {
        assert Leq(order[p], x);
      }
    }
    forall x | x in order[..p] ensures x in s { assert x in multiset(order); }
  }

  lemma OnceInOrder(s: set<Cand>, order: seq<Cand>, i: nat, j: nat)
    requires multiset(order) == multiset(s) && i < j < |order|
    ensures order[i] != order[j]
  {
    assert order == order[..j] + [order[j]] + order[j + 1..];
    assert order[..j][i] == order[i] && order[i] in multiset(order[..j]);
    assert multiset(order)[order[j]] == multiset(order[..j])[order[j]] + 1 + multiset(order[j + 1..])[order[j]];
    assert multiset(s)[order[j]] <= 1;
  }

  lemma {:induction false} IdsOfPositions(cands: set<Cand>, ids: set<nat>)
    requires forall c :: c in cands ==> c.id in ids
    requires forall i :: i in ids ==> exists c :: c in cands && c.id == i
    requires forall c, d :: c in cands && d in cands && c.id == d.id ==> c == d
    ensures |cands| == |ids|
    decreases |cands|
  {
    if cands == {} {
      assert ids == {};
    } else {
      var c :| c in cands;
      forall i | i in ids - {c.id} ensures exists d :: d in cands - {c} && d.id == i {
        var d :| d in cands && d.id == i;
        assert d in cands - {c};
      }
      IdsOfPositions(cands - {c}, ids - {c.id});
    }
  }

  /** Cluster `c` is probed exactly if fewer than `nProbe` clusters come before it. */
  lemma ProbedIff(metric: Metric, q: Vec, clusters: seq<Cluster>, nProbe: nat, c: nat)
    requires c < |clusters|
    ensures var probes := Probes(metric, q, clusters, nProbe);
      (exists p :: 0 <= p < |probes| && probes[p].id == c) <==> |Ahead(metric, q, clusters, c)| < nProbe
  {
    var order, probes := ProbeOrder(metric, q, clusters), Probes(metric, q, clusters, nProbe);
    ProbeOrderFacts(metric, q, clusters);
    var p := PositionOf(metric, q, clusters, c);
    forall i | 0 <= i < |order| && order[i].id == c ensures i == p { SamePosition(metric, q, clusters, i, p); }
    if p < |probes| { assert probes[p].id == c; }
  }

  lemma PositionOf(metric: Metric, q: Vec, clusters: seq<Cluster>, c: nat) returns (p: nat)
    requires c < |clusters|
    ensures p < |ProbeOrder(metric, q, clusters)| && ProbeOrder(metric, q, clusters)[p].id == c
    ensures p == |Ahead(metric, q, clusters, c)|
  {
    var scores := ClusterScoresUpTo(metric, q, clusters, |clusters|);
    var order := ProbeOrder(metric, q, clusters);
    var own := Cand(metric(q, clusters[c].centroid), c);
    ProbeOrderFacts(metric, q, clusters);
    ClusterScoresSize(metric, q, clusters, |clusters|);
    assert own in scores && own in multiset(order);
    p :| 0 <= p < |order| && order[p] == own;
    SmallerAreBefore(scores, p);
    AheadSize(metric, q, clusters, c);
  }

  lemma SamePosition(metric: Metric, q: Vec, clusters: seq<Cluster>, i: nat, p: nat)
    requires i < |ProbeOrder(metric, q, clusters)| && p < |ProbeOrder(metric, q, clusters)|
    requires ProbeOrder(metric, q, clusters)[i].id == ProbeOrder(metric, q, clusters)[p].id
    ensures i == p
  {
    var scores := ClusterScoresUpTo(metric, q, clusters, |clusters|);
    var order := ProbeOrder(metric, q, clusters);
    assert order[i] in multiset(order) && order[p] in multiset(order);
    assert order[i] == order[p];
    if i < p { OnceInOrder(scores, order, i, p); }
    if p < i { OnceInOrder(scores, order, p, i); }
  }

  lemma AheadSize(metric: Metric, q: Vec, clusters: seq<Cluster>, c: nat)
    requires c < |clusters|
    ensures var own := Cand(metric(q, clusters[c].centroid), c);
      |set x | x in ClusterScoresUpTo(metric, q, clusters, |clusters|) && Less(x, own)| ==
      |Ahead(metric, q, clusters, c)|
  {
    var own := Cand(metric(q, clusters[c].centroid), c);
    var smaller := set x | x in ClusterScoresUpTo(metric, q, clusters, |clusters|) && Less(x, own);
    forall j | j in Ahead(metric, q, clusters, c) ensures exists x :: x in smaller && x.id == j {
      assert Cand(metric(q, clusters[j].centroid), j) in smaller;
    }
    IdsOfPositions(smaller, Ahead(metric, q, clusters, c));
  }

  lemma {:induction false} ListedByOne(clusters: seq<Cluster>, order: seq<Cand>, id: Id)
    requires Positions(order, |clusters|)
    ensures id in ListedIn(clusters, order) <==>
      exists p :: 0 <= p < |order| && id in clusters[order[p].id].ids
    decreases |order|
  {
    if order != [] {
      var rest, last := order[..|order| - 1], |order| - 1;
      ListedByOne(clusters, rest, id);
      if id in ListedIn(clusters, rest) {
        var p :| 0 <= p < |rest| && id in clusters[rest[p].id].ids;
        assert order[p] == rest[p];
      }
      if p :| 0 <= p < |order| && id in clusters[order[p].id].ids {
        if p < last { assert rest[p] == order[p]; }
      }
    }
  }

  /** A stored id that some cluster lists before which fewer than `nProbe` clusters come. */
  ghost predicate InReach(sp: Space, q: Vec, clusters: seq<Cluster>, nProbe: nat, id: Id) {
    id in sp.vectors && exists c ::
      0 <= c < |clusters| && id in clusters[c].ids && |Ahead(sp.metric, q, clusters, c)| < nProbe
  }

  lemma ReachIsListed(sp: Space, q: Vec, clusters: seq<Cluster>, nProbe: nat, id: Id)
    ensures InReach(sp, q, clusters, nProbe, id) <==>
      id in sp.vectors && id in ListedIn(clusters, Probes(sp.metric, q, clusters, nProbe))
  {
    var probes := Probes(sp.metric, q, clusters, nProbe);
    ListedByOne(clusters, probes, id);
    if InReach(sp, q, clusters, nProbe, id) {
      var c :| 0 <= c < |clusters| && id in clusters[c].ids && |Ahead(sp.metric, q, clusters, c)| < nProbe;
      ProbedIff(sp.metric, q, clusters, nProbe, c);
    }
    if p :| 0 <= p < |probes| && id in clusters[probes[p].id].ids {
      ProbedIff(sp.metric, q, clusters, nProbe, probes[p].id);
    }
  }

  /**
   The answer as the caller sees it: only ids in reach, with their distances, best first;
   and each id in reach is there, or there are `k` entries none of which is above it.
  */
  lemma AnswersReach(sp: Space, q: Vec, clusters: seq<Cluster>, nProbe: nat, k: nat)
    ensures var answer := Answer(sp, q, clusters, nProbe, k);
      && |answer| <= k && Sorted(answer)
      && (forall c :: c in answer ==> InReach(sp, q, clusters, nProbe, c.id) && c == sp.Score(q, c.id))
      && (forall id :: InReach(sp, q, clusters, nProbe, id) ==>
            sp.Score(q, id) in answer || (|answer| == k && forall c :: c in answer ==> Leq(c, sp.Score(q, id))))
  {
    var answer := Answer(sp, q, clusters, nProbe, k);
    forall c | c in answer ensures InReach(sp, q, clusters, nProbe, c.id) && c == sp.Score(q, c.id) {
      AnswerInReach(sp, q, clusters, nProbe, k, c);
    }
    forall id | InReach(sp, q, clusters, nProbe, id)
      ensures sp.Score(q, id) in answer || (|answer| == k && forall c :: c in answer ==> Leq(c, sp.Score(q, id)))
    {
      ReachAnswered(sp, q, clusters, nProbe, k, id);
    }
  }

  lemma AnswerInReach(sp: Space, q: Vec, clusters: seq<Cluster>, nProbe: nat, k: nat, c: Cand)
    requires c in Answer(sp, q, clusters, nProbe, k)
    ensures InReach(sp, q, clusters, nProbe, c.id) && c == sp.Score(q, c.id)
  {
    var seen := Scored(sp, q, ListedIn(clusters, Probes(sp.metric, q, clusters, nProbe)));
    assert c in Ascending(seen);
    assert c in multiset(Ascending(seen));
    ReachIsListed(sp, q, clusters, nProbe, c.id);
  }

  lemma ReachAnswered(sp: Space, q: Vec, clusters: seq<Cluster>, nProbe: nat, k: nat, id: Id)
    requires InReach(sp, q, clusters, nProbe, id)
    ensures var answer := Answer(sp, q, clusters, nProbe, k);
      sp.Score(q, id) in answer || (|answer| == k && forall c :: c in answer ==> Leq(c, sp.Score(q, id)))
  {
    var seen := Scored(sp, q, ListedIn(clusters, Probes(sp.metric, q, clusters, nProbe)));
    ReachIsListed(sp, q, clusters, nProbe, id);
    assert seen[sp.Score(q, id)] > 0;
    InOrBeyond(seen, sp.Score(q, id), k);
  }

  lemma InOrBeyond(seen: multiset<Cand>, c: Cand, k: nat)
    requires c in seen
    ensures c in TopK(seen, k) || (|TopK(seen, k)| == k && forall x :: x in TopK(seen, k) ==> Leq(x, c))
  {
    var all, top := Ascending(seen), TopK(seen, k);
    assert c in multiset(all);
    var p :| 0 <= p < |all| && all[p] == c;
    if p < |top| {
      assert top[p] == c;
    } else {
      forall x | x in top ensures Leq(x, c) {
        var i :| 0 <= i < |top| && top[i] == x;
        assert all[i] == x;
      }
    }
  }

  // ----- More probes -----

  lemma {:induction false} ListedInGrows(clusters: seq<Cluster>, order: seq<Cand>, p: nat)
    requires Positions(order, |clusters|) && p <= |order|
    ensures ListedIn(clusters, order[..p]) <= ListedIn(clusters, order)
    decreases |order|
  {
    if p == |order| {
      assert order[..p] == order;
    } else {
      ListedInGrows(clusters, order[..|order| - 1], p);
      assert order[..|order| - 1][..p] == order[..p];
    }
  }

  lemma ProbesGrow(metric: Metric, q: Vec, clusters: seq<Cluster>, few: nat, many: nat)
    requires few <= many
    ensures Probes(metric, q, clusters, few) <= Probes(metric, q, clusters, many)
    ensures ListedIn(clusters, Probes(metric, q, clusters, few)) <=
      ListedIn(clusters, Probes(metric, q, clusters, many))
  {
    var fewer, more := Probes(metric, q, clusters, few), Probes(metric, q, clusters, many);
    ProbeOrderFacts(metric, q, clusters);
    assert fewer == more[..|fewer|];
    ListedInGrows(clusters, more, |fewer|);
  }

  /** More probes never give fewer results, and the i-th result never gets worse. */
  lemma MoreProbesNoWorse(sp: Space, q: Vec, clusters: seq<Cluster>, few: nat, many: nat, k: nat)
    requires few <= many
    ensures var a, b := Answer(sp, q, clusters, few, k), Answer(sp, q, clusters, many, k);
      |a| <= |b| && forall i :: 0 <= i < |a| ==> b[i].dist <= a[i].dist
  {
    ProbesGrow(sp.metric, q, clusters, few, many);
    var seenFew := Scored(sp, q, ListedIn(clusters, Probes(sp.metric, q, clusters, few)));
    var seenMany := Scored(sp, q, ListedIn(clusters, Probes(sp.metric, q, clusters, many)));
    forall c ensures seenFew[c] <= seenMany[c] {}
    TopKMonotone(seenFew, seenMany, k);
    forall i | 0 <= i < |TopK(seenFew, k)| ensures TopK(seenMany, k)[i].dist <= TopK(seenFew, k)[i].dist {
      assert Leq(TopK(seenMany, k)[i], TopK(seenFew, k)[i]);
    }
  }

  // ----- Self-recall -----

  /** Every stored id is listed by the cluster nearest to its current vector. */
  ghost predicate Covers(metric: Metric, vectors: map<Id, Vec>, clusters: seq<Cluster>) {
    forall id :: id in vectors ==>
      clusters != [] && id in clusters[Nearest(metric, vectors[id], Centroids(clusters))].ids
  }

  lemma LeastClusterScore(metric: Metric, q: Vec, clusters: seq<Cluster>)
    requires clusters != []
    ensures ClusterScoresUpTo(metric, q, clusters, |clusters|) != {}
    ensures Least(ClusterScoresUpTo(metric, q, clusters, |clusters|)).id == Nearest(metric, q, Centroids(clusters))
  {
    var centers := Centroids(clusters);
    var j := Nearest(metric, q, centers);
    assert IsNearest(metric, q, centers, j);
    var scores := ClusterScoresUpTo(metric, q, clusters, |clusters|);
    var best := Cand(metric(q, clusters[j].centroid), j);
    assert best in scores;
    var first := Least(scores);
    assert first.dist == metric(q, centers[first.id]);
    assert Leq(first, best);
  }

  /** The first cluster probed is the one that `find_nearest_cluster` names. */
  lemma FirstProbeIsNearest(metric: Metric, q: Vec, clusters: seq<Cluster>)
    requires clusters != []
    ensures ProbeOrder(metric, q, clusters) != []
    ensures ProbeOrder(metric, q, clusters)[0].id == Nearest(metric, q, Centroids(clusters))
  {
    LeastClusterScore(metric, q, clusters);
    AscendingSet(ClusterScoresUpTo(metric, q, clusters, |clusters|));
  }

  /** A query equal to a stored vector is answered with something at least as near as that vector. */
  lemma SelfRecall(sp: Space, id: Id, clusters: seq<Cluster>, nProbe: nat, k: nat)
    requires id in sp.vectors && Covers(sp.metric, sp.vectors, clusters) && nProbe >= 1 && k >= 1
    ensures var q := sp.vectors[id];
      var answer := Answer(sp, q, clusters, nProbe, k);
      answer != [] && answer[0].dist <= sp.metric(q, q)
  {
    CoveredIsFound(sp, id, clusters, nProbe, k);
  }

  /** It is enough that this one vector is listed with its nearest centroid. */
  lemma CoveredIsFound(sp: Space, id: Id, clusters: seq<Cluster>, nProbe: nat, k: nat)
    requires id in sp.vectors && clusters != [] && nProbe >= 1 && k >= 1
    requires id in clusters[Nearest(sp.metric, sp.vectors[id], Centroids(clusters))].ids
    ensures var q := sp.vectors[id];
      var answer := Answer(sp, q, clusters, nProbe, k);
      answer != [] && answer[0].dist <= sp.metric(q, q)
  {
    var q := sp.vectors[id];
    NearestIsProbed(sp.metric, q, clusters, nProbe, id);
    var seen := Scored(sp, q, ListedIn(clusters, Probes(sp.metric, q, clusters, nProbe)));
    assert seen[sp.Score(q, id)] > 0;
    FirstIsBest(seen, sp.Score(q, id), k);
  }

  lemma NearestIsProbed(metric: Metric, q: Vec, clusters: seq<Cluster>, nProbe: nat, id: Id)
    requires clusters != [] && nProbe >= 1
    requires id in clusters[Nearest(metric, q, Centroids(clusters))].ids
    ensures id in ListedIn(clusters, Probes(metric, q, clusters, nProbe))
  {
    var probes := Probes(metric, q, clusters, nProbe);
    FirstProbeIsNearest(metric, q, clusters);
    ProbeOrderFacts(metric, q, clusters);
    ListedFirst(clusters, probes);
  }

  lemma ListedFirst(clusters: seq<Cluster>, order: seq<Cand>)
    requires Positions(order, |clusters|) && order != []
    ensures multiset(clusters[order[0].id].ids) <= ListedIn(clusters, order)
  {
  }

  lemma FirstIsBest(seen: multiset<Cand>, c: Cand, k: nat)
    requires c in seen && k >= 1
    ensures TopK(seen, k) != [] && TopK(seen, k)[0] in seen && Leq(TopK(seen, k)[0], c)
  {
  }

  /** With the Euclidean distance the first result has score zero. */
  lemma EuclideanSelfRecall(sp: Space, id: Id, clusters: seq<Cluster>, nProbe: nat, k: nat, dim: nat)
    requires IsEuclidean(sp.metric) && forall i :: i in sp.vectors ==> |sp.vectors[i]| == dim
    requires id in sp.vectors && Covers(sp.metric, sp.vectors, clusters) && nProbe >= 1 && k >= 1
    ensures var answer := Answer(sp, sp.vectors[id], clusters, nProbe, k);
      answer != [] && answer[0].dist == 0.0
  {
    var q := sp.vectors[id];
    SelfRecall(sp, id, clusters, nProbe, k);
    SqDistZero(q, q);
    SquareFacts(sp.metric(q, q));
    var seen := Scored(sp, q, ListedIn(clusters, Probes(sp.metric, q, clusters, nProbe)));
    FirstIsSeen(seen, k);
    var first := TopK(seen, k)[0];
    assert seen[first] > 0;
    assert first.id in sp.vectors && first == sp.Score(q, first.id);
  }

  lemma FirstIsSeen(seen: multiset<Cand>, k: nat)
    requires TopK(seen, k) != []
    ensures TopK(seen, k)[0] in seen
  {
  }
}
