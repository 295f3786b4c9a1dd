/** Short runs of the HNSW index that reach the failures described in the other modules. */
module HnswWitnesses {
  import opened Ranking
  import opened Vectors
  import opened Spaces
  import opened HnswGraph
  import opened HnswLink
  import opened HnswState
  import opened HnswEmptied
  import opened HnswCrowded
  import opened HnswStale
  import opened Hnsw
  import Pending

  // ----- A removed entry point -----

  /** The graph of node 1, drawn onto layer 1. */
  ghost function FirstNode(): State {
    State({1}, map[1 := 1], [map[], map[]], 1, 1)
  }

  lemma FirstNodeDrawn(sp: Space, s1: State, t1: Trail, m0: nat, m: nat, ef: nat)
    requires Inserts(sp, State({}, map[], [], 0, -1), s1, 1, 1, t1, m0, m, ef)
    ensures s1 == FirstNode()
  {
    var bare: Layer := map[];
    assert seq(2, _ => bare) == [bare, bare];
    assert [] + s1.layers == s1.layers;
  }

  lemma FirstNodeOk(m0: nat, m: nat)
    ensures IsGraph(FirstNode(), m0, m) && AllMutual(FirstNode())
  {
    forall l | 0 <= l < 2 ensures LayerOk(FirstNode().layers[l], AtLevel(FirstNode(), l), Degree(l, m0, m)) {
      assert AtLevel(FirstNode(), l) <= {1};
    }
  }

  /** Then node 2 onto layer 0: without node 1 no node lives on the highest layer. */
  lemma SecondNodeDrawn(sp: Space, s2: State, t2: Trail, m0: nat, m: nat, ef: nat)
    requires Inserts(sp, FirstNode(), s2, 2, 0, t2, m0, m, ef)
    ensures s2.inserted == {1, 2} && s2.entry == 1 && !Anchored(s2, {1})
  {
    assert s2.levels == map[1 := 1, 2 := 0] && s2.top == 1;
  }

  /**
   How an entry point goes stale: node 1 is drawn onto layer 1, node 2 onto layer 0, and
   the vector of node 1 is removed. Every search then fails, although node 2 is stored.
  */
  method RemovedEntryPoint(metric: Metric, m: nat, efC: nat, efS: nat, farthest: real, v1: Vec, v2: Vec, q: Vec)
    returns (answer: Answer)
    requires 2 <= m < 0x8000_0000
    ensures answer == MissingVector(1)
  {
    var index := new Index(metric, m, efC, efS);
    InsertTwo(index, Space(map[1 := v1, 2 := v2], metric, farthest));
    answer := RemoveEntryPoint(index, Space(map[2 := v2], metric, farthest), q);
  }

  method RemoveEntryPoint(index: Index, sp: Space, q: Vec) returns (answer: Answer)
    requires index.View() == Pending.Sets({1, 2}, {}, {}) && index.entryPoint == 1 && sp.vectors.Keys == {2}
    requires index.GraphOk() && AllMutual(index.Graph()) && !Anchored(index.Graph(), {1})
    modifies index
    ensures answer == MissingVector(1)
  {
    index.OnVectorsRemoved([1]);
    assert index.toBeRemoved == {1} && index.inserted - {1} == {2};
    assert LosesTop(index.Graph(), index.View(), index.M0(), index.M);
    ghost var ep, found, visited;
    answer, ep, found, visited := index.SearchKnn(sp, q, 1);
  }

  /**
   And how it comes to hide the others: in the same index the vector of node 1 is updated.
   At whatever level it is inserted again, it is linked to itself, and every search answers
   with it alone.
  */
  method UpdatedEntryPoint(metric: Metric, m: nat, efC: nat, efS: nat, farthest: real, v1: Vec, v2: Vec, q: Vec)
    returns (index: Index, answer: Answer)
    requires 2 <= m < 0x8000_0000
    ensures index.inserted == {1, 2} && SelfLinked(index.neighbours, 1)
    ensures answer == Hits([Space(map[1 := v1, 2 := v2], metric, farthest).Score(q, 1)])
  {
    var sp := Space(map[1 := v1, 2 := v2], metric, farthest);
    index := new Index(metric, m, efC, efS);
    InsertTwo(index, sp);
    UpdateEntryPoint(index, sp);
    ghost var s := index.Graph();
    ghost var ep, found, visited;
    answer, ep, found, visited := index.SearchKnn(sp, q, 2);
    SearchIsAlone(sp, s, q, 2, index.efSearch, answer, ep, found, visited);
  }

  method UpdateEntryPoint(index: Index, sp: Space)
    requires index.View() == Pending.Sets({1, 2}, {}, {}) && index.entryPoint == 1
    requires 1 in sp.vectors && 1 <= index.M < 0x8000_0000
    requires index.GraphOk() && !Anchored(index.Graph(), {1})
    modifies index
    ensures index.View() == Pending.Sets({1, 2}, {}, {}) && index.entryPoint == 1
    ensures WellFormed(index.Graph()) && AloneOn(index.neighbours, 1) && SelfLinked(index.neighbours, 1)
  {
    index.OnVectorsAdded([1]);
    assert index.View() == Pending.Sets({1, 2}, {1}, {1});
    BuildUpdate(index, sp);
  }

  method BuildUpdate(index: Index, sp: Space)
    requires index.View() == Pending.Sets({1, 2}, {1}, {1}) && index.entryPoint == 1
    requires 1 in sp.vectors && index.M0() >= 1
    requires index.GraphOk() && !Anchored(index.Graph(), {1})
    modifies index
    ensures index.View() == Pending.Sets({1, 2}, {}, {}) && index.entryPoint == 1
    ensures WellFormed(index.Graph()) && AloneOn(index.neighbours, 1) && SelfLinked(index.neighbours, 1)
  {
    ghost var before := index.Graph();
    UpdatedIds(sp.vectors.Keys);
    ghost var stages := index.BuildGraph(sp);
    EntryUpdated(sp, sp.vectors.Keys, before, index.Graph(), stages, index.M0(), index.M, index.efConstruction);
  }

  lemma UpdatedIds(keys: set<Id>)
    requires 1 in keys
    ensures Pending.Built(Pending.Sets({1, 2}, {1}, {1}), keys) == Pending.Sets({1, 2}, {}, {})
  {
  }

  lemma EntryUpdated(sp: Space, keys: set<Id>, s: State, after: State, stages: Stages, m0: nat, m: nat, ef: nat)
    requires IsGraph(s, m0, m) && !Anchored(s, {1}) && s.entry == 1 && 1 in sp.vectors && m0 >= 1
    requires Builds(InsertStep(sp, m0, m, ef), keys, s, Pending.Sets({1, 2}, {1}, {1}), after, stages, m0, m, ef)
    ensures WellFormed(after) && after.entry == 1 && AloneOn(after.layers, 1) && SelfLinked(after.layers, 1)
  {
    UpdatedEntry(sp, s, after, {1}, stages, m0, m, ef);
  }

  method InsertTwo(index: Index, sp: Space)
    requires index.Graph() == State({}, map[], [], 0, -1) && index.View() == Pending.Sets({}, {}, {})
    requires 1 in sp.vectors && 2 in sp.vectors && 1 <= index.M < 0x8000_0000
    modifies index
    ensures index.View() == Pending.Sets({1, 2}, {}, {}) && index.entryPoint == 1
    ensures index.GraphOk() && AllMutual(index.Graph()) && !Anchored(index.Graph(), {1})
  {
    ghost var t1 := index.Insert(sp, 1, 1);
    FirstNodeDrawn(sp, index.Graph(), t1, index.M0(), index.M, index.efConstruction);
    InsertSecond(index, sp);
  }

  method InsertSecond(index: Index, sp: Space)
    requires index.Graph() == FirstNode() && index.View() == Pending.Sets({1}, {}, {})
    requires 2 in sp.vectors && 1 <= index.M < 0x8000_0000
    modifies index
    ensures index.View() == Pending.Sets({1, 2}, {}, {}) && index.entryPoint == 1
    ensures index.GraphOk() && AllMutual(index.Graph()) && !Anchored(index.Graph(), {1})
  {
    FirstNodeOk(index.M0(), index.M);
    ghost var t2 := index.Insert(sp, 2, 0);
    SecondNodeDrawn(sp, index.Graph(), t2, index.M0(), index.M, index.efConstruction);
  }

  // ----- A node linked to itself -----

  /**
   Node 1 is added, removed again, and node 2 added, each at whatever level is drawn, with
   a build after each: node 2 is then linked to itself, and removing it is undefined.
  */
  method SelfLinkedNode(metric: Metric, m: nat, efC: nat, efS: nat, farthest: real, v1: Vec, v2: Vec)
    returns (index: Index)
    requires 2 <= m < 0x8000_0000
    ensures index.inserted == {2} && SelfLinked(index.neighbours, 2)
  {
    index := new Index(metric, m, efC, efS);
    AddFirst(index, Space(map[1 := v1], metric, farthest));
    RemoveFirst(index, Space(map[], metric, farthest));
    AddSecond(index, Space(map[2 := v2], metric, farthest));
  }

  method AddFirst(index: Index, sp: Space)
    requires index.Graph() == State({}, map[], [], 0, -1) && index.View() == Pending.Sets({}, {}, {})
    requires sp.vectors.Keys == {1}
    modifies index
    ensures index.GraphOk() && index.View() == Pending.Sets({1}, {}, {})
  {
    index.OnVectorsAdded([1]);
    ghost var stages := index.BuildGraph(sp);
    FirstBuildOk(InsertStep(sp, index.M0(), index.M, index.efConstruction), index.Graph(), stages, index.M0(), index.M,
      index.efConstruction);
  }

  lemma FirstBuildOk(step: NodeStep, after: State, stages: Stages, m0: nat, m: nat, ef: nat)
    requires Builds(step, {1}, NoGraph(), Pending.Sets({}, {1}, {}), after, stages, m0, m, ef)
    ensures IsGraph(after, m0, m)
  {
    EmptyDeserves(NoGraph(), {1}, Fresh, m0, m, ef);
    assert Deserves(Fresh, after, {}, {}, m0, m, ef);
  }

  method RemoveFirst(index: Index, sp: Space)
    requires index.GraphOk() && index.View() == Pending.Sets({1}, {}, {})
    modifies index
    ensures Bare(index.Graph()) && index.maxLayer >= 0 && index.View() == Pending.Sets({}, {}, {})
  {
    ghost var full := index.Graph();
    index.OnVectorsRemoved([1]);
    ghost var stages := index.BuildGraph(sp);
    BuildEmpties(sp, full, index.Graph(), {1}, stages, index.M0(), index.M, index.efConstruction);
  }

  method AddSecond(index: Index, sp: Space)
    requires Bare(index.Graph()) && index.maxLayer >= 0 && index.View() == Pending.Sets({}, {}, {})
    requires sp.vectors.Keys == {2} && 1 <= index.M < 0x8000_0000
    modifies index
    ensures index.View() == Pending.Sets({2}, {}, {}) && SelfLinked(index.neighbours, 2)
  {
    ghost var bare := index.Graph();
    index.OnVectorsAdded([2]);
    ghost var stages := index.BuildGraph(sp);
    FirstSelfLinkIff(sp, bare, index.Graph(), 2, {}, stages, index.M0(), index.M, index.efConstruction);
  }

  // ----- A crowded layer -----

  ghost function UpTo(n: nat): (ids: set<Id>)
    ensures |ids| == n && forall id :: id in ids <==> 1 <= id <= n
  {
    if n == 0 then {} else UpTo(n - 1) + {n}
  }

  /** What nodes 1 to `n`, inserted in this order on layer 0, leave. */
  ghost predicate FullUpTo(index: Index, n: nat)
    reads index
  {
    && index.GraphOk() && BaseConnected(index.Graph()) && BaseComplete(index.Graph())
    && index.View() == Pending.Sets(UpTo(n), {}, {})
  }

  method InsertUpTo(index: Index, sp: Space, n: nat)
    requires index.Graph() == State({}, map[], [], 0, -1) && index.View() == Pending.Sets({}, {}, {})
    requires UpTo(n) <= sp.vectors.Keys && n <= index.M0() + 1 && n <= index.efConstruction + 1
    modifies index
    ensures FullUpTo(index, n)
  {
    for id := 1 to n + 1
      invariant FullUpTo(index, id - 1)
    {
      InsertOneMore(index, sp, id);
    }
  }

  method InsertOneMore(index: Index, sp: Space, id: Id)
    requires id >= 1 && FullUpTo(index, id - 1) && id in sp.vectors
    requires id <= index.M0() + 1 && id <= index.efConstruction + 1
    modifies index
    ensures FullUpTo(index, id)
  {
    ghost var trail := index.Insert(sp, id, 0);
  }

  /**
   Nodes 1 to `M0` + 2 inserted in this order on layer 0, with an `efC` that sees them all:
   the links of the last one are all one-way, and a search for every stored vector misses it.
   So `M0` + 1 nodes are the most that answer like the exact scan however they come.
  */
  method CrowdedIndex(metric: Metric, m: nat, efC: nat, efS: nat, farthest: real, vectors: map<Id, Vec>, q: Vec)
    returns (index: Index, answer: Answer)
    requires 2 <= m < 0x8000_0000 && efC >= 2 * m + 1 && vectors.Keys == UpTo(2 * m + 2)
    ensures index.inserted == vectors.Keys && index.toBeInserted == index.toBeRemoved == {}
    ensures answer.Hits? && (forall c :: c in answer.hits ==> c.id != 2 * m + 2)
    ensures answer != Hits(Space(vectors, metric, farthest).Exact(q, vectors.Keys, 2 * m + 2))
    ensures index.GraphOk() && Crowded(index.Graph(), 2 * m + 2, 2 * m)
  {
    index := new Index(metric, m, efC, efS);
    answer := SearchCrowded(index, Space(vectors, metric, farthest), q, 2 * m + 2);
  }

  method SearchCrowded(index: Index, sp: Space, q: Vec, last: Id) returns (answer: Answer)
    requires index.Graph() == State({}, map[], [], 0, -1) && index.View() == Pending.Sets({}, {}, {})
    requires sp.vectors.Keys == UpTo(last) && last == index.M0() + 2 && index.efConstruction >= last - 1
    modifies index
    ensures index.GraphOk() && Crowded(index.Graph(), last, index.M0())
    ensures index.View() == Pending.Sets(sp.vectors.Keys, {}, {})
    ensures answer.Hits? && (forall c :: c in answer.hits ==> c.id != last)
    ensures answer != Hits(sp.Exact(q, sp.vectors.Keys, last))
  {
    InsertCrowd(index, sp, last);
    answer := SearchCrowd(index, sp, q, last);
  }

  method InsertCrowd(index: Index, sp: Space, last: Id)
    requires index.Graph() == State({}, map[], [], 0, -1) && index.View() == Pending.Sets({}, {}, {})
    requires sp.vectors.Keys == UpTo(last) && last == index.M0() + 2 && index.efConstruction >= last - 1
    modifies index
    ensures index.GraphOk() && Crowded(index.Graph(), last, index.M0())
    ensures index.View() == Pending.Sets(sp.vectors.Keys, {}, {})
  {
    InsertUpTo(index, sp, last - 1);
    InsertLast(index, sp, last);
  }

  method SearchCrowd(index: Index, sp: Space, q: Vec, last: Id) returns (answer: Answer)
    requires last in sp.vectors && exists degree :: Crowded(index.Graph(), last, degree)
    requires index.View() == Pending.Sets(sp.vectors.Keys, {}, {}) && |sp.vectors.Keys| == last
    modifies index
    ensures index.Graph() == old(index.Graph()) && index.View() == old(index.View())
    ensures answer.Hits? && (forall c :: c in answer.hits ==> c.id != last)
    ensures answer != Hits(sp.Exact(q, sp.vectors.Keys, last))
  {
    ghost var s := index.Graph();
    ghost var ep, found, visited;
    answer, ep, found, visited := index.SearchKnn(sp, q, last);
    UnseenIsMissed(sp, s, q, last, index.efSearch, answer, ep, found, visited, last);
    ExactHasAll(sp, q, sp.vectors.Keys, last);
  }

  method InsertLast(index: Index, sp: Space, id: Id)
    requires id == index.M0() + 2 && FullUpTo(index, id - 1) && id in sp.vectors && index.efConstruction >= id - 1
    modifies index
    ensures index.GraphOk() && Crowded(index.Graph(), id, index.M0())
    ensures index.View() == Pending.Sets(UpTo(id), {}, {})
  {
    ghost var before := index.Graph();
    ghost var trail := index.Insert(sp, id, 0);
    LastIsUnseen(sp, before, index.Graph(), id, trail, index.M0(), index.M, index.efConstruction);
  }

  /** Asked for as many as there are, the exact scan returns them all. */
  lemma ExactHasAll(sp: Space, q: Vec, ids: set<Id>, id: Id)
    requires id in ids
    ensures exists c :: c in sp.Exact(q, ids, |ids|) && c.id == id
  {
    sp.ScoresSize(q, ids);
    var all := multiset(sp.Scores(q, ids));
    assert TopK(all, |ids|) == Ascending(all);
    assert sp.Score(q, id) in multiset(Ascending(all));
  }
}
