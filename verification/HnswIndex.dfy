/** The index class of `indices/hnsw.cpp` and `indices/hnsw.h`. */
module Hnsw {
  import opened Ranking
  import opened Batches
  import opened Iteration
  import opened Vectors
  import opened Spaces
  import opened HnswGraph
  import opened HnswSearch
  import opened HnswLink
  import opened HnswState
  import opened HnswEmptied
  import opened HnswCrowded
  import opened HnswStale
  import Pending

  /** A search either answers or runs into an id whose vector is gone. */
  datatype Answer = Hits(hits: seq<Cand>) | MissingVector(id: Id)

  /** The best entries are reported, unless one of them has no vector any more. */
  ghost predicate Reports(sp: Space, best: seq<Cand>, answer: Answer) {
    match answer
    case Hits(hits) => hits == best && forall c :: c in best ==> c.id in sp.vectors
    case MissingVector(id) => id !in sp.vectors && exists c :: c in best && c.id == id
  }

  /** What a search without pending updates answers, on any graph. */
  ghost predicate Searched(sp: Space, s: State, q: Vec, k: nat, efSearch: nat, answer: Answer, ep: set<Id>,
                           found: set<Cand>, visited: set<Id>)
    requires WellFormed(s)
  {
    if s.inserted == {} || k == 0 then answer == Hits([])
    else
      && ep != {} && Descends(sp, s.layers, q, {s.entry}, s.top, 0, ep)
      && SearchOutcome(sp, s.layers[0], q, ep, Max(Min(k, |s.inserted|), efSearch), found, visited)
      && Reports(sp, TopK(multiset(found), Min(k, |s.inserted|)), answer)
  }

  /** Where there are upper layers, the bottom search starts where the descent settled. */
  lemma SearchSettles(sp: Space, s: State, q: Vec, k: nat, efSearch: nat, answer: Answer, ep: set<Id>, found: set<Cand>,
                      visited: set<Id>)
    requires WellFormed(s) && s.inserted != {} && k > 0 && s.top >= 1
    requires Searched(sp, s, q, k, efSearch, answer, ep, found, visited)
    ensures exists y :: ep == {y} && Settled(sp, s.layers[1], q, s.entry, y)
  {
    DescentSettles(sp, s.layers, q, s.entry, s.top, 0, ep);
  }

  /**
   On any graph: the hits are the best of all nodes that the bottom search has seen, and
   it has seen the neighbours of the `Max(k, efSearch)` best of them.
  */
  lemma HitsAreBestSeen(sp: Space, s: State, q: Vec, k: nat, efSearch: nat, hits: seq<Cand>, ep: set<Id>,
                        found: set<Cand>, visited: set<Id>)
    requires WellFormed(s) && s.inserted != {} && k > 0
    requires Searched(sp, s, q, k, efSearch, Hits(hits), ep, found, visited)
    ensures |hits| == Min(Min(k, |s.inserted|), |visited|) && ep <= visited
    ensures forall h :: h in hits ==> h.id in visited && h == sp.Score(q, h.id)
    ensures forall v :: v in visited && sp.Score(q, v) !in hits ==> forall h :: h in hits ==> h.dist <= sp.Dist(q, v)
    ensures Min(Max(Min(k, |s.inserted|), efSearch), |visited|) <= |found|
    ensures forall c :: c in found ==> c == sp.Score(q, c.id) && Nbrs(s.layers[0], c.id) <= visited
  {
    var n := Min(k, |s.inserted|);
    BestAreFound(found, n);
    forall v | v in visited && sp.Score(q, v) !in hits
      ensures forall h :: h in hits ==> h.dist <= sp.Dist(q, v)
    {
      if sp.Score(q, v) in found { RestIsNoBetter(found, n, sp.Score(q, v)); }
    }
  }

  lemma RestIsNoBetter(found: set<Cand>, k: nat, c: Cand)
    requires c in found && c !in TopK(multiset(found), k)
    ensures forall h :: h in TopK(multiset(found), k) ==> Leq(h, c)
  {
    var all := Ascending(multiset(found));
    assert c in multiset(all);
    var i :| 0 <= i < |all| && all[i] == c;
    assert TopK(multiset(found), k) == all[..Min(k, |multiset(found)|)];
    assert i >= |TopK(multiset(found), k)|;
  }

  /** With room for every node, a search of a connected graph answers like the exact scan. */
  lemma SearchIsExact(sp: Space, s: State, q: Vec, k: nat, efSearch: nat, answer: Answer, ep: set<Id>, found: set<Cand>,
                      visited: set<Id>)
    requires Searchable(s) && s.inserted <= sp.vectors.Keys && Max(k, efSearch) >= |s.inserted|
    requires Searched(sp, s, q, k, efSearch, answer, ep, found, visited)
    ensures answer == Hits(sp.Exact(q, s.inserted, k))
  {
    if s.inserted == {} {
      NothingExact(sp, q, k);
    } else if k > 0 {
      assert ClosedLayers(s.layers, s.inserted);
      DescendsInside(sp, s.layers, q, {s.entry}, s.top, 0, ep, s.inserted);
      BaseSearchIsExact(sp, s, q, ep, Max(Min(k, |s.inserted|), efSearch), found, visited);
      ExactReport(sp, q, s.inserted, k, answer);
    }
  }

  /** What a search answers that sees its entry point alone. */
  ghost function EntryOnly(sp: Space, q: Vec, entry: Id): Answer {
    if entry in sp.vectors then Hits([sp.Score(q, entry)]) else MissingVector(entry)
  }

  lemma SearchIsAlone(sp: Space, s: State, q: Vec, k: nat, efSearch: nat, answer: Answer, ep: set<Id>, found: set<Cand>,
                      visited: set<Id>)
    requires WellFormed(s) && s.inserted != {} && k > 0 && AloneOn(s.layers, s.entry)
    requires Searched(sp, s, q, k, efSearch, answer, ep, found, visited)
    ensures answer == EntryOnly(sp, q, s.entry)
  {
    DescendsAlone(sp, s.layers, q, s.entry, s.top, 0, ep);
    FoundAlone(sp, s.layers[0], q, s.entry, Max(Min(k, |s.inserted|), efSearch), found, visited);
    AloneReport(sp, sp.Score(q, s.entry), Min(k, |s.inserted|), answer);
  }

  /** The answer speaks of `ids` only. */
  ghost predicate AnswersFrom(answer: Answer, ids: set<Id>) {
    match answer
    case Hits(hits) => forall c :: c in hits ==> c.id in ids
    case MissingVector(id) => id in ids
  }

  /** A search that starts in a set that no link leaves answers from it. */
  lemma SearchStaysInside(sp: Space, s: State, q: Vec, k: nat, efSearch: nat, answer: Answer, ep: set<Id>,
                          found: set<Cand>, visited: set<Id>, ids: set<Id>)
    requires WellFormed(s) && ClosedLayers(s.layers, ids) && s.entry in ids
    requires Searched(sp, s, q, k, efSearch, answer, ep, found, visited)
    ensures AnswersFrom(answer, ids)
  {
    if s.inserted != {} && k > 0 {
      DescendsInside(sp, s.layers, q, {s.entry}, s.top, 0, ep, ids);
      FoundInside(sp, s.layers[0], q, ep, Max(Min(k, |s.inserted|), efSearch), found, visited, ids);
      BestAreFound(found, Min(k, |s.inserted|));
    }
  }

  /** A node that no link leads to is in no answer. */
  lemma UnseenIsMissed(sp: Space, s: State, q: Vec, k: nat, efSearch: nat, answer: Answer, ep: set<Id>,
                       found: set<Cand>, visited: set<Id>, id: Id)
    requires Unseen(s, id) && s.inserted <= sp.vectors.Keys
    requires Searched(sp, s, q, k, efSearch, answer, ep, found, visited)
    ensures answer.Hits? && forall c :: c in answer.hits ==> c.id != id
  {
    SearchStaysInside(sp, s, q, k, efSearch, answer, ep, found, visited, s.inserted - {id});
  }

  lemma BestAreFound(found: set<Cand>, k: nat)
    ensures forall c :: c in TopK(multiset(found), k) ==> c in found
  {
    forall c | c in TopK(multiset(found), k) ensures c in found {
      assert c in Ascending(multiset(found));
      assert c in multiset(Ascending(multiset(found)));
    }
  }

  lemma NothingExact(sp: Space, q: Vec, k: nat)
    ensures sp.Exact(q, {}, k) == []
  {
    assert sp.Scores(q, {}) == {};
  }

  lemma AloneReport(sp: Space, c: Cand, k: nat, answer: Answer)
    requires k > 0 && Reports(sp, TopK(multiset({c}), k), answer)
    ensures answer == if c.id in sp.vectors then Hits([c]) else MissingVector(c.id)
  {
    AscendingSet({c});
    assert {c} - {Least({c})} == {};
    assert TopK(multiset({c}), k) == [c];
  }

  lemma ExactReport(sp: Space, q: Vec, ids: set<Id>, k: nat, answer: Answer)
    requires ids <= sp.vectors.Keys
    requires Reports(sp, TopK(multiset(sp.Scores(q, ids)), Min(k, |ids|)), answer)
    ensures answer == Hits(sp.Exact(q, ids, k))
  {
    sp.ScoresSize(q, ids);
    BestAreFound(sp.Scores(q, ids), Min(k, |ids|));
  }

  /** The hits so far, the candidates still to report, and all of them in order. */
  ghost predicate Reporting(sp: Space, hits: seq<Cand>, rest: set<Cand>, all: seq<Cand>, k: nat) {
    && |hits| <= k
    && hits + Ascending(multiset(rest)) == all
    && forall c :: c in hits ==> c.id in sp.vectors
  }

  /** Lines 348-355. */
  method Report(sp: Space, candidates: set<Cand>, k: nat) returns (answer: Answer)
    ensures Reports(sp, TopK(multiset(candidates), k), answer)
  {
    TopKIsFront(multiset(candidates), k);
    answer := ReportFront(sp, candidates, k, Ascending(multiset(candidates)));
  }

  method ReportFront(sp: Space, candidates: set<Cand>, k: nat, ghost all: seq<Cand>) returns (answer: Answer)
    requires Reporting(sp, [], candidates, all, k)
    ensures Reports(sp, all[..Min(k, |all|)], answer)
  {
    var hits, rest := [], candidates;
    while rest != {} && |hits| < k
      invariant Reporting(sp, hits, rest, all, k)
    {
      var c := Least(rest);
      if c.id !in sp.vectors {
        Missing(sp, hits, rest, all, k);
        return MissingVector(c.id);
      }
      Hit(sp, hits, rest, all, k);
      hits, rest := hits + [c], rest - {c};
    }
    AllHit(hits, rest, all, k);
    answer := Hits(hits);
  }

  lemma TopKIsFront(m: multiset<Cand>, k: nat)
    ensures TopK(m, k) == Ascending(m)[..Min(k, |Ascending(m)|)]
  {
  }

  lemma NextInLine(hits: seq<Cand>, rest: set<Cand>, all: seq<Cand>)
    requires rest != {} && hits + Ascending(multiset(rest)) == all
    ensures (hits + [Least(rest)]) + Ascending(multiset(rest - {Least(rest)})) == all
    ensures |hits| < |all| && all[|hits|] == Least(rest)
  {
    AscendingSet(rest);
    MoveOne(hits, Least(rest), Ascending(multiset(rest - {Least(rest)})), all);
  }

  lemma MoveOne(hits: seq<Cand>, c: Cand, rest: seq<Cand>, all: seq<Cand>)
    requires hits + ([c] + rest) == all
    ensures (hits + [c]) + rest == all && |hits| < |all| && all[|hits|] == c
  {
  }

  lemma AllStored(sp: Space, hits: seq<Cand>, c: Cand)
    requires c.id in sp.vectors && forall h :: h in hits ==> h.id in sp.vectors
    ensures forall h :: h in hits + [c] ==> h.id in sp.vectors
  {
  }

  lemma Hit(sp: Space, hits: seq<Cand>, rest: set<Cand>, all: seq<Cand>, k: nat)
    requires Reporting(sp, hits, rest, all, k) && rest != {} && |hits| < k && Least(rest).id in sp.vectors
    ensures Reporting(sp, hits + [Least(rest)], rest - {Least(rest)}, all, k)
  {
    NextInLine(hits, rest, all);
    AllStored(sp, hits, Least(rest));
  }

  lemma Missing(sp: Space, hits: seq<Cand>, rest: set<Cand>, all: seq<Cand>, k: nat)
    requires Reporting(sp, hits, rest, all, k) && rest != {} && |hits| < k && Least(rest).id !in sp.vectors
    ensures Reports(sp, all[..Min(k, |all|)], MissingVector(Least(rest).id))
  {
    NextInLine(hits, rest, all);
    MissingAt(sp, all, |hits|, k);
  }

  lemma MissingAt(sp: Space, all: seq<Cand>, i: nat, k: nat)
    requires i < |all| && i < k && all[i].id !in sp.vectors
    ensures Reports(sp, all[..Min(k, |all|)], MissingVector(all[i].id))
  {
  }

  lemma AllHit(hits: seq<Cand>, rest: set<Cand>, all: seq<Cand>, k: nat)
    requires hits + Ascending(multiset(rest)) == all && |hits| <= k && (rest == {} || |hits| == k)
    ensures hits == all[..Min(k, |all|)]
  {
  }

  /** What a build of the pending sets `p` makes of a graph, where the ids `keys` have vectors. */
  ghost predicate Builds(step: NodeStep, keys: set<Id>, before: State, p: Pending.Sets, after: State, stages: Stages,
                         m0: nat, m: nat, ef: nat)
  {
    && WellFormed(after)
    && after.inserted == Pending.Built(p, keys).inserted
    && Rebuilt(step, before, after, p.toBeRemoved, p.toBeInserted, stages)
    && (forall grade {:trigger Deserves(grade, after, {}, {}, m0, m, ef)} ::
          Deserves(grade, before, p.toBeInserted, p.toBeRemoved, m0, m, ef) ==>
            Deserves(grade, after, {}, {}, m0, m, ef))
  }

  /** The pending removals take away every node of the highest level. */
  ghost predicate LosesTop(s: State, p: Pending.Sets, m0: nat, m: nat) {
    IsGraph(s, m0, m) && !Anchored(s, p.toBeRemoved)
  }

  /** Others stay, and what is to be inserted is new, or updated; see `SurvivorsLost`. */
  ghost predicate LosesSurvivors(s: State, p: Pending.Sets, m0: nat, m: nat) {
    && LosesTop(s, p, m0, m) && s.inserted - p.toBeRemoved != {}
    && p.toBeInserted !! s.inserted - p.toBeRemoved && 0 !in p.toBeInserted
    && (s.entry in p.toBeInserted ==> |p.toBeInserted| <= m0 && |p.toBeInserted| <= m)
  }

  /** What is left then: an entry point that leads to itself, or to what the build inserts. */
  ghost predicate Strands(s: State, p: Pending.Sets, after: State, m0: nat, m: nat) {
    && (LosesTop(s, p, m0, m) && p.toBeInserted <= {s.entry} && after.inserted != {} ==>
          after.entry == s.entry && AloneOn(after.layers, after.entry))
    && (LosesSurvivors(s, p, m0, m) ==>
          && after.entry in p.toBeInserted + {s.entry}
          && ClosedLayers(after.layers, p.toBeInserted + {s.entry}))
  }

  /** The entry point that is updated is linked to itself exactly if there is room for a link. */
  ghost predicate SelfLinks(s: State, p: Pending.Sets, after: State, m0: nat, m: nat) {
    LosesTop(s, p, m0, m) && p.toBeInserted == {s.entry} ==>
      |after.layers| > 0 && (s.entry in Nbrs(after.layers[0], s.entry) <==> m0 >= 1)
  }

  lemma TopLost(sp: Space, s: State, p: Pending.Sets, after: State, stages: Stages, m0: nat, m: nat, ef: nat)
    requires Rebuilt(InsertStep(sp, m0, m, ef), s, after, p.toBeRemoved, p.toBeInserted, stages)
    ensures Strands(s, p, after, m0, m)
    ensures s.entry in sp.vectors ==> SelfLinks(s, p, after, m0, m)
  {
    if LosesTop(s, p, m0, m) && p.toBeInserted <= {s.entry} {
      EntryLost(sp, s, p, after, stages, m0, m, ef);
    }
    if LosesSurvivors(s, p, m0, m) {
      SurvivorsLost(sp, s, after, p.toBeRemoved, p.toBeInserted, stages, m0, m, ef);
    }
  }

  lemma EntryLost(sp: Space, s: State, p: Pending.Sets, after: State, stages: Stages, m0: nat, m: nat, ef: nat)
    requires Rebuilt(InsertStep(sp, m0, m, ef), s, after, p.toBeRemoved, p.toBeInserted, stages)
    requires LosesTop(s, p, m0, m) && p.toBeInserted <= {s.entry}
    ensures after.inserted != {} ==> after.entry == s.entry && AloneOn(after.layers, after.entry)
    ensures s.entry in sp.vectors ==> SelfLinks(s, p, after, m0, m)
  {
    if p.toBeInserted == {} {
      if after.inserted != {} {
        StaleAfterBuild(InsertStep(sp, m0, m, ef), s, after, p.toBeRemoved, stages, m0, m);
      }
    } else {
      assert p.toBeInserted == {s.entry};
      EntryBack(sp, s, p.toBeRemoved, after, stages, m0, m, ef);
    }
  }

  lemma EntryBack(sp: Space, s: State, gone: set<Id>, after: State, stages: Stages, m0: nat, m: nat, ef: nat)
    requires Rebuilt(InsertStep(sp, m0, m, ef), s, after, gone, {s.entry}, stages)
    requires IsGraph(s, m0, m) && !Anchored(s, gone)
    ensures after.inserted != {} ==> after.entry == s.entry && AloneOn(after.layers, after.entry)
    ensures s.entry in sp.vectors ==>
      |after.layers| > 0 && (s.entry in Nbrs(after.layers[0], s.entry) <==> m0 >= 1)
  {
    if s.entry in sp.vectors {
      UpdatedEntry(sp, s, after, gone, stages, m0, m, ef);
    } else if after.inserted != {} {
      DroppedEntry(sp, s, after, gone, stages, m0, m, ef);
    }
  }

  lemma NothingStranded(s: State, p: Pending.Sets, m0: nat, m: nat)
    requires p.toBeRemoved == {}
    ensures Strands(s, p, s, m0, m)
  {
    if IsGraph(s, m0, m) && s.inserted != {} { assert s.entry in s.inserted - {}; }
  }

  /** Searches see no node that stays, and the entry point alone if nothing else was inserted. */
  lemma StrandedSearch(sp: Space, before: State, p: Pending.Sets, s: State, q: Vec, k: nat, efSearch: nat,
                       answer: Answer, ep: set<Id>, found: set<Cand>, visited: set<Id>, m0: nat, m: nat)
    requires WellFormed(s) && Strands(before, p, s, m0, m)
    requires Searched(sp, s, q, k, efSearch, answer, ep, found, visited)
    ensures LosesTop(before, p, m0, m) && p.toBeInserted <= {before.entry} && s.inserted != {} && k > 0 ==>
      answer == EntryOnly(sp, q, before.entry)
    ensures LosesSurvivors(before, p, m0, m) ==> AnswersFrom(answer, p.toBeInserted + {before.entry})
  {
    if LosesTop(before, p, m0, m) && p.toBeInserted <= {before.entry} && s.inserted != {} && k > 0 {
      SearchIsAlone(sp, s, q, k, efSearch, answer, ep, found, visited);
    }
    if LosesSurvivors(before, p, m0, m) {
      SearchStaysInside(sp, s, q, k, efSearch, answer, ep, found, visited, p.toBeInserted + {before.entry});
    }
  }

  /** Pending updates are built in, and nothing else happens to the graph. */
  ghost predicate BroughtUp(sp: Space, before: State, p: Pending.Sets, after: State, m0: nat, m: nat, ef: nat) {
    if p.toBeInserted == {} && p.toBeRemoved == {} then after == before
    else exists stages ::
      Builds(InsertStep(sp, m0, m, ef), sp.vectors.Keys, before, p, after, stages, m0, m, ef)
  }

  type Move = (State, Pending.Sets, State) -> bool

  ghost function MoveOf(sp: Space, m0: nat, m: nat, ef: nat): Move {
    (s, p, s') => BroughtUp(sp, s, p, s', m0, m, ef)
  }

  /** What a new graph of all stored ids may be. */
  ghost function InitOf(sp: Space, m0: nat, m: nat, ef: nat): State -> bool {
    s => exists stages ::
      Builds(InsertStep(sp, m0, m, ef), sp.vectors.Keys, NoGraph(), Pending.Sets({}, sp.vectors.Keys, {}), s, stages,
             m0, m, ef)
  }

  /** What a search may answer from a graph. */
  ghost function AnswerOf(sp: Space, q: Vec, k: nat, efSearch: nat): (State, Answer) -> bool {
    (s, answer) => WellFormed(s) && exists ep, found, visited ::
      Searched(sp, s, q, k, efSearch, answer, ep, found, visited)
  }

  ghost function NoGraph(): State {
    State({}, map[], [], 0, -1)
  }

  class Index {
    const metric: Metric
    const M: nat
    const efConstruction: nat
    const efSearch: nat

    var inserted: set<Id>
    var toBeInserted: set<Id>
    var toBeRemoved: set<Id>
    var nodeLevels: map<Id, nat>
    var neighbours: seq<Layer>
    var entryPoint: Id
    var maxLayer: int

    /** `M0_ = 2 * M_` on 32-bit unsigned integers. */
    function M0(): nat {
      2 * M % 0x1_0000_0000
    }

    ghost function Graph(): State
      reads this
    {
      State(inserted, nodeLevels, neighbours, entryPoint, maxLayer)
    }

    ghost predicate GraphOk()
      reads this
    {
      IsGraph(Graph(), M0(), M)
    }

    ghost function View(): Pending.Sets
      reads this
    {
      Pending.Sets(inserted, toBeInserted, toBeRemoved)
    }

    constructor (metric: Metric, m: nat, efC: nat, efS: nat)
      requires m < 0x1_0000_0000
      ensures this.metric == metric && M == m && efConstruction == efC && efSearch == efS
      ensures Graph() == State({}, map[], [], 0, -1) && View() == Pending.Sets({}, {}, {})
    {
      this.metric, M, efConstruction, efSearch := metric, m, efC, efS;
      inserted, toBeInserted, toBeRemoved := {}, {}, {};
      nodeLevels, neighbours, entryPoint, maxLayer := map[], [], 0, -1;
    }

    method NoLockClear()
      modifies this
      ensures Graph() == State({}, map[], [], 0, -1) && View() == Pending.Sets({}, {}, {})
    {
      inserted, toBeInserted, toBeRemoved := {}, {}, {};
      nodeLevels, neighbours, entryPoint, maxLayer := map[], [], 0, -1;
    }

    method OnVectorsAdded(ids: seq<Id>)
      modifies `toBeInserted, `toBeRemoved
      ensures View() == Pending.Added(old(View()), ids)
      ensures forall grade ::
        (old(Grown(grade)) && 0 !in ids &&
         Fits(grade, |inserted - toBeRemoved + toBeInserted|, M0(), M, efConstruction) &&
         (toBeRemoved != {} ==> grade.Mirrors() && Anchored(Graph(), toBeRemoved))) ==> Grown(grade)
      ensures old(Refills()) && 0 !in ids && toBeRemoved == old(toBeRemoved) ==>
        (|inserted - toBeRemoved + toBeInserted| <= M0() ==> Refills())
    {
      for i := 0 to |ids|
        invariant unchanged(`inserted)
        invariant Pending.Added(View(), ids[i..]) == Pending.Added(old(View()), ids)
      {
        if ids[i] in inserted {
          toBeRemoved := toBeRemoved + {ids[i]};
        }
        toBeInserted := toBeInserted + {ids[i]};
        assert ids[i..][1..] == ids[i + 1..];
      }
      Pending.AddedFacts(old(View()), ids);
      PendingChanged(Graph(), old(toBeInserted), old(toBeRemoved), toBeInserted, toBeRemoved);
    }

    method OnVectorsRemoved(ids: seq<Id>)
      modifies `toBeInserted, `toBeRemoved
      ensures View() == Pending.Removed(old(View()), ids)
      ensures forall grade ::
        (old(Grown(grade)) && (toBeRemoved != {} ==> grade.Mirrors() && Anchored(Graph(), toBeRemoved))) ==>
          Grown(grade)
      ensures old(Refills()) && toBeRemoved == old(toBeRemoved) ==> Refills()
      ensures GraphOk() && inserted <= toBeRemoved && 0 !in toBeInserted && |toBeInserted| <= M0() ==> Refills()
    {
      for i := 0 to |ids|
        invariant unchanged(`inserted)
        invariant Pending.Removed(View(), ids[i..]) == Pending.Removed(old(View()), ids)
      {
        if ids[i] in toBeInserted {
          toBeInserted := toBeInserted - {ids[i]};
        } else {
          toBeRemoved := toBeRemoved + {ids[i]};
        }
        assert ids[i..][1..] == ids[i + 1..];
      }
      FewerPending(Graph(), old(View()), ids);
      Pending.RemovedFacts(old(View()), ids);
      LessToRefill(Graph(), old(toBeInserted), toBeInserted, toBeRemoved);
    }

    lemma LessToRefill(s: State, waiting: set<Id>, waiting': set<Id>, gone: set<Id>)
      requires waiting' <= waiting
      ensures Refillable(s, waiting, gone, M0(), M) ==> Refillable(s, waiting', gone, M0(), M)
      ensures IsGraph(s, M0(), M) && s.inserted <= gone && 0 !in waiting' && |waiting'| <= M0() ==>
        Refillable(s, waiting', gone, M0(), M)
    {
      SubsetSize(s.inserted - gone + waiting', s.inserted - gone + waiting);
      if s.inserted <= gone { assert s.inserted - gone + waiting' == waiting'; }
    }

    /**
     The greedy descent of `insert` (lines 206-210) and `search_knn` (lines 341-345):
     one nearest node a layer, from the top down to just above `floor`.
    */
    method Descend(sp: Space, q: Vec, floor: nat) returns (ep: set<Id>)
      requires WellFormed(Graph())
      ensures |ep| == 1
      ensures Descends(sp, neighbours, q, {entryPoint}, maxLayer, floor, ep)
      ensures LayersOk(Graph(), M0(), M) && entryPoint in AtLevel(Graph(), maxLayer) ==>
        ep <= AtLevel(Graph(), Min(floor, maxLayer))
    {
      ep := {entryPoint};
      var lc := maxLayer;
      ghost var s, hop := Graph(), HopsFor(sp, q);
      ghost var ok := LayersOk(s, M0(), M) && entryPoint in AtLevel(s, maxLayer);
      while lc > floor
        invariant lc <= maxLayer && (lc < maxLayer ==> floor <= lc)
        invariant |ep| == 1
        invariant forall to :: DescendsBy(hop, s.layers, ep, lc, floor, to) ==>
          DescendsBy(hop, s.layers, {entryPoint}, maxLayer, floor, to)
        invariant ok ==> ep <= AtLevel(s, lc)
      {
        var candidates, visited := SearchLayer(sp, neighbours[lc], q, ep, 1);
        if ok {
          WalkOverLayer(sp, s.layers[lc], q, ep, 1, candidates, visited, AtLevel(s, lc), Degree(lc, M0(), M));
        }
        ghost var from := ep;
        ep := {Least(candidates).id};
        assert Hop(sp, s.layers[lc], q, from, ep);
        assert hop(s.layers[lc], from, ep);
        lc := lc - 1;
      }
    }

    /** A new node about to be linked, with entry points on its top layer or above. */
    ghost predicate MayLink(s: State, id: Id, nodeLevel: nat, ep: set<Id>) {
      && LayersOk(s, M0(), M)
      && id !in s.inserted && s.inserted <= s.levels.Keys
      && ep <= AtLevel(s, Min(nodeLevel, s.top))
    }

    /** Lines 213-263. */
    method ConnectLayers(sp: Space, q: Vec, id: Id, nodeLevel: nat, ep0: set<Id>, ghost rewired: Rewiring)
      returns (ghost eps: map<int, set<Id>>)
      requires WellFormed(Graph()) && ep0 != {}
      requires forall g, g', ep, found, degree
        {:trigger Rewired(sp, g, g', q, id, ep, found, efConstruction, degree)} ::
        ep != {} && Rewired(sp, g, g', q, id, ep, found, efConstruction, degree) ==> rewired(g, g', ep, found, degree)
      modifies `neighbours
      ensures |neighbours| == old(|neighbours|)
      ensures RewiredDown(rewired, old(neighbours), neighbours, eps, Min(nodeLevel, maxLayer), -1, M0(), M)
      ensures eps[Min(nodeLevel, maxLayer)] == ep0
      ensures MayLink(old(Graph()), id, nodeLevel, ep0) ==>
        && LinkedAbove(-1, old(Graph()), neighbours, id, nodeLevel, M0(), M)
        && BaseLinked(old(Graph()), neighbours, id, M0(), efConstruction)
        && MutualKept(old(Graph()), neighbours, M0(), M)
    {
      ghost var s := Graph();
      ghost var ok := MayLink(s, id, nodeLevel, ep0);
      var ep := ep0;
      var lc := Min(nodeLevel, maxLayer);
      eps := map[lc := ep0];
      if ok { NothingLinkedYet(s, id, nodeLevel, M0(), M); BottomLevel(s); }
      while lc >= 0
        invariant lc <= Min(nodeLevel, maxLayer)
        invariant Connecting(ok, rewired, s, neighbours, eps, ep, lc, id, nodeLevel, M0(), M, efConstruction)
        invariant eps[Min(nodeLevel, maxLayer)] == ep0
      {
        ep, eps := ConnectLayer(sp, q, id, nodeLevel, lc, ep, ok, rewired, s, eps);
        lc := lc - 1;
      }
    }

    /** Lines 213-262, for layer `lc`. */
    method ConnectLayer(sp: Space, q: Vec, id: Id, nodeLevel: nat, lc: nat, ep: set<Id>, ghost ok: bool,
                        ghost rewired: Rewiring, ghost s: State, ghost eps: map<int, set<Id>>)
      returns (ep': set<Id>, ghost eps': map<int, set<Id>>)
      requires Connecting(ok, rewired, s, neighbours, eps, ep, lc, id, nodeLevel, M0(), M, efConstruction)
      requires ok ==> LayersOk(s, M0(), M) && id !in s.inserted && s.inserted <= s.levels.Keys
      requires forall g, g', ep, found, degree
        {:trigger Rewired(sp, g, g', q, id, ep, found, efConstruction, degree)} ::
        ep != {} && Rewired(sp, g, g', q, id, ep, found, efConstruction, degree) ==> rewired(g, g', ep, found, degree)
      modifies `neighbours
      ensures Connecting(ok, rewired, s, neighbours, eps', ep', lc - 1, id, nodeLevel, M0(), M, efConstruction)
      ensures eps' == eps[lc - 1 := ep']
    {
      var layerM := if lc == 0 then M0() else M;
      var g;
      g, ep' := Connect(sp, neighbours[lc], q, id, ep, efConstruction, layerM, AtLevel(s, lc));
      ConnectNext(ok, rewired, s, neighbours, eps, ep, lc, id, nodeLevel, M0(), M, efConstruction, g, ep');
      neighbours := neighbours[lc := g];
      eps' := eps[lc - 1 := ep'];
    }

    /** Lines 187-273; `nodeLevel` is the level drawn for the node. */
    method Insert(sp: Space, id: Id, nodeLevel: nat) returns (ghost trail: Trail)
      requires WellFormed(Graph())
      modifies `inserted, `nodeLevels, `neighbours, `entryPoint, `maxLayer
      ensures if id in sp.vectors
        then Inserts(sp, old(Graph()), Graph(), id, nodeLevel, trail, M0(), M, efConstruction)
        else Graph() == Started(old(Graph()), id, nodeLevel)
      ensures inserted == old(inserted) + (if id in sp.vectors then {id} else {})
      ensures nodeLevels == old(nodeLevels)[id := nodeLevel]
      ensures maxLayer == if id in sp.vectors then Max(nodeLevel, old(maxLayer)) else old(maxLayer)
      ensures entryPoint ==
        if old(entryPoint) == 0 || (id in sp.vectors && nodeLevel > old(maxLayer)) then id else old(entryPoint)
      ensures id !in sp.vectors ==> neighbours == old(neighbours)
      ensures InsertedOk(old(Graph()), Graph(), id, id in sp.vectors, M0(), M, efConstruction)
    {
      ghost var before := Graph();
      trail := Trail({}, map[], []);
      nodeLevels := nodeLevels[id := nodeLevel];
      if entryPoint == 0 {
        entryPoint := id;
      }
      assert Graph() == Started(before, id, nodeLevel);
      if id !in sp.vectors {
        DroppedInsertOk(before, id, nodeLevel, M0(), M, efConstruction);
        return;
      }
      if IsGraph(before, M0(), M) && id != 0 && id !in before.inserted {
        StartedOk(before, id, nodeLevel, M0(), M);
      }
      trail := LinkIn(sp, id, nodeLevel, before);
    }

    /** Lines 206-272. */
    method LinkIn(sp: Space, id: Id, nodeLevel: nat, ghost before: State) returns (ghost trail: Trail)
      requires WellFormed(before) && id in sp.vectors && Graph() == Started(before, id, nodeLevel)
      requires IsGraph(before, M0(), M) && id != 0 && id !in before.inserted ==>
        && LayersOk(Graph(), M0(), M)
        && (before.inserted != {} ==> before.entry in AtLevel(Graph(), before.top))
      modifies `inserted, `neighbours, `entryPoint, `maxLayer
      ensures Inserts(sp, before, Graph(), id, nodeLevel, trail, M0(), M, efConstruction)
      ensures InsertedOk(before, Graph(), id, true, M0(), M, efConstruction)
    {
      var q := sp.vectors[id];
      var ep := Descend(sp, q, nodeLevel);
      ghost var eps := ConnectLayers(sp, q, id, nodeLevel, ep, RewiringFor(sp, q, id, efConstruction));
      trail := Trail(ep, eps, neighbours);
      FinishedOk(before, neighbours, id, nodeLevel, M0(), M, efConstruction);
      FinishInsert(id, nodeLevel, before);
    }

    /** Lines 265-272. */
    method FinishInsert(id: Id, nodeLevel: nat, ghost before: State)
      requires WellFormed(before) && |neighbours| == |before.layers|
      requires Graph() == Started(before, id, nodeLevel).(layers := neighbours)
      modifies `inserted, `neighbours, `entryPoint, `maxLayer
      ensures Graph() == Finished(before, old(neighbours), id, nodeLevel)
    {
      if nodeLevel > maxLayer {
        entryPoint := id;
        maxLayer := nodeLevel;
        neighbours := neighbours + seq(maxLayer + 1 - |neighbours|, _ => map[]);
      }
      inserted := inserted + {id};
    }

    lemma PendingChanged(s: State, waiting: set<Id>, gone: set<Id>, waiting': set<Id>, gone': set<Id>)
      ensures forall grade :: (Deserves(grade, s, waiting, gone, M0(), M, efConstruction) &&
        waiting' !! s.inserted - gone' && 0 !in waiting' &&
        Fits(grade, |s.inserted - gone' + waiting'|, M0(), M, efConstruction) &&
        (gone' != {} ==> grade.Mirrors() && Anchored(s, gone'))) ==>
        Deserves(grade, s, waiting', gone', M0(), M, efConstruction)
    {
    }

    lemma FewerPending(s: State, p: Pending.Sets, ids: seq<Id>)
      ensures var p' := Pending.Removed(p, ids);
        forall grade :: (Deserves(grade, s, p.toBeInserted, p.toBeRemoved, M0(), M, efConstruction) &&
          (p'.toBeRemoved != {} ==> grade.Mirrors() && Anchored(s, p'.toBeRemoved))) ==>
          Deserves(grade, s, p'.toBeInserted, p'.toBeRemoved, M0(), M, efConstruction)
    {
      var p' := Pending.Removed(p, ids);
      Pending.RemovedFacts(p, ids);
      forall grade | Deserves(grade, s, p.toBeInserted, p.toBeRemoved, M0(), M, efConstruction)
          && (p'.toBeRemoved != {} ==> grade.Mirrors() && Anchored(s, p'.toBeRemoved))
        ensures Deserves(grade, s, p'.toBeInserted, p'.toBeRemoved, M0(), M, efConstruction)
      {
        DeservesWithLess(grade, s, p.toBeInserted, p.toBeRemoved, p'.toBeInserted, p'.toBeRemoved, M0(), M,
          efConstruction);
      }
    }

    // ----- Pending updates -----

    /**
     The next build leaves a graph that holds `grade`. Removals and updates may be
     pending for the grades with mutual layers only.
    */
    ghost predicate Grown(grade: Grade)
      reads this
    {
      Deserves(grade, Graph(), toBeInserted, toBeRemoved, M0(), M, efConstruction)
    }

    /**
     The next build empties the index, or it was emptied before, and there are at most `M0`
     nodes afterwards: a usable graph, though one of them is linked to itself.
    */
    ghost predicate Refills()
      reads this
    {
      Refillable(Graph(), toBeInserted, toBeRemoved, M0(), M)
    }

    /** A tiny graph, complete and mutual, with nothing but removals pending. */
    ghost predicate OnlyRemovals()
      reads this
    {
      Holds(Tiny, Graph(), {}, M0(), M, efConstruction) && toBeInserted == {}
    }

    /** Lines 279-286: over all layers. The loop over the links of a node that is one of them is undefined. */
    method UnlinkEverywhere(id: Id)
      requires maxLayer >= -1 && |neighbours| == maxLayer + 1
      modifies `neighbours
      ensures UnlinkedEverywhere(old(neighbours), neighbours, id)
    {
      ghost var before := neighbours;
      for layer := 0 to maxLayer + 1
        invariant |neighbours| == |before|
        invariant !SelfLinked(before, id) ==>
          forall l {:trigger neighbours[l]} :: 0 <= l < layer ==> Unlinked(before[l], neighbours[l], id)
        invariant forall l {:trigger neighbours[l]} :: layer <= l <= maxLayer ==> neighbours[l] == before[l]
      {
        var g;
        if id in Nbrs(neighbours[layer], id) {
          g := *;
        } else {
          g := Unlink(neighbours[layer], id);
        }
        neighbours := neighbours[layer := g];
      }
    }

    /** Lines 277-291. */
    method RemovePending() returns (ghost order: seq<Id>)
      requires WellFormed(Graph())
      modifies `inserted, `nodeLevels, `neighbours, `toBeRemoved
      ensures WellFormed(Graph()) && RemovedInTurn(old(Graph()), Graph(), order)
      ensures Elements(order) == old(toBeRemoved) && toBeRemoved == {}
      ensures inserted == old(inserted) - old(toBeRemoved)
      ensures old(toBeRemoved) == {} ==> Graph() == old(Graph())
      ensures old(GraphOk() && AllMutual(Graph())) ==> AllMutual(Graph()) && NoDangling(Graph())
    {
      ghost var before := Graph();
      var rest := toBeRemoved;
      order := [];
      NoneDone(rest);
      while rest != {}
        modifies `inserted, `nodeLevels, `neighbours
        invariant RemovedSoFar(before, Graph(), order, toBeRemoved, rest)
      {
        var id :| id in rest;
        ghost var mid := Graph();
        RemoveNode(id);
        RemovedSoFarNext(before, mid, Graph(), order, toBeRemoved, rest, id);
        order, rest := order + [id], rest - {id};
      }
      AllRemoved(before, Graph(), order, toBeRemoved);
      if IsGraph(before, M0(), M) && AllMutual(before) { RemovalsLeave(before, Graph(), order, M0(), M); }
      toBeRemoved := {};
    }

    /** Lines 279-289. */
    method RemoveNode(id: Id)
      requires maxLayer >= -1 && |neighbours| == maxLayer + 1
      modifies `inserted, `nodeLevels, `neighbours
      ensures UnlinkedEverywhere(old(neighbours), neighbours, id)
      ensures inserted == old(inserted) - {id} && nodeLevels == old(nodeLevels) - {id}
    {
      UnlinkEverywhere(id);
      nodeLevels := nodeLevels - {id};
      inserted := inserted - {id};
    }

    /** Lines 292-307. */
    method RefreshEntryPoint()
      modifies `entryPoint
      ensures EntryRefreshed(old(Graph()), Graph())
    {
      if entryPoint > 0 && entryPoint !in inserted {
        if inserted == {} {
          entryPoint := 0;
        } else {
          var rest := inserted;
          while rest != {}
            invariant rest <= inserted && entryPoint == old(entryPoint)
            invariant forall x :: x in inserted - rest ==> LevelOf(Graph(), x) != maxLayer
          {
            var id :| id in rest;
            if (if id in nodeLevels then nodeLevels[id] else 0) == maxLayer {
              entryPoint := id;
              return;
            }
            rest := rest - {id};
          }
        }
      }
    }

    /** Lines 275-315. */
    method Build(sp: Space) returns (ghost stages: Stages)
      requires WellFormed(Graph())
      modifies this
      ensures Builds(InsertStep(sp, M0(), M, efConstruction), sp.vectors.Keys, old(Graph()), old(View()), Graph(),
                     stages, M0(), M, efConstruction)
      ensures View() == Pending.Built(old(View()), sp.vectors.Keys)
      ensures old(Refills() && toBeInserted <= sp.vectors.Keys) ==> Refills() && Usable(Graph())
      ensures Strands(old(Graph()), old(View()), Graph(), M0(), M)
      ensures old(entryPoint) in sp.vectors ==> SelfLinks(old(Graph()), old(View()), Graph(), M0(), M)
    {
      ghost var before, p, refills := Graph(), View(), Refills();
      stages := BuildGraph(sp);
      if refills && p.toBeInserted <= sp.vectors.Keys {
        Refilled(sp, before, Graph(), p.toBeRemoved, p.toBeInserted, stages, M0(), M, efConstruction);
      }
      TopLost(sp, before, p, Graph(), stages, M0(), M, efConstruction);
    }

    method BuildGraph(sp: Space) returns (ghost stages: Stages)
      requires WellFormed(Graph())
      modifies this
      ensures Builds(InsertStep(sp, M0(), M, efConstruction), sp.vectors.Keys, old(Graph()), old(View()), Graph(),
                     stages, M0(), M, efConstruction)
      ensures View() == Pending.Built(old(View()), sp.vectors.Keys)
    {
      InsertStepAllows(sp, M0(), M, efConstruction);
      stages := BuildBy(sp, InsertStep(sp, M0(), M, efConstruction));
    }

    method BuildBy(sp: Space, ghost step: NodeStep) returns (ghost stages: Stages)
      requires WellFormed(Graph()) && Allows(sp, step, M0(), M, efConstruction)
      modifies this
      ensures Builds(step, sp.vectors.Keys, old(Graph()), old(View()), Graph(), stages, M0(), M, efConstruction)
      ensures View() == Pending.Built(old(View()), sp.vectors.Keys)
    {
      ghost var before, gone, waiting := Graph(), toBeRemoved, toBeInserted;
      ghost var removed, survivors := Prune();
      ghost var refreshed := Graph();
      ghost var added := InsertPending(sp, step);
      stages := Stages(removed, survivors, refreshed, added);
      StagesDone(step, before, Graph(), gone, waiting, stages, M0(), M, efConstruction);
      toBeRemoved := {};
      toBeInserted := {};
    }

    /** Lines 277-307. */
    method Prune() returns (ghost removed: seq<Id>, ghost survivors: State)
      requires WellFormed(Graph())
      modifies `inserted, `nodeLevels, `neighbours, `toBeRemoved, `entryPoint
      ensures WellFormed(Graph())
      ensures Elements(removed) == old(toBeRemoved) && RemovedInTurn(old(Graph()), survivors, removed)
      ensures EntryRefreshed(survivors, Graph())
      ensures inserted == old(inserted) - old(toBeRemoved) && toBeRemoved == {}
    {
      removed := RemovePending();
      survivors := Graph();
      RefreshEntryPoint();
    }

    /** Lines 308-311: in whatever order the hash set yields the ids, at whatever levels are drawn. */
    method InsertPending(sp: Space, ghost step: NodeStep) returns (ghost order: seq<Id>)
      requires WellFormed(Graph()) && Allows(sp, step, M0(), M, efConstruction)
      modifies `inserted, `nodeLevels, `neighbours, `entryPoint, `maxLayer
      ensures WellFormed(Graph())
      ensures Elements(order) == toBeInserted && Distinct(order) && InTurn(step, old(Graph()), Graph(), order)
      ensures inserted == old(inserted) + toBeInserted * sp.vectors.Keys
      ensures Keeps(old(Graph()), toBeInserted, Graph(), {}, M0(), M, efConstruction)
    {
      var rest := toBeInserted;
      ghost var s := Graph();
      order := [];
      NoneInserted(step, s, rest, sp.vectors.Keys, M0(), M, efConstruction);
      while rest != {}
        invariant WellFormed(Graph())
        invariant InsertedSoFar(step, s, Graph(), order, toBeInserted, rest, sp.vectors.Keys, M0(), M, efConstruction)
      {
        var id :| id in rest;
        ghost var mid := Graph();
        InsertNext(sp, id, s, toBeInserted, rest, step);
        InsertedNext(step, s, mid, Graph(), order, toBeInserted, rest, sp.vectors.Keys, id, M0(), M, efConstruction);
        order, rest := order + [id], rest - {id};
      }
      AllInserted(step, s, Graph(), order, toBeInserted, sp.vectors.Keys, M0(), M, efConstruction);
    }

    /** One round: a level is drawn, any level, and the node goes in. */
    method InsertNext(sp: Space, id: Id, ghost s: State, ghost waiting: set<Id>, ghost rest: set<Id>,
                      ghost step: NodeStep)
      requires WellFormed(Graph()) && id in rest && Allows(sp, step, M0(), M, efConstruction)
      requires Keeps(s, waiting, Graph(), rest, M0(), M, efConstruction)
      modifies `inserted, `nodeLevels, `neighbours, `entryPoint, `maxLayer
      ensures WellFormed(Graph()) && step(old(Graph()), Graph(), id)
      ensures inserted == old(inserted) + (if id in sp.vectors then {id} else {})
      ensures Keeps(s, waiting, Graph(), rest - {id}, M0(), M, efConstruction)
    {
      ghost var before := Graph();
      var nodeLevel: nat := *;
      ghost var trail := Insert(sp, id, nodeLevel);
      AllowsStep(sp, step, before, Graph(), id, nodeLevel, trail, M0(), M, efConstruction);
      InsertionStep(s, waiting, before, rest, Graph(), id, id in sp.vectors, M0(), M, efConstruction);
    }

    lemma NothingToBuild(step: NodeStep) returns (stages: Stages)
      ensures Builds(step, {}, NoGraph(), Pending.Sets({}, {}, {}), NoGraph(), stages, M0(), M, efConstruction)
    {
      var none: seq<Id>, s := [], NoGraph();
      assert Elements(none) == {};
      assert RemovedInTurn(s, s, none);
      stages := Stages(none, s, s, none);
    }

    lemma GrownFromNothing(step: NodeStep, keys: set<Id>, after: State, stages: Stages)
      requires Builds(step, keys, NoGraph(), Pending.Sets({}, keys, {}), after, stages, M0(), M, efConstruction)
      ensures forall grade {:trigger Deserves(grade, after, {}, {}, M0(), M, efConstruction)} ::
        0 !in keys && Fits(grade, |keys|, M0(), M, efConstruction) ==>
          Deserves(grade, after, {}, {}, M0(), M, efConstruction)
    {
      forall grade | 0 !in keys && Fits(grade, |keys|, M0(), M, efConstruction)
        ensures Deserves(grade, after, {}, {}, M0(), M, efConstruction)
      {
        EmptyDeserves(NoGraph(), keys, grade, M0(), M, efConstruction);
      }
    }

    /** Lines 163-185. */
    method Init(sp: Space) returns (ghost stages: Stages)
      modifies this
      ensures View() == Pending.Sets(sp.vectors.Keys, {}, {})
      ensures Builds(InsertStep(sp, M0(), M, efConstruction), sp.vectors.Keys, NoGraph(),
                     Pending.Sets({}, sp.vectors.Keys, {}), Graph(), stages, M0(), M, efConstruction)
      ensures InitOf(sp, M0(), M, efConstruction)(Graph())
      ensures forall grade :: 0 !in sp.vectors.Keys && Fits(grade, |sp.vectors.Keys|, M0(), M, efConstruction) ==>
        Grown(grade)
    {
      stages := InitGraph(sp);
      GrownFromNothing(InsertStep(sp, M0(), M, efConstruction), sp.vectors.Keys, Graph(), stages);
    }

    method InitGraph(sp: Space) returns (ghost stages: Stages)
      modifies this
      ensures View() == Pending.Sets(sp.vectors.Keys, {}, {})
      ensures Builds(InsertStep(sp, M0(), M, efConstruction), sp.vectors.Keys, NoGraph(),
                     Pending.Sets({}, sp.vectors.Keys, {}), Graph(), stages, M0(), M, efConstruction)
    {
      NoLockClear();
      if sp.vectors.Keys == {} {
        stages := NothingToBuild(InsertStep(sp, M0(), M, efConstruction));
        return;
      }
      toBeInserted := sp.vectors.Keys;
      stages := BuildGraph(sp);
    }

    /**
     `search_knn`, lines 317-334: pending updates are built in first. The ghost
     results say where the bottom search started and what it found.
    */
    method SearchKnn(sp: Space, q: Vec, k: nat)
      returns (answer: Answer, ghost ep: set<Id>, ghost found: set<Cand>, ghost visited: set<Id>)
      requires WellFormed(Graph())
      modifies this
      ensures WellFormed(Graph())
      ensures View() == Pending.Built(old(View()), sp.vectors.Keys)
      ensures MoveOf(sp, M0(), M, efConstruction)(old(Graph()), old(View()), Graph())
      ensures forall grade :: old(Grown(grade)) ==> Grown(grade)
      ensures Searched(sp, Graph(), q, k, efSearch, answer, ep, found, visited)
      ensures old(Refills() && toBeInserted <= sp.vectors.Keys) ==> Refills()
      ensures old(Grown(Small) || Grown(Tiny) || (Refills() && toBeInserted <= sp.vectors.Keys)) ==>
        (inserted <= sp.vectors.Keys && Max(k, efSearch) >= |inserted| ==> answer == Hits(sp.Exact(q, inserted, k)))
      ensures LosesTop(old(Graph()), old(View()), M0(), M) && old(toBeInserted <= {entryPoint}) ==>
        (inserted != {} && k > 0 ==> answer == EntryOnly(sp, q, old(entryPoint)))
      ensures LosesSurvivors(old(Graph()), old(View()), M0(), M) ==>
        AnswersFrom(answer, old(toBeInserted) + {old(entryPoint)})
      ensures old(OnlyRemovals()) && inserted == sp.vectors.Keys && k > 0 && Max(k, efSearch) >= |inserted| ==>
        (answer == Hits(sp.Exact(q, inserted, k)) <==> inserted == {} || old(Anchored(Graph(), toBeRemoved)))
    {
      ghost var s, p, all := Graph(), View(), OnlyRemovals();
      if all && Anchored(s, p.toBeRemoved) { AnchoredDeserves(s, p.toBeRemoved, M0(), M, efConstruction); }
      answer, ep, found, visited := SearchStranded(sp, q, k, MoveOf(sp, M0(), M, efConstruction));
      if inserted == {} { NothingExact(sp, q, k); }
      if all && !Anchored(s, p.toBeRemoved) { EntryGone(s, p.toBeRemoved); }
    }

    /** `moved` is what `BroughtUp` says of the graph. */
    method SearchStranded(sp: Space, q: Vec, k: nat, ghost moved: Move)
      returns (answer: Answer, ghost ep: set<Id>, ghost found: set<Cand>, ghost visited: set<Id>)
      requires WellFormed(Graph())
      requires forall s, p, s' {:trigger moved(s, p, s')} ::
        BroughtUp(sp, s, p, s', M0(), M, efConstruction) ==> moved(s, p, s')
      modifies this
      ensures WellFormed(Graph())
      ensures View() == Pending.Built(old(View()), sp.vectors.Keys)
      ensures moved(old(Graph()), old(View()), Graph())
      ensures forall grade :: old(Grown(grade)) ==> Grown(grade)
      ensures old(Refills() && toBeInserted <= sp.vectors.Keys) ==> Refills()
      ensures Searched(sp, Graph(), q, k, efSearch, answer, ep, found, visited)
      ensures old(Grown(Small) || Grown(Tiny) || (Refills() && toBeInserted <= sp.vectors.Keys)) ==>
        (inserted <= sp.vectors.Keys && Max(k, efSearch) >= |inserted| ==> answer == Hits(sp.Exact(q, inserted, k)))
      ensures LosesTop(old(Graph()), old(View()), M0(), M) && old(toBeInserted <= {entryPoint}) ==>
        (inserted != {} && k > 0 ==> answer == EntryOnly(sp, q, old(entryPoint)))
      ensures LosesSurvivors(old(Graph()), old(View()), M0(), M) ==>
        AnswersFrom(answer, old(toBeInserted) + {old(entryPoint)})
    {
      ghost var s, p := Graph(), View();
      answer, ep, found, visited := SearchUpToDate(sp, q, k, moved);
      StrandedSearch(sp, s, p, Graph(), q, k, efSearch, answer, ep, found, visited, M0(), M);
    }

    method SearchUpToDate(sp: Space, q: Vec, k: nat, ghost moved: Move)
      returns (answer: Answer, ghost ep: set<Id>, ghost found: set<Cand>, ghost visited: set<Id>)
      requires WellFormed(Graph())
      requires forall s, p, s' {:trigger moved(s, p, s')} ::
        BroughtUp(sp, s, p, s', M0(), M, efConstruction) ==> moved(s, p, s')
      modifies this
      ensures WellFormed(Graph())
      ensures View() == Pending.Built(old(View()), sp.vectors.Keys)
      ensures moved(old(Graph()), old(View()), Graph())
      ensures forall grade :: old(Grown(grade)) ==> Grown(grade)
      ensures old(Refills() && toBeInserted <= sp.vectors.Keys) ==> Refills()
      ensures Strands(old(Graph()), old(View()), Graph(), M0(), M)
      ensures Searched(sp, Graph(), q, k, efSearch, answer, ep, found, visited)
      ensures old(Grown(Small) || Grown(Tiny) || (Refills() && toBeInserted <= sp.vectors.Keys)) ==>
        (inserted <= sp.vectors.Keys && Max(k, efSearch) >= |inserted| ==> answer == Hits(sp.Exact(q, inserted, k)))
    {
      BuildPending(sp, moved);
      answer, ep, found, visited := SearchBuilt(sp, q, k);
      GrownIsSearchable();
    }

    lemma GrownIsSearchable()
      requires WellFormed(Graph())
      ensures Grown(Small) || Grown(Tiny) ==> Searchable(Graph())
    {
      if Grown(Small) || Grown(Tiny) { ConnectedIsSearchable(Graph(), M0(), M); }
    }

    lemma EntryGone(s: State, gone: set<Id>)
      requires IsGraph(s, M0(), M) && !Anchored(s, gone)
      ensures s.entry !in s.inserted - gone
    {
    }

    /** Lines 324-334. */
    method BuildPending(sp: Space, ghost moved: Move)
      requires WellFormed(Graph())
      requires forall s, p, s' {:trigger moved(s, p, s')} ::
        BroughtUp(sp, s, p, s', M0(), M, efConstruction) ==> moved(s, p, s')
      modifies this
      ensures WellFormed(Graph())
      ensures View() == Pending.Built(old(View()), sp.vectors.Keys)
      ensures moved(old(Graph()), old(View()), Graph())
      ensures forall grade :: old(Grown(grade)) ==> Grown(grade)
      ensures old(Refills() && toBeInserted <= sp.vectors.Keys) ==> Refills() && Searchable(Graph())
      ensures Strands(old(Graph()), old(View()), Graph(), M0(), M)
    {
      if toBeInserted != {} || toBeRemoved != {} {
        ghost var stages := Build(sp);
      } else {
        NothingStranded(Graph(), View(), M0(), M);
      }
    }

    /** Lines 335-355. */
    method SearchBuilt(sp: Space, q: Vec, k0: nat)
      returns (answer: Answer, ghost ep: set<Id>, ghost found: set<Cand>, ghost visited: set<Id>)
      requires WellFormed(Graph())
      ensures Searched(sp, Graph(), q, k0, efSearch, answer, ep, found, visited)
      ensures Searchable(Graph()) && inserted <= sp.vectors.Keys && Max(k0, efSearch) >= |inserted| ==>
        answer == Hits(sp.Exact(q, inserted, k0))
    {
      answer, ep, found, visited := SearchGraph(sp, q, k0);
      if Searchable(Graph()) && inserted <= sp.vectors.Keys && Max(k0, efSearch) >= |inserted| {
        SearchIsExact(sp, Graph(), q, k0, efSearch, answer, ep, found, visited);
      }
    }

    method SearchGraph(sp: Space, q: Vec, k0: nat)
      returns (answer: Answer, ghost ep: set<Id>, ghost found: set<Cand>, ghost visited: set<Id>)
      requires WellFormed(Graph())
      ensures Searched(sp, Graph(), q, k0, efSearch, answer, ep, found, visited)
    {
      ep, found, visited := {}, {}, {};
      if inserted == {} || k0 == 0 {
        return Hits([]), ep, found, visited;
      }
      var k := Min(k0, |inserted|);
      var entry := Descend(sp, q, 0);
      var candidates;
      candidates, visited := SearchLayer(sp, neighbours[0], q, entry, Max(k, efSearch));
      ep, found := entry, candidates;
      answer := Report(sp, candidates, k);
    }
  }
}
