/** The graph of the HNSW index as a value, its invariants, and what an insertion does to them. */
module HnswState {
  import opened Ranking
  import opened Batches
  import opened Iteration
  import opened Vectors
  import opened Spaces
  import opened HnswGraph
  import opened HnswSearch
  import opened HnswLink

  /** The graph part of the index, as a value. */
  datatype State = State(inserted: set<Id>, levels: map<Id, nat>, layers: seq<Layer>, entry: Id, top: int)

  /** The inserted ids that live on layer `l` or above. */
  ghost function AtLevel(s: State, l: int): set<Id> {
    set x | x in s.inserted && x in s.levels && s.levels[x] >= l
  }

  /** Kept by every operation in every history. */
  ghost predicate WellFormed(s: State) {
    && s.top >= -1
    && |s.layers| == s.top + 1
    && (s.inserted != {} ==> s.top >= 0)
  }

  /** The degree bound of layer `l`: `m0` at the bottom, `m` above. */
  function Degree(l: nat, m0: nat, m: nat): nat {
    if l == 0 then m0 else m
  }

  ghost predicate LayersOk(s: State, m0: nat, m: nat) {
    forall l {:trigger s.layers[l]} :: 0 <= l < |s.layers| ==>
      LayerOk(s.layers[l], AtLevel(s, l), Degree(l, m0, m))
  }

  /**
   The layered-graph invariant: no self-links, edges of layer l join inserted nodes
   of level l or above, bounded degrees, and an entry point on the highest level.
  */
  ghost predicate IsGraph(s: State, m0: nat, m: nat) {
    && WellFormed(s)
    && 0 !in s.inserted
    && (s.inserted == {} ==> s.top == -1)
    && s.inserted <= s.levels.Keys
    && (forall x :: x in s.inserted ==> s.levels[x] <= s.top)
    && (s.inserted != {} ==> s.entry in s.inserted && s.levels[s.entry] == s.top)
    && LayersOk(s, m0, m)
  }

  /** A walk over layer 0 from any inserted node can visit all of them. */
  ghost predicate BaseConnected(s: State) {
    WellFormed(s) && (s.inserted != {} ==> Connected(s.layers[0], s.inserted))
  }

  ghost predicate BaseComplete(s: State) {
    WellFormed(s) && (s.inserted != {} ==> CompleteOn(s.layers[0], s.inserted))
  }

  ghost predicate AllMutual(s: State) {
    forall l {:trigger s.layers[l]} :: 0 <= l < |s.layers| ==> Mutual(s.layers[l])
  }

  /** Mutual layers on which no degree bound can bite are mutual still. */
  ghost predicate MutualKept(before: State, layers: seq<Layer>, m0: nat, m: nat) {
    && |layers| == |before.layers|
    && forall l {:trigger layers[l]} :: 0 <= l < |layers| ==>
         |AtLevel(before, l)| <= Degree(l, m0, m) && Mutual(before.layers[l]) ==> Mutual(layers[l])
  }

  /** Layers above `lc` have node `id` of level `level` linked in; the others are untouched. */
  ghost predicate LinkedAbove(lc: int, before: State, layers: seq<Layer>, id: Id, level: nat, m0: nat, m: nat) {
    && |layers| == |before.layers|
    && (forall l {:trigger layers[l]} :: 0 <= l < |layers| && l <= lc ==> layers[l] == before.layers[l])
    && (forall l {:trigger layers[l]} :: 0 <= l < |layers| && l > lc ==>
          LayerOk(layers[l], AtLevel(before, l) + (if l <= level then {id} else {}), Degree(l, m0, m)))
  }

  /** What the new node's links do to layer 0. */
  ghost predicate BaseLinked(before: State, layers: seq<Layer>, id: Id, m0: nat, ef: nat) {
    |layers| == |before.layers| > 0 && |before.inserted| <= m0 && Connected(before.layers[0], before.inserted) ==>
      && Connected(layers[0], before.inserted + {id})
      && (|before.inserted| <= ef && CompleteOn(before.layers[0], before.inserted) ==>
            CompleteOn(layers[0], before.inserted + {id}))
  }

  lemma LinkLayer(lc: nat, before: State, layers: seq<Layer>, g: Layer, id: Id, level: nat, m0: nat, m: nat)
    requires lc < |layers| && lc <= level
    requires LinkedAbove(lc, before, layers, id, level, m0, m)
    requires LayerOk(g, AtLevel(before, lc) + {id}, Degree(lc, m0, m))
    ensures LinkedAbove(lc - 1, before, layers[lc := g], id, level, m0, m)
  {
  }

  lemma NothingLinkedYet(before: State, id: Id, level: nat, m0: nat, m: nat)
    requires WellFormed(before) && LayersOk(before, m0, m)
    ensures LinkedAbove(Min(level, before.top), before, before.layers, id, level, m0, m)
  {
  }

  // ----- What one insertion does, layer by layer -----

  /** One step of the greedy descent: to the nearest node that a search of width 1 finds. */
  ghost predicate Hop(sp: Space, g: Layer, q: Vec, from: set<Id>, to: set<Id>) {
    from != {} && exists candidates, visited ::
      SearchOutcome(sp, g, q, from, 1, candidates, visited) && to == {Least(candidates).id}
  }

  type Hops = (Layer, set<Id>, set<Id>) -> bool

  ghost function HopsFor(sp: Space, q: Vec): Hops {
    (g, from, to) => Hop(sp, g, q, from, to)
  }

  ghost predicate DescendsBy(hop: Hops, layers: seq<Layer>, from: set<Id>, l: int, floor: int, to: set<Id>)
    requires l < |layers| && floor >= -1
    decreases l
  {
    if l <= floor then to == from
    else exists mid :: hop(layers[l], from, mid) && DescendsBy(hop, layers, mid, l - 1, floor, to)
  }

  /** The greedy descent from layer `l` to just above `floor`. */
  ghost predicate Descends(sp: Space, layers: seq<Layer>, q: Vec, from: set<Id>, l: int, floor: int, to: set<Id>)
    requires l < |layers| && floor >= -1
  {
    DescendsBy(HopsFor(sp, q), layers, from, l, floor, to)
  }

  /**
   Whether a layer may become another one, searched from one set of nodes and finding
   another, under a degree bound.
  */
  type Rewiring = (Layer, Layer, set<Id>, set<Id>, nat) -> bool

  ghost function RewiringFor(sp: Space, q: Vec, id: Id, ef: nat): Rewiring {
    (g, g', ep, found, degree) => ep != {} && Rewired(sp, g, g', q, id, ep, found, ef, degree)
  }

  /**
   Layers above `lc` and up to `from` are rewired; layer `l` is searched from `eps[l]`, and
   what is found there starts the next.
  */
  ghost predicate RewiredDown(rewired: Rewiring, before: seq<Layer>, after: seq<Layer>, eps: map<int, set<Id>>,
                              from: int, lc: int, m0: nat, m: nat)
  {
    && -1 <= lc <= from < |before| && |after| == |before|
    && (forall l :: lc <= l <= from ==> l in eps)
    && (forall l {:trigger after[l]} :: 0 <= l < |after| ==>
          if lc < l <= from then rewired(before[l], after[l], eps[l], eps[l - 1], Degree(l, m0, m))
          else after[l] == before[l])
  }

  lemma RewireNext(rewired: Rewiring, before: seq<Layer>, after: seq<Layer>, eps: map<int, set<Id>>, from: int, lc: int,
                   m0: nat, m: nat, g: Layer, ep: set<Id>)
    requires RewiredDown(rewired, before, after, eps, from, lc, m0, m) && lc >= 0
    requires rewired(before[lc], g, eps[lc], ep, Degree(lc, m0, m))
    ensures RewiredDown(rewired, before, after[lc := g], eps[lc - 1 := ep], from, lc - 1, m0, m)
  {
  }

  /**
   Half-way down: layers above `lc` are done, and `ep` starts the search of layer `lc`. `ok`
   if the graph was in order.
  */
  ghost predicate Connecting(ok: bool, rewired: Rewiring, s: State, layers: seq<Layer>, eps: map<int, set<Id>>,
                             ep: set<Id>, lc: int, id: Id, level: nat, m0: nat, m: nat, ef: nat)
  {
    && RewiredDown(rewired, s.layers, layers, eps, Min(level, s.top), lc, m0, m)
    && eps[lc] == ep != {}
    && (ok && lc >= 0 ==> ep <= AtLevel(s, lc))
    && (ok ==> LinkedAbove(lc, s, layers, id, level, m0, m) && MutualKept(s, layers, m0, m))
    && (ok && lc == -1 ==> BaseLinked(s, layers, id, m0, ef))
  }

  lemma ConnectNext(ok: bool, rewired: Rewiring, s: State, layers: seq<Layer>, eps: map<int, set<Id>>, ep: set<Id>,
                    lc: int, id: Id, level: nat, m0: nat, m: nat, ef: nat, g: Layer, ep': set<Id>)
    requires Connecting(ok, rewired, s, layers, eps, ep, lc, id, level, m0, m, ef) && lc >= 0 && ep' != {}
    requires rewired(layers[lc], g, ep, ep', Degree(lc, m0, m))
    requires ConnectOk(layers[lc], g, AtLevel(s, lc), id, ep, ep', ef, Degree(lc, m0, m))
    requires ok ==> LayersOk(s, m0, m) && id !in s.inserted && s.inserted <= s.levels.Keys
    ensures Connecting(ok, rewired, s, layers[lc := g], eps[lc - 1 := ep'], ep', lc - 1, id, level, m0, m, ef)
  {
    RewireNext(rewired, s.layers, layers, eps, Min(level, s.top), lc, m0, m, g, ep');
    if ok {
      BottomLevel(s);
      assert LayerOk(s.layers[lc], AtLevel(s, lc), Degree(lc, m0, m));
      LinkLayer(lc, s, layers, g, id, level, m0, m);
    }
  }

  /** The path of an insertion: where the descent ended, the entry points of each layer, the layers rewired. */
  datatype Trail = Trail(ep: set<Id>, eps: map<int, set<Id>>, layers: seq<Layer>)

  /** `insert`, lines 187-273, for an id that has a vector. */
  ghost predicate Inserts(sp: Space, before: State, after: State, id: Id, level: nat, trail: Trail, m0: nat, m: nat,
                          ef: nat)
  {
    && id in sp.vectors && WellFormed(before)
    && var q, entry, from := sp.vectors[id], (if before.entry == 0 then id else before.entry), Min(level, before.top);
    && Descends(sp, before.layers, q, {entry}, before.top, level, trail.ep)
    && RewiredDown(RewiringFor(sp, q, id, ef), before.layers, trail.layers, trail.eps, from, -1, m0, m)
    && trail.eps[from] == trail.ep
    && after == Finished(before, trail.layers, id, level)
  }

  // ----- What removals do -----

  ghost predicate SelfLinked(layers: seq<Layer>, id: Id) {
    exists l :: 0 <= l < |layers| && id in Nbrs(layers[l], id)
  }

  ghost predicate SelfFree(layers: seq<Layer>) {
    forall id {:trigger SelfLinked(layers, id)} :: !SelfLinked(layers, id)
  }

  /** What removing a node that is linked to itself does to the layers is left open. */
  ghost predicate UnlinkedEverywhere(before: seq<Layer>, after: seq<Layer>, id: Id) {
    && |after| == |before|
    && (!SelfLinked(before, id) ==>
          forall l {:trigger after[l]} :: 0 <= l < |after| ==> Unlinked(before[l], after[l], id))
  }

  /** The ids in `order` are unlinked one after the other. */
  ghost predicate UnlinkedInTurn(before: seq<Layer>, after: seq<Layer>, order: seq<Id>)
    decreases |order|
  {
    if order == [] then after == before
    else exists mid {:trigger UnlinkedEverywhere(mid, after, order[|order| - 1])} ::
      UnlinkedInTurn(before, mid, order[..|order| - 1]) && UnlinkedEverywhere(mid, after, order[|order| - 1])
  }

  /** Nodes `order` are gone from the graph. */
  ghost predicate RemovedInTurn(before: State, after: State, order: seq<Id>) {
    && after.inserted == before.inserted - Elements(order)
    && after.levels == before.levels - Elements(order)
    && UnlinkedInTurn(before.layers, after.layers, order) && |after.layers| == |before.layers|
    && after.entry == before.entry && after.top == before.top
  }

  /** `rest` of the ids `all` are still to be removed. */
  ghost predicate RemovedSoFar(before: State, now: State, order: seq<Id>, all: set<Id>, rest: set<Id>) {
    rest <= all && Elements(order) == all - rest && RemovedInTurn(before, now, order)
  }

  lemma RemovedSoFarNext(before: State, mid: State, after: State, order: seq<Id>, all: set<Id>, rest: set<Id>, id: Id)
    requires RemovedSoFar(before, mid, order, all, rest) && id in rest
    requires UnlinkedEverywhere(mid.layers, after.layers, id)
    requires after == mid.(inserted := mid.inserted - {id}, levels := mid.levels - {id}, layers := after.layers)
    ensures RemovedSoFar(before, after, order + [id], all, rest - {id})
  {
    NextDone(all, rest, id);
    RemovedNext(before, mid, after, order, id);
    assert Elements(order + [id]) == Elements(order) + {id};
  }

  lemma FirstElement(order: seq<Id>)
    ensures Elements(order) == {} ==> |order| == 0
  {
    assert order != [] ==> order[0] in Elements(order);
  }

  lemma AllRemoved(before: State, after: State, order: seq<Id>, all: set<Id>)
    requires RemovedSoFar(before, after, order, all, {})
    ensures Elements(order) == all && RemovedInTurn(before, after, order) && after.inserted == before.inserted - all
    ensures all == {} ==> after == before
  {
    NoneDone(all);
    FirstElement(order);
    NothingRemoved(before, after, order);
  }

  lemma NothingRemoved(before: State, after: State, order: seq<Id>)
    requires RemovedInTurn(before, after, order)
    ensures |order| == 0 ==> after == before
  {
  }

  lemma RemovedNext(before: State, mid: State, after: State, order: seq<Id>, id: Id)
    requires RemovedInTurn(before, mid, order)
    requires UnlinkedEverywhere(mid.layers, after.layers, id)
    requires after == mid.(inserted := mid.inserted - {id}, levels := mid.levels - {id}, layers := after.layers)
    ensures RemovedInTurn(before, after, order + [id])
  {
    UnlinkedNext(before.layers, mid.layers, after.layers, order, id);
    OneErased(before.levels, order, id);
    assert Elements(order + [id]) == Elements(order) + {id};
  }

  lemma UnlinkedNext(before: seq<Layer>, mid: seq<Layer>, after: seq<Layer>, order: seq<Id>, id: Id)
    requires UnlinkedInTurn(before, mid, order) && UnlinkedEverywhere(mid, after, id)
    ensures UnlinkedInTurn(before, after, order + [id])
  {
    var order' := order + [id];
    assert order'[..|order'| - 1] == order && order'[|order'| - 1] == id;
    assert UnlinkedEverywhere(mid, after, order'[|order'| - 1]);
  }

  lemma BottomLevel(s: State)
    requires s.inserted <= s.levels.Keys
    ensures AtLevel(s, 0) == s.inserted
  {
  }

  /** The state once `insert` has drawn a level and looked at the entry point: lines 191-198. */
  ghost function Started(before: State, id: Id, level: nat): State {
    before.(levels := before.levels[id := level], entry := if before.entry == 0 then id else before.entry)
  }

  /** The end of `insert`: lines 265-272. */
  ghost function Finished(before: State, layers: seq<Layer>, id: Id, level: nat): State
    requires |layers| == before.top + 1
  {
    if level > before.top then
      State(before.inserted + {id}, before.levels[id := level],
            layers + seq(level + 1 - |layers|, _ => map[]), id, level)
    else
      Started(before, id, level).(inserted := before.inserted + {id}, layers := layers)
  }

  lemma LevelsAfter(before: State, after: State, id: Id, level: nat, l: int)
    requires id !in before.inserted
    requires after.inserted == before.inserted + {id} && after.levels == before.levels[id := level]
    ensures AtLevel(after, l) == AtLevel(before, l) + (if l <= level then {id} else {})
  {
  }

  lemma FinishedIsGraph(before: State, layers: seq<Layer>, id: Id, level: nat, m0: nat, m: nat)
    requires IsGraph(before, m0, m) && id !in before.inserted && id != 0
    requires LinkedAbove(-1, before, layers, id, level, m0, m)
    ensures IsGraph(Finished(before, layers, id, level), m0, m)
  {
    var after := Finished(before, layers, id, level);
    forall l | 0 <= l < |after.layers|
      ensures LayerOk(after.layers[l], AtLevel(after, l), Degree(l, m0, m))
    {
      LevelsAfter(before, after, id, level, l);
      if l < |layers| {
        assert after.layers[l] == layers[l];
      } else {
        assert after.layers[l] == map[];
      }
    }
  }

  /** What an insertion into a graph of at most `m0` nodes does to its base layer. */
  lemma FinishedBase(before: State, layers: seq<Layer>, id: Id, level: nat, m0: nat, m: nat, ef: nat)
    requires IsGraph(before, m0, m) && BaseConnected(before) && |before.inserted| <= m0
    requires |layers| == before.top + 1 && BaseLinked(before, layers, id, m0, ef)
    ensures BaseConnected(Finished(before, layers, id, level))
    ensures BaseComplete(before) && |before.inserted| <= ef ==> BaseComplete(Finished(before, layers, id, level))
  {
    var after := Finished(before, layers, id, level);
    if before.inserted == {} {
      assert after.inserted == {id};
    } else {
      assert after.layers[0] == layers[0];
    }
  }

  lemma FinishedMutual(before: State, layers: seq<Layer>, id: Id, level: nat, m0: nat, m: nat)
    requires WellFormed(before) && AllMutual(before) && |before.inserted| <= m0 && |before.inserted| <= m
    requires MutualKept(before, layers, m0, m)
    ensures AllMutual(Finished(before, layers, id, level))
  {
    var after := Finished(before, layers, id, level);
    forall l | 0 <= l < |after.layers| ensures Mutual(after.layers[l]) {
      if l < |layers| {
        SubsetSize(AtLevel(before, l), before.inserted);
        assert after.layers[l] == layers[l] && Mutual(before.layers[l]);
      } else {
        assert after.layers[l] == map[];
      }
    }
  }

  lemma StartedOk(before: State, id: Id, level: nat, m0: nat, m: nat)
    requires IsGraph(before, m0, m) && id !in before.inserted
    ensures LayersOk(Started(before, id, level), m0, m)
    ensures before.inserted != {} ==> before.entry in AtLevel(Started(before, id, level), before.top)
  {
  }

  /**
   What inserting `id` does to the graph; `present` says whether the id has a vector.
   The base-layer claims hold as long as no degree bound can bite.
  */
  ghost predicate InsertedOk(before: State, after: State, id: Id, present: bool, m0: nat, m: nat, ef: nat) {
    && WellFormed(after)
    && after.inserted == before.inserted + (if present then {id} else {})
    && (IsGraph(before, m0, m) && id != 0 && id !in before.inserted ==>
          && IsGraph(after, m0, m)
          && (AllMutual(before) && |before.inserted| <= m0 && |before.inserted| <= m ==> AllMutual(after))
          && (BaseConnected(before) && |before.inserted| <= m0 ==>
                && BaseConnected(after)
                && (BaseComplete(before) && |before.inserted| <= ef ==> BaseComplete(after))))
  }

  lemma FinishedOk(before: State, layers: seq<Layer>, id: Id, level: nat, m0: nat, m: nat, ef: nat)
    requires WellFormed(before) && |layers| == |before.layers|
    requires IsGraph(before, m0, m) && id != 0 && id !in before.inserted && before.inserted != {} ==>
      && LinkedAbove(-1, Started(before, id, level), layers, id, level, m0, m)
      && BaseLinked(Started(before, id, level), layers, id, m0, ef)
      && MutualKept(Started(before, id, level), layers, m0, m)
    ensures InsertedOk(before, Finished(before, layers, id, level), id, true, m0, m, ef)
  {
    if IsGraph(before, m0, m) && id != 0 && id !in before.inserted {
      var s := Started(before, id, level);
      forall l ensures AtLevel(s, l) == AtLevel(before, l) {}
      FinishedIsGraph(before, layers, id, level, m0, m);
      if AllMutual(before) && |before.inserted| <= m0 && |before.inserted| <= m {
        FinishedMutual(before, layers, id, level, m0, m);
      }
      if BaseConnected(before) && |before.inserted| <= m0 {
        FinishedBase(before, layers, id, level, m0, m, ef);
      }
    }
  }

  lemma DroppedInsertOk(before: State, id: Id, level: nat, m0: nat, m: nat, ef: nat)
    requires WellFormed(before)
    ensures InsertedOk(before, Started(before, id, level), id, false, m0, m, ef)
  {
  }

  // ----- A graph and the ids that wait to be inserted into it -----

  /**
   How much is known of an index: that it is a graph; that all its ids fit under the
   degree bound of layer 0, which then is connected (`Small`); that the construction
   search also sees every node, which makes layer 0 complete (`Dense`); that the ids
   fit under every degree bound, so that all layers are mutual (`Tidy`); all of it (`Tiny`).
  */
  datatype Grade = Fresh | Small | Dense | Tidy | Tiny {
    predicate Connects() { Small? || Dense? || Tiny? }
    predicate Completes() { Dense? || Tiny? }
    predicate Mirrors() { Tidy? || Tiny? }
  }

  /** The number of ids that `grade` allows. */
  ghost predicate Fits(grade: Grade, size: nat, m0: nat, m: nat, ef: nat) {
    && (grade.Connects() ==> size <= m0 + 1)
    && (grade.Completes() ==> size <= ef + 1)
    && (grade.Mirrors() ==> size <= m0 + 1 && size <= m + 1)
  }

  /** `waiting` are the ids still to be inserted. */
  ghost predicate Holds(grade: Grade, s: State, waiting: set<Id>, m0: nat, m: nat, ef: nat) {
    && IsGraph(s, m0, m) && waiting !! s.inserted && 0 !in waiting
    && Fits(grade, |s.inserted + waiting|, m0, m, ef)
    && (grade.Connects() ==> BaseConnected(s))
    && (grade.Completes() ==> BaseComplete(s))
    && (grade.Mirrors() ==> AllMutual(s))
  }

  /** A node that stays lives on the highest level: what lines 298-306 look for. */
  ghost predicate Anchored(s: State, gone: set<Id>) {
    s.inserted == {} || exists x :: x in s.inserted - gone && LevelOf(s, x) == s.top
  }

  /**
   Once `gone` are removed, the graph and the waiting ids hold `grade`; removals need mutual
   layers and a top-level survivor.
  */
  ghost predicate Deserves(grade: Grade, s: State, waiting: set<Id>, gone: set<Id>, m0: nat, m: nat, ef: nat) {
    && Holds(grade, s, {}, m0, m, ef)
    && waiting !! s.inserted - gone && 0 !in waiting
    && Fits(grade, |s.inserted - gone + waiting|, m0, m, ef)
    && (gone != {} ==> grade.Mirrors() && Anchored(s, gone))
  }

  lemma AnchoredDeserves(s: State, gone: set<Id>, m0: nat, m: nat, ef: nat)
    requires Holds(Tiny, s, {}, m0, m, ef) && Anchored(s, gone)
    ensures Deserves(Tiny, s, {}, gone, m0, m, ef)
  {
    SubsetSize(s.inserted - gone + {}, s.inserted + {});
  }

  lemma DeservesWithLess(grade: Grade, s: State, waiting: set<Id>, gone: set<Id>, waiting': set<Id>, gone': set<Id>,
                         m0: nat, m: nat, ef: nat)
    requires Deserves(grade, s, waiting, gone, m0, m, ef) && waiting' <= waiting && gone <= gone'
    requires gone' != {} ==> grade.Mirrors() && Anchored(s, gone')
    ensures Deserves(grade, s, waiting', gone', m0, m, ef)
  {
    SubsetSize(s.inserted - gone' + waiting', s.inserted - gone + waiting);
  }

  /** Whatever held before holds after. */
  ghost predicate Keeps(before: State, waiting: set<Id>, after: State, waiting': set<Id>, m0: nat, m: nat, ef: nat) {
    forall grade {:trigger Holds(grade, after, waiting', m0, m, ef)} ::
      Holds(grade, before, waiting, m0, m, ef) ==> Holds(grade, after, waiting', m0, m, ef)
  }

  lemma InsertionStep(s: State, w: set<Id>, before: State, waiting: set<Id>, after: State, id: Id, present: bool,
                      m0: nat, m: nat, ef: nat)
    requires Keeps(s, w, before, waiting, m0, m, ef)
    requires InsertedOk(before, after, id, present, m0, m, ef) && id in waiting
    ensures Keeps(s, w, after, waiting - {id}, m0, m, ef)
  {
    if waiting !! before.inserted {
      SubsetSize(before.inserted + {id}, before.inserted + waiting);
      SubsetSize(after.inserted + (waiting - {id}), before.inserted + waiting);
    }
    forall grade | Holds(grade, s, w, m0, m, ef) ensures Holds(grade, after, waiting - {id}, m0, m, ef) {
      assert Holds(grade, before, waiting, m0, m, ef);
    }
  }

  // ----- What a build does, node by node -----

  /** A lost entry point is replaced only by a survivor on the highest level; without one it stays stale. */
  ghost predicate EntryRefreshed(before: State, after: State) {
    && after == before.(entry := after.entry)
    && if before.entry == 0 || before.entry in before.inserted then after.entry == before.entry
       else if before.inserted == {} then after.entry == 0
       else if exists x :: x in before.inserted && LevelOf(before, x) == before.top
       then after.entry in before.inserted && LevelOf(before, after.entry) == before.top
       else after.entry == before.entry
  }

  /** `node_levels_[ id ]`. */
  function LevelOf(s: State, id: Id): int {
    if id in s.levels then s.levels[id] else 0
  }

  // ----- What removals leave of any graph -----

  /**
   The links of `x` once `gone` are removed: a removed node has none, and any other keeps
   a link to a removed node that did not point back at it.
  */
  ghost function LinksLeft(g: Layer, x: Id, gone: set<Id>): set<Id> {
    if x in gone then {} else set id | id in Nbrs(g, x) && (id in gone ==> x !in Nbrs(g, id))
  }

  ghost predicate Cut(before: seq<Layer>, after: seq<Layer>, gone: set<Id>) {
    && |after| == |before|
    && forall l, x {:trigger Nbrs(after[l], x)} :: 0 <= l < |after| ==>
         Nbrs(after[l], x) == LinksLeft(before[l], x, gone)
  }

  lemma CutNext(before: seq<Layer>, mid: seq<Layer>, after: seq<Layer>, gone: set<Id>, id: Id)
    requires SelfFree(before) && Cut(before, mid, gone) && UnlinkedEverywhere(mid, after, id)
    ensures Cut(before, after, gone + {id})
  {
    StillSelfFree(before, mid, gone);
    assert !SelfLinked(mid, id) && !SelfLinked(before, id);
    forall l, x | 0 <= l < |after| ensures Nbrs(after[l], x) == LinksLeft(before[l], x, gone + {id}) {
      assert Unlinked(mid[l], after[l], id);
      assert Nbrs(mid[l], x) == LinksLeft(before[l], x, gone);
      assert Nbrs(mid[l], id) == LinksLeft(before[l], id, gone);
    }
  }

  lemma StillSelfFree(before: seq<Layer>, after: seq<Layer>, gone: set<Id>)
    requires SelfFree(before) && Cut(before, after, gone)
    ensures SelfFree(after)
  {
    forall id ensures !SelfLinked(after, id) {
      assert !SelfLinked(before, id);
    }
  }

  lemma GraphIsSelfFree(s: State, m0: nat, m: nat)
    requires LayersOk(s, m0, m)
    ensures SelfFree(s.layers)
  {
    forall id, l | 0 <= l < |s.layers| ensures id !in Nbrs(s.layers[l], id) {
      assert LayerOk(s.layers[l], AtLevel(s, l), Degree(l, m0, m));
    }
  }

  /**
   Where no node is linked to itself, no removal comes upon such a node: they are all
   defined, and in whatever order they are made they leave the same links.
  */
  lemma {:induction false} RemovalsDefined(before: seq<Layer>, after: seq<Layer>, order: seq<Id>)
    requires SelfFree(before) && UnlinkedInTurn(before, after, order)
    ensures SelfFree(after) && Cut(before, after, Elements(order))
    decreases |order|
  {
    if order == [] {
      forall l, x | 0 <= l < |after| ensures Nbrs(after[l], x) == LinksLeft(before[l], x, Elements(order)) {}
    } else {
      var rest, id := order[..|order| - 1], order[|order| - 1];
      var mid :| UnlinkedInTurn(before, mid, rest) && UnlinkedEverywhere(mid, after, id);
      RemovalsDefined(before, mid, rest);
      CutNext(before, mid, after, Elements(rest), id);
      assert order == rest + [id];
      assert Elements(order) == Elements(rest) + {id};
    }
    StillSelfFree(before, after, Elements(order));
  }

  // ----- What removals leave of a graph with mutual layers -----

  /** No link leads to a node that is not inserted. */
  ghost predicate NoDangling(s: State) {
    forall l, x {:trigger Nbrs(s.layers[l], x)} :: 0 <= l < |s.layers| ==> Nbrs(s.layers[l], x) <= s.inserted
  }

  /** `layers` are in order, and mutual, over the nodes of `s` without `gone`. */
  ghost predicate LayersLeft(s: State, layers: seq<Layer>, gone: set<Id>, m0: nat, m: nat) {
    && |layers| == |s.layers|
    && (forall l {:trigger layers[l]} :: 0 <= l < |layers| ==>
          LayerOk(layers[l], AtLevel(s, l) - gone, Degree(l, m0, m)) && Mutual(layers[l]))
    && (|layers| > 0 && CompleteOn(s.layers[0], s.inserted) ==> CompleteOn(layers[0], s.inserted - gone))
  }

  lemma OneLessLeft(s: State, mid: seq<Layer>, layers: seq<Layer>, gone: set<Id>, id: Id, m0: nat, m: nat)
    requires s.inserted <= s.levels.Keys
    requires LayersLeft(s, mid, gone, m0, m) && UnlinkedEverywhere(mid, layers, id)
    ensures LayersLeft(s, layers, gone + {id}, m0, m)
  {
    forall l | 0 <= l < |mid| ensures id !in Nbrs(mid[l], id) {
      assert LayerOk(mid[l], AtLevel(s, l) - gone, Degree(l, m0, m));
    }
    forall l | 0 <= l < |layers|
      ensures LayerOk(layers[l], AtLevel(s, l) - (gone + {id}), Degree(l, m0, m)) && Mutual(layers[l])
    {
      UnlinkedKeeps(mid[l], layers[l], AtLevel(s, l) - gone, id, Degree(l, m0, m));
      assert AtLevel(s, l) - gone - {id} == AtLevel(s, l) - (gone + {id});
    }
    if |layers| > 0 && CompleteOn(s.layers[0], s.inserted) {
      BottomLevel(s);
      UnlinkedKeeps(mid[0], layers[0], s.inserted - gone, id, m0);
      assert s.inserted - gone - {id} == s.inserted - (gone + {id});
    }
  }

  lemma {:induction false} UnlinkingLeaves(s: State, layers: seq<Layer>, order: seq<Id>, m0: nat, m: nat)
    requires s.inserted <= s.levels.Keys && LayersOk(s, m0, m) && AllMutual(s)
    requires UnlinkedInTurn(s.layers, layers, order)
    ensures LayersLeft(s, layers, Elements(order), m0, m)
    decreases |order|
  {
    if order == [] {
      assert forall l :: AtLevel(s, l) - Elements(order) == AtLevel(s, l);
      assert s.inserted - Elements(order) == s.inserted;
    } else {
      var rest, id := order[..|order| - 1], order[|order| - 1];
      var mid :| UnlinkedInTurn(s.layers, mid, rest) && UnlinkedEverywhere(mid, layers, id);
      UnlinkingLeaves(s, mid, rest, m0, m);
      OneLessLeft(s, mid, layers, Elements(rest), id, m0, m);
      assert order == rest + [id];
      assert Elements(order) == Elements(rest) + {id};
    }
  }

  /** Up to `m` + 1 nodes, removals leave no dangling link on any layer. */
  lemma RemovalsLeave(s: State, after: State, order: seq<Id>, m0: nat, m: nat)
    requires IsGraph(s, m0, m) && AllMutual(s) && RemovedInTurn(s, after, order)
    ensures LayersOk(after, m0, m) && AllMutual(after) && NoDangling(after)
    ensures BaseComplete(s) ==> BaseComplete(after)
  {
    UnlinkingLeaves(s, after.layers, order, m0, m);
    forall l ensures AtLevel(after, l) == AtLevel(s, l) - Elements(order) {}
    forall l, x | 0 <= l < |after.layers| ensures Nbrs(after.layers[l], x) <= after.inserted {
      assert LayerOk(after.layers[l], AtLevel(after, l), Degree(l, m0, m));
    }
  }

  lemma CompleteIsConnected(g: Layer, members: set<Id>)
    requires CompleteOn(g, members)
    ensures Connected(g, members)
  {
    forall ids | Closed(g, ids) && ids * members != {} ensures members <= ids {
      var a :| a in ids * members;
      forall b | b in members ensures b in ids {
        if b != a { assert b in Nbrs(g, a); }
      }
    }
  }

  // ----- When a graph survives its removals -----

  /** Every link from a node that stays to one that goes is answered. */
  ghost predicate PointedBack(s: State, gone: set<Id>) {
    forall l, x, id {:trigger id in Nbrs(s.layers[l], x)} ::
      0 <= l < |s.layers| && x !in gone && id in gone && id in Nbrs(s.layers[l], x) ==> x in Nbrs(s.layers[l], id)
  }

  lemma LeftLayersOk(s: State, after: State, gone: set<Id>, m0: nat, m: nat)
    requires LayersOk(s, m0, m) && PointedBack(s, gone) && Cut(s.layers, after.layers, gone)
    requires forall l :: AtLevel(after, l) == AtLevel(s, l) - gone
    ensures LayersOk(after, m0, m)
  {
    forall l | 0 <= l < |after.layers| ensures LayerOk(after.layers[l], AtLevel(after, l), Degree(l, m0, m)) {
      assert LayerOk(s.layers[l], AtLevel(s, l), Degree(l, m0, m));
      forall x
        ensures Nbrs(after.layers[l], x) <= AtLevel(s, l) - gone - {x} && |Nbrs(after.layers[l], x)| <= Degree(l, m0, m)
        ensures Nbrs(after.layers[l], x) != {} ==> x in AtLevel(s, l) - gone
      {
        assert Nbrs(s.layers[l], x) <= AtLevel(s, l) - {x};
        SubsetSize(Nbrs(after.layers[l], x), Nbrs(s.layers[l], x));
      }
    }
  }

  lemma LeftPointedBack(s: State, after: State, gone: set<Id>, m0: nat, m: nat)
    requires LayersOk(after, m0, m) && after.inserted == s.inserted - gone && Cut(s.layers, after.layers, gone)
    ensures PointedBack(s, gone)
  {
    forall l, x, id | 0 <= l < |s.layers| && x !in gone && id in gone && id in Nbrs(s.layers[l], x)
      ensures x in Nbrs(s.layers[l], id)
    {
      assert LayerOk(after.layers[l], AtLevel(after, l), Degree(l, m0, m));
      assert id !in Nbrs(after.layers[l], x);
    }
  }

  /** The entry point is in order after removals exactly when a node that stays lives on the highest level. */
  lemma EntryIffAnchored(s: State, survivors: State, refreshed: State, order: seq<Id>, m0: nat, m: nat)
    requires IsGraph(s, m0, m)
    requires RemovedInTurn(s, survivors, order) && EntryRefreshed(survivors, refreshed)
    ensures Anchored(s, Elements(order)) && LayersOk(refreshed, m0, m) ==> IsGraph(refreshed, m0, m)
    ensures IsGraph(refreshed, m0, m) ==> Anchored(s, Elements(order))
  {
    forall x | x in survivors.inserted ensures LevelOf(survivors, x) == LevelOf(s, x) {}
    if Anchored(s, Elements(order)) && s.inserted != {} {
      var x :| x in s.inserted - Elements(order) && LevelOf(s, x) == s.top;
      assert x in survivors.inserted && LevelOf(survivors, x) == survivors.top;
    }
    if IsGraph(refreshed, m0, m) && s.inserted != {} {
      assert refreshed.inserted != {};
      assert refreshed.entry in s.inserted - Elements(order) && LevelOf(s, refreshed.entry) == s.top;
    }
  }

  /**
   A graph survives its removals exactly when a node that stays lives on the highest level
   and every link from a node that stays to one that goes is answered.
  */
  lemma SurvivesIff(s: State, survivors: State, refreshed: State, order: seq<Id>, m0: nat, m: nat)
    requires IsGraph(s, m0, m)
    requires RemovedInTurn(s, survivors, order) && EntryRefreshed(survivors, refreshed)
    ensures IsGraph(refreshed, m0, m) <==> Anchored(s, Elements(order)) && PointedBack(s, Elements(order))
  {
    GraphIsSelfFree(s, m0, m);
    RemovalsDefined(s.layers, survivors.layers, order);
    forall l ensures AtLevel(refreshed, l) == AtLevel(s, l) - Elements(order) {}
    if PointedBack(s, Elements(order)) { LeftLayersOk(s, refreshed, Elements(order), m0, m); }
    EntryIffAnchored(s, survivors, refreshed, order, m0, m);
    if IsGraph(refreshed, m0, m) { LeftPointedBack(s, refreshed, Elements(order), m0, m); }
  }

  /** On mutual layers the second condition holds by itself. */
  lemma SurvivesIffAnchored(s: State, survivors: State, refreshed: State, order: seq<Id>, m0: nat, m: nat)
    requires IsGraph(s, m0, m) && AllMutual(s)
    requires RemovedInTurn(s, survivors, order) && EntryRefreshed(survivors, refreshed)
    ensures IsGraph(refreshed, m0, m) <==> Anchored(s, Elements(order))
    ensures AllMutual(refreshed) && NoDangling(refreshed) && (BaseComplete(s) ==> BaseComplete(refreshed))
  {
    RemovalsLeave(s, survivors, order, m0, m);
    forall l, x, id | 0 <= l < |s.layers| && id in Nbrs(s.layers[l], x) ensures x in Nbrs(s.layers[l], id) {
      assert Mutual(s.layers[l]);
    }
    SurvivesIff(s, survivors, refreshed, order, m0, m);
  }

  lemma PrunedHolds(grade: Grade, s: State, survivors: State, refreshed: State, order: seq<Id>, waiting: set<Id>,
                    m0: nat, m: nat, ef: nat)
    requires Deserves(grade, s, waiting, Elements(order), m0, m, ef)
    requires RemovedInTurn(s, survivors, order) && EntryRefreshed(survivors, refreshed)
    ensures Holds(grade, refreshed, waiting, m0, m, ef)
  {
    if Elements(order) == {} {
      FirstElement(order);
      NothingRemoved(s, survivors, order);
      assert s.inserted - Elements(order) == s.inserted;
      forall l ensures AtLevel(refreshed, l) == AtLevel(s, l) {}
      assert LayersOk(refreshed, m0, m);
    } else {
      SurvivesIffAnchored(s, survivors, refreshed, order, m0, m);
      if grade.Connects() && refreshed.inserted != {} {
        CompleteIsConnected(refreshed.layers[0], refreshed.inserted);
      }
    }
  }

  // ----- Searching from a stale entry point -----

  ghost predicate Isolated(layers: seq<Layer>, id: Id) {
    forall l {:trigger layers[l]} :: 0 <= l < |layers| ==> Nbrs(layers[l], id) == {}
  }

  /** No link leads from `id` to another node. */
  ghost predicate AloneOn(layers: seq<Layer>, id: Id) {
    forall l {:trigger layers[l]} :: 0 <= l < |layers| ==> Nbrs(layers[l], id) <= {id}
  }

  /** A walk from a node without links to others finds that node alone. */
  lemma FoundAlone(sp: Space, g: Layer, q: Vec, id: Id, ef: nat, result: set<Cand>, visited: set<Id>)
    requires Nbrs(g, id) <= {id} && SearchOutcome(sp, g, q, {id}, ef, result, visited)
    ensures result == {sp.Score(q, id)}
  {
    assert Closed(g, {id});
    assert visited == {id};
    assert sp.Score(q, id) in result;
  }

  lemma DescendsAlone(sp: Space, layers: seq<Layer>, q: Vec, id: Id, l: int, floor: int, to: set<Id>)
    requires l < |layers| && floor >= -1 && AloneOn(layers, id)
    requires Descends(sp, layers, q, {id}, l, floor, to)
    ensures to == {id}
  {
    assert ClosedLayers(layers, {id});
    DescendsInside(sp, layers, q, {id}, l, floor, to, {id});
  }

  /** Without a top-level survivor the entry point goes stale, or missing, and no removed node has links. */
  lemma StaleAlone(s: State, survivors: State, refreshed: State, order: seq<Id>, m0: nat, m: nat)
    requires IsGraph(s, m0, m) && !Anchored(s, Elements(order))
    requires RemovedInTurn(s, survivors, order) && EntryRefreshed(survivors, refreshed)
    ensures s.entry in Elements(order) && s.entry != 0 && s.entry !in refreshed.inserted
    ensures refreshed.entry == if refreshed.inserted == {} then 0 else s.entry
    ensures Cut(s.layers, refreshed.layers, Elements(order))
    ensures forall id {:trigger Isolated(refreshed.layers, id)} :: id in Elements(order) ==>
      Isolated(refreshed.layers, id)
  {
    GraphIsSelfFree(s, m0, m);
    RemovalsDefined(s.layers, survivors.layers, order);
    assert LevelOf(s, s.entry) == s.top;
    assert s.entry in Elements(order);
    forall x | x in survivors.inserted ensures LevelOf(survivors, x) == LevelOf(s, x) != s.top {
      assert x in s.inserted - Elements(order);
    }
  }

  type NodeStep = (State, State, Id) -> bool

  /** One insertion at some level; an id without a vector only leaves its level behind. */
  ghost function InsertStep(sp: Space, m0: nat, m: nat, ef: nat): NodeStep {
    (s: State, s': State, id: Id) =>
      if id in sp.vectors then exists level: nat, trail :: Inserts(sp, s, s', id, level, trail, m0, m, ef)
      else exists level: nat :: s' == Started(s, id, level)
  }

  /** `step` says no more than an insertion does. */
  ghost predicate Allows(sp: Space, step: NodeStep, m0: nat, m: nat, ef: nat) {
    && (forall s: State, s': State, id: Id, level: nat, trail: Trail
         {:trigger Inserts(sp, s, s', id, level, trail, m0, m, ef)} ::
          Inserts(sp, s, s', id, level, trail, m0, m, ef) ==> step(s, s', id))
    && (forall s: State, id: Id, level: nat {:trigger Started(s, id, level)} :: id !in sp.vectors ==>
      step(s, Started(s, id, level), id))
  }

  lemma InsertStepAllows(sp: Space, m0: nat, m: nat, ef: nat)
    ensures Allows(sp, InsertStep(sp, m0, m, ef), m0, m, ef)
  {
  }

  lemma AllowsStep(sp: Space, step: NodeStep, s: State, s': State, id: Id, level: nat, trail: Trail, m0: nat, m: nat,
                   ef: nat)
    requires Allows(sp, step, m0, m, ef)
    requires if id in sp.vectors then Inserts(sp, s, s', id, level, trail, m0, m, ef) else s' == Started(s, id, level)
    ensures step(s, s', id)
  {
  }

  ghost predicate InTurn(step: NodeStep, before: State, after: State, order: seq<Id>)
    decreases |order|
  {
    if order == [] then after == before
    else exists mid {:trigger step(mid, after, order[|order| - 1])} ::
      InTurn(step, before, mid, order[..|order| - 1]) && step(mid, after, order[|order| - 1])
  }

  lemma InTurnNext(step: NodeStep, before: State, mid: State, after: State, order: seq<Id>, id: Id)
    requires InTurn(step, before, mid, order) && step(mid, after, id)
    ensures InTurn(step, before, after, order + [id])
  {
    var order' := order + [id];
    assert order'[..|order'| - 1] == order && order'[|order'| - 1] == id;
    assert step(mid, after, order'[|order'| - 1]);
  }

  /** `rest` of the ids `all` are still to be inserted. */
  ghost predicate InsertedSoFar(step: NodeStep, before: State, now: State, order: seq<Id>, all: set<Id>, rest: set<Id>,
                                keys: set<Id>, m0: nat, m: nat, ef: nat)
  {
    && rest <= all && Elements(order) == all - rest
    && Distinct(order) && InTurn(step, before, now, order)
    && now.inserted == before.inserted + (all - rest) * keys
    && Keeps(before, all, now, rest, m0, m, ef)
  }

  lemma NoneInserted(step: NodeStep, s: State, all: set<Id>, keys: set<Id>, m0: nat, m: nat, ef: nat)
    ensures InsertedSoFar(step, s, s, [], all, all, keys, m0, m, ef)
  {
  }

  lemma InsertedNext(step: NodeStep, before: State, mid: State, after: State, order: seq<Id>, all: set<Id>,
                     rest: set<Id>, keys: set<Id>, id: Id, m0: nat, m: nat, ef: nat)
    requires InsertedSoFar(step, before, mid, order, all, rest, keys, m0, m, ef) && id in rest
    requires step(mid, after, id)
    requires after.inserted == mid.inserted + (if id in keys then {id} else {})
    requires Keeps(before, all, after, rest - {id}, m0, m, ef)
    ensures InsertedSoFar(step, before, after, order + [id], all, rest - {id}, keys, m0, m, ef)
  {
    InTurnNext(step, before, mid, after, order, id);
    NextDone(all, rest, id);
    assert Elements(order + [id]) == Elements(order) + {id};
  }

  lemma AllInserted(step: NodeStep, before: State, after: State, order: seq<Id>, all: set<Id>, keys: set<Id>, m0: nat,
                    m: nat, ef: nat)
    requires InsertedSoFar(step, before, after, order, all, {}, keys, m0, m, ef)
    ensures Elements(order) == all && Distinct(order) && InTurn(step, before, after, order)
    ensures after.inserted == before.inserted + all * keys && Keeps(before, all, after, {}, m0, m, ef)
  {
  }

  /** The stages of a build, and the orders in which the hash sets yield their ids. */
  datatype Stages = Stages(removed: seq<Id>, survivors: State, refreshed: State, added: seq<Id>)

  ghost predicate Rebuilt(step: NodeStep, before: State, after: State, gone: set<Id>, waiting: set<Id>, stages: Stages)
  {
    && Elements(stages.removed) == gone && RemovedInTurn(before, stages.survivors, stages.removed)
    && EntryRefreshed(stages.survivors, stages.refreshed)
    && Elements(stages.added) == waiting && Distinct(stages.added)
    && InTurn(step, stages.refreshed, after, stages.added)
  }

  /** A build without insertions, after which no node lives on the highest level. */
  lemma StaleAfterBuild(step: NodeStep, before: State, after: State, gone: set<Id>, stages: Stages, m0: nat, m: nat)
    requires Rebuilt(step, before, after, gone, {}, stages)
    requires IsGraph(before, m0, m) && !Anchored(before, gone) && after.inserted != {}
    ensures after.entry == before.entry && after.entry !in after.inserted && Isolated(after.layers, after.entry)
  {
    FirstElement(stages.added);
    assert after == stages.refreshed;
    StaleAlone(before, stages.survivors, stages.refreshed, stages.removed, m0, m);
  }

  lemma StagesDone(step: NodeStep, before: State, after: State, gone: set<Id>, waiting: set<Id>, stages: Stages,
                   m0: nat, m: nat, ef: nat)
    requires Elements(stages.removed) == gone && RemovedInTurn(before, stages.survivors, stages.removed)
    requires EntryRefreshed(stages.survivors, stages.refreshed)
    requires Elements(stages.added) == waiting && Distinct(stages.added)
    requires InTurn(step, stages.refreshed, after, stages.added)
    requires Keeps(stages.refreshed, waiting, after, {}, m0, m, ef)
    ensures Rebuilt(step, before, after, gone, waiting, stages)
    ensures forall grade {:trigger Deserves(grade, after, {}, {}, m0, m, ef)} ::
      Deserves(grade, before, waiting, gone, m0, m, ef) ==> Deserves(grade, after, {}, {}, m0, m, ef)
  {
    forall grade | Deserves(grade, before, waiting, gone, m0, m, ef) ensures Deserves(grade, after, {}, {}, m0, m, ef) {
      PrunedHolds(grade, before, stages.survivors, stages.refreshed, stages.removed, waiting, m0, m, ef);
      NothingWaits(grade, after, m0, m, ef);
    }
  }

  lemma NothingWaits(grade: Grade, s: State, m0: nat, m: nat, ef: nat)
    requires Holds(grade, s, {}, m0, m, ef)
    ensures Deserves(grade, s, {}, {}, m0, m, ef)
  {
    assert s.inserted - {} + {} == s.inserted + {};
  }

  lemma EmptyDeserves(s: State, waiting: set<Id>, grade: Grade, m0: nat, m: nat, ef: nat)
    requires s == State({}, map[], [], 0, -1)
    requires 0 !in waiting && Fits(grade, |waiting|, m0, m, ef)
    ensures Deserves(grade, s, waiting, {}, m0, m, ef)
  {
    assert s.inserted - {} + waiting == waiting;
  }

  // ----- Searching -----

  /** Links join inserted nodes, the entry point is one, and layer 0 is connected. */
  ghost predicate Searchable(s: State) {
    && WellFormed(s) && NoDangling(s) && BaseConnected(s)
    && (s.inserted != {} ==> s.entry in s.inserted)
  }

  lemma ConnectedIsSearchable(s: State, m0: nat, m: nat)
    requires IsGraph(s, m0, m) && BaseConnected(s)
    ensures Searchable(s)
  {
    forall l, x | 0 <= l < |s.layers| ensures Nbrs(s.layers[l], x) <= s.inserted {
      assert LayerOk(s.layers[l], AtLevel(s, l), Degree(l, m0, m));
    }
  }

  ghost predicate ClosedLayers(layers: seq<Layer>, ids: set<Id>) {
    forall l {:trigger layers[l]} :: 0 <= l < |layers| ==> Closed(layers[l], ids)
  }

  /** A walk stays in a set that no edge leaves. */
  lemma FoundInside(sp: Space, g: Layer, q: Vec, ep: set<Id>, ef: nat, result: set<Cand>, visited: set<Id>,
                    ids: set<Id>)
    requires ep != {} && ep <= ids && Closed(g, ids) && SearchOutcome(sp, g, q, ep, ef, result, visited)
    ensures result != {} && visited <= ids && forall c :: c in result ==> c.id in ids
  {
  }

  lemma HopInside(sp: Space, g: Layer, q: Vec, from: set<Id>, to: set<Id>, ids: set<Id>)
    requires from <= ids && Closed(g, ids) && Hop(sp, g, q, from, to)
    ensures to != {} && to <= ids
  {
    var candidates, visited :| SearchOutcome(sp, g, q, from, 1, candidates, visited) && to == {Least(candidates).id};
    FoundInside(sp, g, q, from, 1, candidates, visited, ids);
  }

  lemma {:induction false} HopsInside(hop: Hops, layers: seq<Layer>, from: set<Id>, l: int, floor: int, to: set<Id>,
                                      ids: set<Id>)
    requires l < |layers| && floor >= -1 && from != {} && from <= ids && ClosedLayers(layers, ids)
    requires DescendsBy(hop, layers, from, l, floor, to)
    requires forall g, a, b {:trigger hop(g, a, b)} ::
      a <= ids && Closed(g, ids) && hop(g, a, b) ==> b != {} && b <= ids
    ensures to != {} && to <= ids
    decreases l
  {
    if l > floor {
      var mid :| hop(layers[l], from, mid) && DescendsBy(hop, layers, mid, l - 1, floor, to);
      HopsInside(hop, layers, mid, l - 1, floor, to, ids);
    }
  }

  lemma DescendsInside(sp: Space, layers: seq<Layer>, q: Vec, from: set<Id>, l: int, floor: int, to: set<Id>,
                       ids: set<Id>)
    requires l < |layers| && floor >= -1 && from != {} && from <= ids && ClosedLayers(layers, ids)
    requires Descends(sp, layers, q, from, l, floor, to)
    ensures to != {} && to <= ids
  {
    var hop := HopsFor(sp, q);
    forall g, a, b | a <= ids && Closed(g, ids) && hop(g, a, b) ensures b != {} && b <= ids {
      HopInside(sp, g, q, a, b, ids);
    }
    HopsInside(hop, layers, from, l, floor, to, ids);
  }

  /** A hop from one node ends in a node that is no farther, and no farther than its own neighbours. */
  lemma HopIsNearer(sp: Space, g: Layer, q: Vec, x: Id, to: set<Id>)
    requires Hop(sp, g, q, {x}, to)
    ensures exists y :: to == {y} && Settled(sp, g, q, x, y)
  {
    var candidates, visited :| SearchOutcome(sp, g, q, {x}, 1, candidates, visited) && to == {Least(candidates).id};
    var c := Least(candidates);
    assert candidates == {c} by { OnlyOne(candidates, c); }
    assert x in visited && Greatest(candidates) == c;
    forall n | n in Nbrs(g, c.id) + {x} ensures sp.Dist(q, c.id) <= sp.Dist(q, n) {
      assert n in visited;
      if sp.Score(q, n) in candidates { assert sp.Score(q, n) == c; }
    }
    assert to == {c.id} && Settled(sp, g, q, x, c.id);
  }

  lemma OnlyOne(cands: set<Cand>, c: Cand)
    requires |cands| <= 1 && c in cands
    ensures cands == {c}
  {
    SameSize({c}, cands);
  }

  ghost predicate Settled(sp: Space, g: Layer, q: Vec, x: Id, y: Id) {
    sp.Dist(q, y) <= sp.Dist(q, x) && forall n :: n in Nbrs(g, y) ==> sp.Dist(q, y) <= sp.Dist(q, n)
  }

  lemma {:induction false} HopsSettle(sp: Space, hop: Hops, layers: seq<Layer>, q: Vec, x: Id, l: int, floor: int,
                                      to: set<Id>)
    requires -1 <= floor < l < |layers| && DescendsBy(hop, layers, {x}, l, floor, to)
    requires forall g, a, b {:trigger hop(g, {a}, b)} ::
      hop(g, {a}, b) ==> exists y :: b == {y} && Settled(sp, g, q, a, y)
    ensures exists y :: to == {y} && Settled(sp, layers[floor + 1], q, x, y)
    decreases l
  {
    var mid :| hop(layers[l], {x}, mid) && DescendsBy(hop, layers, mid, l - 1, floor, to);
    var y :| mid == {y} && Settled(sp, layers[l], q, x, y);
    if l - 1 > floor {
      HopsSettle(sp, hop, layers, q, y, l - 1, floor, to);
      var z :| to == {z} && Settled(sp, layers[floor + 1], q, y, z);
      assert Settled(sp, layers[floor + 1], q, x, z);
    }
  }

  /**
   The descent ends in a node no farther than the one it started from, and no farther than
   any of its neighbours on the last layer that it went over.
  */
  lemma DescentSettles(sp: Space, layers: seq<Layer>, q: Vec, x: Id, l: int, floor: int, to: set<Id>)
    requires -1 <= floor < l < |layers| && Descends(sp, layers, q, {x}, l, floor, to)
    ensures exists y :: to == {y} && Settled(sp, layers[floor + 1], q, x, y)
  {
    var hop := HopsFor(sp, q);
    forall g, a, b | hop(g, {a}, b) ensures exists y :: b == {y} && Settled(sp, g, q, a, y) {
      HopIsNearer(sp, g, q, a, b);
    }
    HopsSettle(sp, hop, layers, q, x, l, floor, to);
  }

  /** So an insertion below the highest layer starts its linking there. */
  lemma InsertionSettles(sp: Space, before: State, after: State, id: Id, level: nat, trail: Trail, m0: nat, m: nat,
                         ef: nat)
    requires Inserts(sp, before, after, id, level, trail, m0, m, ef) && level < before.top && before.entry != 0
    ensures level in trail.eps
    ensures exists y ::
      trail.eps[level] == {y} && Settled(sp, before.layers[level + 1], sp.vectors[id], before.entry, y)
  {
    DescentSettles(sp, before.layers, sp.vectors[id], before.entry, before.top, level, trail.ep);
  }

  /** Searching a connected layer 0 with room for every node finds exactly the inserted nodes. */
  lemma BaseSearchIsExact(sp: Space, s: State, q: Vec, ep: set<Id>, ef: nat, result: set<Cand>, visited: set<Id>)
    requires Searchable(s) && s.inserted != {} && ep != {} && ep <= s.inserted && |s.inserted| <= ef
    requires SearchOutcome(sp, s.layers[0], q, ep, ef, result, visited)
    ensures result == sp.Scores(q, s.inserted)
  {
    var g := s.layers[0];
    assert Closed(g, s.inserted);
    FoundInside(sp, g, q, ep, ef, result, visited, s.inserted);
    SubsetSize(visited, s.inserted);
    RoomForAll(sp, g, q, ep, ef, result, visited);
    var e :| e in ep;
    assert e in visited * s.inserted;
  }
}
