/** One node more than the degree bound of layer 0 has room for: nodes that no search can find. */
module HnswCrowded {
  import opened Ranking
  import opened Batches
  import opened Vectors
  import opened Spaces
  import opened HnswGraph
  import opened HnswSearch
  import opened HnswLink
  import opened HnswState
  import opened HnswEntry
  import opened HnswEmptied

  /** No link, and not the entry point, leads to `id`. */
  ghost predicate Unseen(s: State, id: Id) {
    WellFormed(s) && s.entry in s.inserted - {id} && ClosedLayers(s.layers, s.inserted - {id})
  }

  ghost predicate OneWay(g: Layer, id: Id) {
    forall x {:trigger Nbrs(g, x)} :: id !in Nbrs(g, x)
  }

  /** Node `id` has `degree` links on layer 0, and none to it. */
  ghost predicate Crowded(s: State, id: Id, degree: nat) {
    Unseen(s, id) && |s.layers| > 0 && |Nbrs(s.layers[0], id)| == degree && OneWay(s.layers[0], id)
  }

  /**
   Where `m0` + 1 nodes are all linked with one another, a node with a larger id, drawn
   onto layer 0, gets `m0` links of its own and none to it.
  */
  lemma LastIsUnseen(sp: Space, s: State, after: State, id: Id, trail: Trail, m0: nat, m: nat, ef: nat)
    requires IsGraph(s, m0, m) && BaseComplete(s) && |s.inserted| == m0 + 1 <= ef
    requires forall x :: x in s.inserted ==> x < id
    requires Inserts(sp, s, after, id, 0, trail, m0, m, ef)
    ensures Crowded(after, id, m0) && after.inserted == s.inserted + {id}
  {
    assert s.inserted != {} && id !in s.inserted;
    CompleteIsConnected(s.layers[0], s.inserted);
    ConnectedIsSearchable(s, m0, m);
    JoinsBottom(sp, s, after, id, trail, m0, m, ef);
    BottomLevel(s);
    assert LayerOk(s.layers[0], AtLevel(s, 0), Degree(0, m0, m));
    CrowdedLayer(sp, s.layers[0], after.layers[0], sp.vectors[id], id, trail.eps[0], trail.eps[-1], ef, m0, s.inserted);
    LeftOut(s, after, id);
  }

  /** Removing nodes that it points at leaves its links dangling, in whatever order and with whichever others. */
  lemma RemovalDangles(s: State, survivors: State, order: seq<Id>, id: Id, degree: nat, gone: Id, m0: nat, m: nat)
    requires IsGraph(s, m0, m) && Crowded(s, id, degree) && gone in Nbrs(s.layers[0], id)
    requires RemovedInTurn(s, survivors, order) && gone in Elements(order) && id !in Elements(order)
    ensures gone !in survivors.inserted && gone in Nbrs(survivors.layers[0], id)
    ensures !NoDangling(survivors) && !PointedBack(s, Elements(order))
  {
    GraphIsSelfFree(s, m0, m);
    RemovalsDefined(s.layers, survivors.layers, order);
    assert id !in Nbrs(s.layers[0], gone);
    assert Nbrs(survivors.layers[0], id) == LinksLeft(s.layers[0], id, Elements(order));
  }

  lemma LeftOut(s: State, after: State, id: Id)
    requires Searchable(s) && s.inserted != {} && id !in s.inserted
    requires JoinedBottom(s, after, id) && Closed(after.layers[0], s.inserted)
    ensures Unseen(after, id)
  {
    assert after.inserted - {id} == s.inserted;
    forall l | 0 <= l < |after.layers| ensures Closed(after.layers[l], s.inserted) {
      if l > 0 { assert after.layers[l] == s.layers[l] && Closed(s.layers[l], s.inserted); }
    }
  }

  /** Only layer 0 and the inserted ids have changed. */
  ghost predicate JoinedBottom(s: State, after: State, id: Id) {
    && WellFormed(after) && |after.layers| == |s.layers| > 0 && after.entry == s.entry
    && after.inserted == s.inserted + {id}
    && forall l {:trigger after.layers[l]} :: 0 < l < |after.layers| ==> after.layers[l] == s.layers[l]
  }

  lemma JoinsBottom(sp: Space, s: State, after: State, id: Id, trail: Trail, m0: nat, m: nat, ef: nat)
    requires Searchable(s) && 0 !in s.inserted && s.inserted != {}
    requires Inserts(sp, s, after, id, 0, trail, m0, m, ef)
    ensures JoinedBottom(s, after, id)
    ensures 0 in trail.eps && -1 in trail.eps && trail.eps[0] != {} && trail.eps[0] <= s.inserted
    ensures Rewired(sp, s.layers[0], after.layers[0], sp.vectors[id], id, trail.eps[0], trail.eps[-1], ef, m0)
  {
    var q := sp.vectors[id];
    assert ClosedLayers(s.layers, s.inserted);
    DescendsInside(sp, s.layers, q, {s.entry}, s.top, 0, trail.ep, s.inserted);
    LayerRewired(sp, s, id, trail, 0, 0, m0, m, ef);
    RestUntouched(RewiringFor(sp, q, id, ef), s, after, id, trail, m0, m);
  }

  lemma RestUntouched(rewired: Rewiring, s: State, after: State, id: Id, trail: Trail, m0: nat, m: nat)
    requires WellFormed(s) && s.inserted != {} && s.entry != 0
    requires RewiredDown(rewired, s.layers, trail.layers, trail.eps, 0, -1, m0, m)
    requires after == Finished(s, trail.layers, id, 0)
    ensures JoinedBottom(s, after, id) && after.layers == trail.layers
  {
  }

  lemma CrowdedLayer(sp: Space, g: Layer, g': Layer, q: Vec, id: Id, ep: set<Id>, found: set<Id>, ef: nat, m: nat,
                     members: set<Id>)
    requires LayerOk(g, members, m) && CompleteOn(g, members) && |members| == m + 1 <= ef
    requires (forall x :: x in members ==> x < id) && ep != {} && ep <= members
    requires Rewired(sp, g, g', q, id, ep, found, ef, m)
    ensures OneWay(g', id) && |Nbrs(g', id)| == m && Closed(g', members)
  {
    var candidates, visited, selected: set<Cand>, g1 :| SearchOutcome(sp, g, q, ep, ef, candidates, visited)
      && IsSmallest(selected, candidates, m) && Linked(g, g1, id, Ids(selected)) && Shrunk(g1, g', id, m)
      && found == Ids(candidates);
    CompleteIsConnected(g, members);
    WalkOverLayer(sp, g, q, ep, ef, candidates, visited, members, m);
    sp.ScoresSize(q, members);
    ScoredIds(sp, q, selected);
    OneWayLink(g, g1, g', members, id, Ids(selected), m);
    assert LinksInside(g, members);
    LinkedInside(g, g1, g', members, id, Ids(selected), m);
    forall x | x in members ensures Nbrs(g', x) <= members {
      assert Nbrs(g', x) <= members + {id};
    }
  }

  /** Scores of different ids are different. */
  lemma {:induction false} ScoredIds(sp: Space, q: Vec, cands: set<Cand>)
    requires forall c :: c in cands ==> c == sp.Score(q, c.id)
    ensures |Ids(cands)| == |cands|
  {
    if cands != {} {
      var c: Cand :| c in cands;
      ScoredIds(sp, q, cands - {c});
      assert Ids(cands) == Ids(cands - {c}) + {c.id};
      assert c.id !in Ids(cands - {c});
    }
  }
}
