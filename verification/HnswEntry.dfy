/**
 What an insertion comes to where its entry point decides it: a node that is its own entry
 point finds itself alone, and any other sees no more than a set of nodes that no link leaves.
*/
module HnswEntry {
  import opened Ranking
  import opened Batches
  import opened Vectors
  import opened Spaces
  import opened HnswGraph
  import opened HnswSearch
  import opened HnswLink
  import opened HnswState

  // ----- A node that starts the search for its neighbours at itself -----

  /** Nothing changes but for a link from `id` to itself, if there is room for a link. */
  ghost predicate SelfAdded(g: Layer, g': Layer, id: Id, m: nat) {
    forall x {:trigger Nbrs(g', x)} :: Nbrs(g', x) == Nbrs(g, x) + (if x == id && m >= 1 then {id} else {})
  }

  lemma RewiresAlone(sp: Space, g: Layer, g': Layer, q: Vec, id: Id, found: set<Id>, ef: nat, m: nat)
    requires Nbrs(g, id) == {} && Rewired(sp, g, g', q, id, {id}, found, ef, m)
    ensures found == {id} && SelfAdded(g, g', id, m)
  {
    var candidates, visited, selected: set<Cand>, g1 :| SearchOutcome(sp, g, q, {id}, ef, candidates, visited)
      && IsSmallest(selected, candidates, m) && Linked(g, g1, id, Ids(selected)) && Shrunk(g1, g', id, m)
      && found == Ids(candidates);
    FoundAlone(sp, g, q, id, ef, candidates, visited);
    OneSelected(sp.Score(q, id), selected, m);
    LinkedToSelf(g, g1, g', id, m);
  }

  lemma OneSelected(c: Cand, selected: set<Cand>, m: nat)
    requires IsSmallest(selected, {c}, m)
    ensures Ids({c}) == {c.id} && Ids(selected) == if m >= 1 then {c.id} else {}
  {
    assert selected == if m >= 1 then {c} else {};
  }

  lemma LinkedToSelf(g: Layer, g1: Layer, g': Layer, id: Id, m: nat)
    requires Nbrs(g, id) == {} && Linked(g, g1, id, if m >= 1 then {id} else {}) && Shrunk(g1, g', id, m)
    ensures SelfAdded(g, g', id, m)
  {
    assert Nbrs(g1, id) == if m >= 1 then {id} else {};
    forall x ensures Nbrs(g', x) == Nbrs(g1, x) {
      assert x in Nbrs(g1, id) ==> |Nbrs(g1, x)| <= m;
    }
  }

  ghost predicate Rewires(sp: Space, s: State, id: Id, trail: Trail, from: int, m0: nat, m: nat, ef: nat) {
    && id in sp.vectors
    && RewiredDown(RewiringFor(sp, sp.vectors[id], id, ef), s.layers, trail.layers, trail.eps, from, -1, m0, m)
  }

  lemma LayerRewired(sp: Space, s: State, id: Id, trail: Trail, from: int, l: int, m0: nat, m: nat, ef: nat)
    requires Rewires(sp, s, id, trail, from, m0, m, ef) && 0 <= l <= from
    ensures l < |s.layers| == |trail.layers| && l in trail.eps && l - 1 in trail.eps && trail.eps[l] != {}
    ensures Rewired(sp, s.layers[l], trail.layers[l], sp.vectors[id], id, trail.eps[l], trail.eps[l - 1], ef,
                    Degree(l, m0, m))
  {
    assert RewiringFor(sp, sp.vectors[id], id, ef)(s.layers[l], trail.layers[l], trail.eps[l], trail.eps[l - 1],
                                                   Degree(l, m0, m));
  }

  /** What a layer's search finds starts that of the layer below: all that can be reached, if there is room. */
  lemma HandsDownAll(sp: Space, s: State, after: State, id: Id, level: nat, trail: Trail, l: nat, m0: nat, m: nat,
                     ef: nat)
    requires Inserts(sp, s, after, id, level, trail, m0, m, ef) && l <= level && l <= s.top
    requires l in trail.eps && |Reach(s.layers[l], trail.eps[l])| <= ef
    ensures l - 1 in trail.eps && trail.eps[l - 1] == Reach(s.layers[l], trail.eps[l])
  {
    LayerRewired(sp, s, id, trail, Min(level, s.top), l, m0, m, ef);
    RewiredFindsAll(sp, s.layers[l], trail.layers[l], sp.vectors[id], id, trail.eps[l], trail.eps[l - 1], ef,
      Degree(l, m0, m));
  }

  lemma RewiredFindsAll(sp: Space, g: Layer, g': Layer, q: Vec, id: Id, ep: set<Id>, found: set<Id>, ef: nat, m: nat)
    requires ep != {} && Rewired(sp, g, g', q, id, ep, found, ef, m) && |Reach(g, ep)| <= ef
    ensures found == Reach(g, ep)
  {
    var candidates, visited :| SearchOutcome(sp, g, q, ep, ef, candidates, visited) && found == Ids(candidates);
    Complete(sp, g, q, ep, ef, candidates, visited);
    IdsOfScores(sp, q, Reach(g, ep));
  }

  lemma IdsOfScores(sp: Space, q: Vec, ids: set<Id>)
    ensures Ids(sp.Scores(q, ids)) == ids
  {
    forall id | id in ids ensures id in Ids(sp.Scores(q, ids)) { assert sp.Score(q, id) in sp.Scores(q, ids); }
  }

  lemma NextAlone(sp: Space, s: State, id: Id, trail: Trail, from: int, l: int, m0: nat, m: nat, ef: nat)
    requires Rewires(sp, s, id, trail, from, m0, m, ef) && 0 <= l <= from
    requires l in trail.eps && trail.eps[l] == {id} && Nbrs(s.layers[l], id) == {}
    ensures l - 1 in trail.eps && trail.eps[l - 1] == {id}
    ensures SelfAdded(s.layers[l], trail.layers[l], id, Degree(l, m0, m))
  {
    LayerRewired(sp, s, id, trail, from, l, m0, m, ef);
    RewiresAlone(sp, s.layers[l], trail.layers[l], sp.vectors[id], id, trail.eps[l - 1], ef, Degree(l, m0, m));
  }

  lemma {:induction false} StartsAlone(sp: Space, s: State, id: Id, trail: Trail, from: int, l: int, m0: nat, m: nat,
                                       ef: nat)
    requires Rewires(sp, s, id, trail, from, m0, m, ef) && from in trail.eps && trail.eps[from] == {id}
    requires Isolated(s.layers, id) && -1 <= l <= from
    ensures l in trail.eps && trail.eps[l] == {id}
    decreases from - l
  {
    if l < from {
      StartsAlone(sp, s, id, trail, from, l + 1, m0, m, ef);
      NextAlone(sp, s, id, trail, from, l + 1, m0, m, ef);
    }
  }

  /** The layers after node `id` was linked to itself where it is and where there is room. */
  ghost function SelfLinkedOn(s: State, id: Id, level: nat, l: nat, x: Id, m0: nat, m: nat): set<Id> {
    (if l < |s.layers| then Nbrs(s.layers[l], x) else {})
    + (if x == id && l <= level && l <= s.top && Degree(l, m0, m) >= 1 then {id} else {})
  }

  /**
   A node without links that is its own entry point is linked to itself, exactly on the
   layers that were there before, up to its own level, that have room for a link; and no
   other link changes.
  */
  lemma OwnEntry(sp: Space, s: State, after: State, id: Id, level: nat, trail: Trail, m0: nat, m: nat, ef: nat)
    requires Isolated(s.layers, id) && (s.entry == 0 || s.entry == id)
    requires Inserts(sp, s, after, id, level, trail, m0, m, ef)
    ensures after.entry == id && |after.layers| == Max(s.top, level) + 1
    ensures forall l, x {:trigger Nbrs(after.layers[l], x)} :: 0 <= l < |after.layers| ==>
      Nbrs(after.layers[l], x) == SelfLinkedOn(s, id, level, l, x, m0, m)
  {
    DescendsAlone(sp, s.layers, sp.vectors[id], id, s.top, level, trail.ep);
    OwnLayers(sp, s, after, id, level, trail, Min(level, s.top), m0, m, ef);
  }

  lemma OwnLayers(sp: Space, s: State, after: State, id: Id, level: nat, trail: Trail, from: int, m0: nat, m: nat,
                  ef: nat)
    requires Rewires(sp, s, id, trail, from, m0, m, ef) && from in trail.eps && trail.eps[from] == {id}
    requires WellFormed(s) && Isolated(s.layers, id) && from == Min(level, s.top)
    requires |trail.layers| == |s.layers| && after == Finished(s, trail.layers, id, level)
    ensures forall l, x {:trigger Nbrs(after.layers[l], x)} :: 0 <= l < |after.layers| ==>
      Nbrs(after.layers[l], x) == SelfLinkedOn(s, id, level, l, x, m0, m)
  {
    forall l, x | 0 <= l < |after.layers|
      ensures Nbrs(after.layers[l], x) == SelfLinkedOn(s, id, level, l, x, m0, m)
    {
      if l <= from {
        OwnLayer(sp, s, id, level, trail, from, l, m0, m, ef);
        assert after.layers[l] == trail.layers[l];
      } else if l <= s.top {
        assert trail.layers[l] == s.layers[l];
      }
    }
  }

  lemma OwnLayer(sp: Space, s: State, id: Id, level: nat, trail: Trail, from: int, l: nat, m0: nat, m: nat, ef: nat)
    requires Rewires(sp, s, id, trail, from, m0, m, ef) && from in trail.eps && trail.eps[from] == {id}
    requires Isolated(s.layers, id) && l <= from <= level && from <= s.top && from < |s.layers| == |trail.layers|
    ensures forall x {:trigger Nbrs(trail.layers[l], x)} ::
      Nbrs(trail.layers[l], x) == SelfLinkedOn(s, id, level, l, x, m0, m)
  {
    StartsAlone(sp, s, id, trail, from, l, m0, m, ef);
    NextAlone(sp, s, id, trail, from, l, m0, m, ef);
  }

  lemma OneInTurn(step: NodeStep, before: State, after: State, id: Id, order: seq<Id>)
    requires InTurn(step, before, after, order) && Distinct(order) && Elements(order) == {id}
    ensures step(before, after, id)
  {
    assert id in order;
    var rest := order[..|order| - 1];
    LastOfDistinct(order);
    FirstElement(rest);
    assert order[|order| - 1] in Elements(order);
    var mid :| InTurn(step, before, mid, rest) && step(mid, after, order[|order| - 1]);
  }

  lemma LastOfDistinct(order: seq<Id>)
    requires order != [] && Distinct(order)
    ensures var rest, id := order[..|order| - 1], order[|order| - 1];
      Distinct(rest) && id !in Elements(rest) && Elements(order) == Elements(rest) + {id}
  {
    assert order == order[..|order| - 1] + [order[|order| - 1]];
  }

  /** It then sees itself alone. */
  lemma OwnEntryAlone(sp: Space, s: State, after: State, id: Id, level: nat, trail: Trail, m0: nat, m: nat, ef: nat)
    requires Isolated(s.layers, id) && (s.entry == 0 || s.entry == id)
    requires Inserts(sp, s, after, id, level, trail, m0, m, ef)
    ensures WellFormed(after) && after.entry == id && AloneOn(after.layers, id) && |after.layers| > 0
    ensures id in Nbrs(after.layers[0], id) <==> s.top >= 0 && m0 >= 1
  {
    OwnEntry(sp, s, after, id, level, trail, m0, m, ef);
    forall l | 0 <= l < |after.layers| ensures Nbrs(after.layers[l], id) <= {id} {
      assert Nbrs(after.layers[l], id) == SelfLinkedOn(s, id, level, l, id, m0, m);
    }
  }

  lemma StepOwnEntry(sp: Space, s: State, after: State, id: Id, m0: nat, m: nat, ef: nat)
    requires id in sp.vectors && Isolated(s.layers, id) && (s.entry == 0 || s.entry == id)
    requires InsertStep(sp, m0, m, ef)(s, after, id)
    ensures WellFormed(after) && after.entry == id && AloneOn(after.layers, id) && |after.layers| > 0
    ensures id in Nbrs(after.layers[0], id) <==> s.top >= 0 && m0 >= 1
  {
    var level: nat, trail :| Inserts(sp, s, after, id, level, trail, m0, m, ef);
    OwnEntryAlone(sp, s, after, id, level, trail, m0, m, ef);
  }

  /** The same for the only insertion of a build. */
  lemma OneOwnEntry(sp: Space, step: NodeStep, s: State, after: State, id: Id, order: seq<Id>, m0: nat, m: nat, ef: nat)
    requires step == InsertStep(sp, m0, m, ef) && id in sp.vectors
    requires Isolated(s.layers, id) && (s.entry == 0 || s.entry == id)
    requires InTurn(step, s, after, order) && Distinct(order) && Elements(order) == {id}
    ensures WellFormed(after) && after.entry == id && AloneOn(after.layers, id) && |after.layers| > 0
    ensures id in Nbrs(after.layers[0], id) <==> s.top >= 0 && m0 >= 1
  {
    OneInTurn(step, s, after, id, order);
    StepOwnEntry(sp, s, after, id, m0, m, ef);
  }

  // ----- A walk that starts in a closed set of nodes -----

  /** Shrinking takes links from neighbours of `id` only. */
  lemma ShrunkInside(g1: Layer, g': Layer, members: set<Id>, id: Id, m: nat)
    requires Nbrs(g1, id) <= members && Shrunk(g1, g', id, m)
    requires id !in members || |members| <= m
    ensures forall x {:trigger Nbrs(g', x)} :: Nbrs(g', x) <= Nbrs(g1, x)
    ensures forall x {:trigger Nbrs(g', x)} :: x !in members ==> Nbrs(g', x) == Nbrs(g1, x)
  {
    SubsetSize(Nbrs(g1, id), members);
    assert ShrunkAt(g1, g', Nbrs(g1, id), m);
  }

  lemma LinkedFromInside(g: Layer, g1: Layer, members: set<Id>, id: Id, selected: set<Id>)
    requires Closed(g, members) && Nbrs(g, id) <= members && selected <= members
    requires Linked(g, g1, id, selected)
    ensures Closed(g1, members + {id}) && Nbrs(g1, id) <= members
    ensures forall x {:trigger Nbrs(g1, x)} :: x !in members + {id} ==> Nbrs(g1, x) == Nbrs(g, x)
  {
    forall x | x in members + {id} ensures Nbrs(g1, x) <= members + {id} {
      assert Nbrs(g, x) <= members;
    }
  }

  lemma LinkedClosed(g: Layer, g1: Layer, g': Layer, members: set<Id>, id: Id, selected: set<Id>, m: nat)
    requires Closed(g, members) && Nbrs(g, id) <= members && selected <= members
    requires id !in members || |members| <= m
    requires Linked(g, g1, id, selected) && Shrunk(g1, g', id, m)
    ensures LayerJoined(g, g', id, members)
  {
    LinkedFromInside(g, g1, members, id, selected);
    ShrunkInside(g1, g', members, id, m);
    StillClosed(g1, g', members + {id});
  }

  lemma StillClosed(g: Layer, g': Layer, ids: set<Id>)
    requires Closed(g, ids) && forall x {:trigger Nbrs(g', x)} :: Nbrs(g', x) <= Nbrs(g, x)
    ensures Closed(g', ids)
  {
    forall x | x in ids ensures Nbrs(g', x) <= ids { assert Nbrs(g, x) <= ids; }
  }

  lemma RewiresClosed(sp: Space, g: Layer, g': Layer, q: Vec, id: Id, ep: set<Id>, found: set<Id>, ef: nat, m: nat,
                      members: set<Id>)
    requires ep != {} && ep <= members && Closed(g, members) && Nbrs(g, id) <= members
    requires id !in members || |members| <= m
    requires Rewired(sp, g, g', q, id, ep, found, ef, m)
    ensures found != {} && found <= members && LayerJoined(g, g', id, members)
  {
    var candidates, visited, selected: set<Cand>, g1 :| SearchOutcome(sp, g, q, ep, ef, candidates, visited)
      && IsSmallest(selected, candidates, m) && Linked(g, g1, id, Ids(selected)) && Shrunk(g1, g', id, m)
      && found == Ids(candidates);
    FoundInside(sp, g, q, ep, ef, candidates, visited, members);
    assert Greatest(candidates).id in found;
    LinkedClosed(g, g1, g', members, id, Ids(selected), m);
  }

  /** `id` may join the closed set `members`: it is new to it, or no degree bound can bite. */
  ghost predicate MayJoin(s: State, id: Id, members: set<Id>, m0: nat, m: nat) {
    && ClosedLayers(s.layers, members)
    && (forall l {:trigger s.layers[l]} :: 0 <= l < |s.layers| ==> Nbrs(s.layers[l], id) <= members)
    && (id !in members || (|members| <= m0 && |members| <= m))
  }

  lemma NextClosed(sp: Space, s: State, id: Id, trail: Trail, from: int, l: int, members: set<Id>, m0: nat, m: nat,
                   ef: nat)
    requires Rewires(sp, s, id, trail, from, m0, m, ef) && 0 <= l <= from && MayJoin(s, id, members, m0, m)
    requires l in trail.eps && trail.eps[l] <= members
    ensures l - 1 in trail.eps && trail.eps[l - 1] != {} && trail.eps[l - 1] <= members
    ensures LayerJoined(s.layers[l], trail.layers[l], id, members)
  {
    LayerRewired(sp, s, id, trail, from, l, m0, m, ef);
    RewiresClosed(sp, s.layers[l], trail.layers[l], sp.vectors[id], id, trail.eps[l], trail.eps[l - 1], ef,
      Degree(l, m0, m), members);
  }

  lemma {:induction false} StartsClosed(sp: Space, s: State, id: Id, trail: Trail, from: int, l: int, members: set<Id>,
                                        m0: nat, m: nat, ef: nat)
    requires Rewires(sp, s, id, trail, from, m0, m, ef) && MayJoin(s, id, members, m0, m)
    requires from in trail.eps && trail.eps[from] != {} && trail.eps[from] <= members
    requires -1 <= l <= from
    ensures l in trail.eps && trail.eps[l] != {} && trail.eps[l] <= members
    decreases from - l
  {
    if l < from {
      StartsClosed(sp, s, id, trail, from, l + 1, members, m0, m, ef);
      NextClosed(sp, s, id, trail, from, l + 1, members, m0, m, ef);
    }
  }

  /** Nodes outside `members` and `id` keep their links, and no link leads out of these. */
  ghost predicate LayerJoined(g: Layer, g': Layer, id: Id, members: set<Id>) {
    && Closed(g', members + {id})
    && (forall x {:trigger Nbrs(g', x)} :: x !in members + {id} ==> Nbrs(g', x) == Nbrs(g, x))
    && (id !in members ==> id !in Nbrs(g', id))
  }

  ghost function LayerAt(s: State, l: nat): Layer {
    if l < |s.layers| then s.layers[l] else map[]
  }

  ghost predicate Joined(s: State, after: State, id: Id, members: set<Id>) {
    && after.entry in members + {id}
    && forall l {:trigger after.layers[l]} :: 0 <= l < |after.layers| ==>
         LayerJoined(LayerAt(s, l), after.layers[l], id, members)
  }

  /** An entry point inside a set that no link leaves: the new node joins that set, and sees nothing else. */
  lemma JoinsClosed(sp: Space, s: State, after: State, id: Id, level: nat, trail: Trail, members: set<Id>, m0: nat,
                    m: nat, ef: nat)
    requires MayJoin(s, id, members, m0, m) && s.entry != 0 && s.entry in members
    requires Inserts(sp, s, after, id, level, trail, m0, m, ef)
    ensures Joined(s, after, id, members)
  {
    var from := Min(level, s.top);
    DescendsInside(sp, s.layers, sp.vectors[id], {s.entry}, s.top, level, trail.ep, members);
    forall l | 0 <= l < |after.layers| ensures LayerJoined(LayerAt(s, l), after.layers[l], id, members) {
      if l <= from {
        StartsClosed(sp, s, id, trail, from, l, members, m0, m, ef);
        NextClosed(sp, s, id, trail, from, l, members, m0, m, ef);
      } else if l <= s.top {
        assert after.layers[l] == trail.layers[l] == s.layers[l];
        StaysJoined(s.layers[l], id, members);
      }
    }
  }

  lemma StaysJoined(g: Layer, id: Id, members: set<Id>)
    requires Closed(g, members) && Nbrs(g, id) <= members
    ensures LayerJoined(g, g, id, members)
  {
  }

  // ----- The links of a new node -----

  /** What an insertion does to one layer: a search of width `ef`, links to the nearest found, and links back. */
  ghost predicate LinksIn(sp: Space, g: Layer, g': Layer, id: Id, ep: set<Id>, found: set<Id>, ef: nat, m: nat) {
    && id in sp.vectors && ep != {}
    && var q := sp.vectors[id];
    && (exists visited :: ep <= visited && NearestSeen(sp, q, Max(ef, |ep|), found, visited))
    && LinkedToNearest(sp, q, Nbrs(g', id), found, m)
    && (forall x :: x in Nbrs(g', id) ==> LinkedBack(Nbrs(g, x), Nbrs(g', x), id, m))
    && (forall x :: x != id && x !in Nbrs(g', id) ==> Nbrs(g', x) == Nbrs(g, x))
  }

  /**
   Every layer up to the new node's level, if it was there: the node is linked to the nearest
   nodes found, at most `M0_` on layer 0 and `M_` above. Other layers stay, and new ones are empty.
  */
  lemma InsertionLinks(sp: Space, s: State, after: State, id: Id, level: nat, trail: Trail, l: nat, m0: nat, m: nat,
                       ef: nat)
    requires IsGraph(s, m0, m) && s.inserted != {} && id !in s.inserted
    requires Inserts(sp, s, after, id, level, trail, m0, m, ef) && l < |after.layers|
    ensures l <= level && l <= s.top ==>
      && l < |s.layers| && l in trail.eps && l - 1 in trail.eps
      && LinksIn(sp, s.layers[l], after.layers[l], id, trail.eps[l], trail.eps[l - 1], ef, if l == 0 then m0 else m)
    ensures level < l <= s.top ==> l < |s.layers| && after.layers[l] == s.layers[l]
    ensures s.top < l ==> l <= level && after.layers[l] == map[]
  {
    if l <= level && l <= s.top {
      var members, from := s.inserted, Min(level, s.top);
      GraphIsClosed(s, id, m0, m);
      DescendsInside(sp, s.layers, sp.vectors[id], {s.entry}, s.top, level, trail.ep, members);
      StartsClosed(sp, s, id, trail, from, l, members, m0, m, ef);
      LayerLinks(sp, s, id, trail, from, l, m0, m, ef);
    }
  }

  lemma LayerLinks(sp: Space, s: State, id: Id, trail: Trail, from: int, l: nat, m0: nat, m: nat, ef: nat)
    requires Rewires(sp, s, id, trail, from, m0, m, ef) && l <= from && MayJoin(s, id, s.inserted, m0, m)
    requires id !in s.inserted && l < |s.layers| && Nbrs(s.layers[l], id) == {}
    requires l in trail.eps && trail.eps[l] <= s.inserted
    ensures l < |trail.layers| && l - 1 in trail.eps
    ensures LinksIn(sp, s.layers[l], trail.layers[l], id, trail.eps[l], trail.eps[l - 1], ef, if l == 0 then m0 else m)
  {
    NextClosed(sp, s, id, trail, from, l, s.inserted, m0, m, ef);
    LayerRewired(sp, s, id, trail, from, l, m0, m, ef);
    NewNodeLinks(sp, s.layers[l], trail.layers[l], sp.vectors[id], id, trail.eps[l], trail.eps[l - 1], ef,
      Degree(l, m0, m));
  }

  lemma GraphIsClosed(s: State, id: Id, m0: nat, m: nat)
    requires IsGraph(s, m0, m) && s.inserted != {} && id !in s.inserted
    ensures s.entry in s.inserted && s.entry != 0 && MayJoin(s, id, s.inserted, m0, m)
    ensures forall l :: 0 <= l < |s.layers| ==> Nbrs(s.layers[l], id) == {}
  {
    forall l | 0 <= l < |s.layers| ensures Closed(s.layers[l], s.inserted) && Nbrs(s.layers[l], id) == {} {
      assert LayerOk(s.layers[l], AtLevel(s, l), Degree(l, m0, m));
    }
  }

  // ----- When an insertion links a node to itself -----

  ghost predicate Unpointed(layers: seq<Layer>, id: Id) {
    forall l, x {:trigger Nbrs(layers[l], x)} :: 0 <= l < |layers| ==> id !in Nbrs(layers[l], x)
  }

  ghost function NodesBut(s: State, id: Id): set<Id> {
    (set l, x | 0 <= l < |s.layers| && x in Nodes(s.layers[l]) :: x) + {s.entry} - {id}
  }

  /**
   A node without links from or to it is linked to itself on layer 0 exactly if there was a
   layer 0, it has room for a link, and the entry point is missing or the node itself.
  */
  lemma SelfLinkRule(sp: Space, s: State, after: State, id: Id, level: nat, trail: Trail, m0: nat, m: nat, ef: nat)
    requires Isolated(s.layers, id) && Unpointed(s.layers, id)
    requires Inserts(sp, s, after, id, level, trail, m0, m, ef)
    ensures |after.layers| > 0
    ensures id in Nbrs(after.layers[0], id) <==> s.top >= 0 && m0 >= 1 && (s.entry == 0 || s.entry == id)
  {
    if s.entry == 0 || s.entry == id {
      OwnEntry(sp, s, after, id, level, trail, m0, m, ef);
    } else {
      var members := NodesBut(s, id);
      forall l, x | 0 <= l < |s.layers| ensures Nbrs(s.layers[l], x) <= members {
        NbrsAreNodes(s.layers[l], x);
      }
      JoinsClosed(sp, s, after, id, level, trail, members, m0, m, ef);
      assert LayerJoined(LayerAt(s, 0), after.layers[0], id, members);
    }
  }
}
