/**
 Graphs that removals have emptied: the entry point is forgotten and the layers stay, so
 the next node starts the search for its neighbours at itself.
*/
module HnswEmptied {
  import opened Ranking
  import opened Batches
  import opened Vectors
  import opened Spaces
  import opened HnswGraph
  import opened HnswSearch
  import opened HnswLink
  import opened HnswState
  import opened HnswEntry

  ghost predicate NoLinks(g: Layer) {
    forall x {:trigger Nbrs(g, x)} :: Nbrs(g, x) == {}
  }

  /** No nodes, no links, no entry point; but perhaps layers. */
  ghost predicate Bare(s: State) {
    && WellFormed(s) && s.inserted == {} && s.entry == 0
    && forall l {:trigger s.layers[l]} :: 0 <= l < |s.layers| ==> NoLinks(s.layers[l])
  }

  /** Removing all nodes of a graph leaves it bare, with as many layers as it had. */
  lemma EmptiedIsBare(s: State, survivors: State, refreshed: State, order: seq<Id>, m0: nat, m: nat)
    requires IsGraph(s, m0, m) && s.inserted <= Elements(order)
    requires RemovedInTurn(s, survivors, order) && EntryRefreshed(survivors, refreshed)
    ensures Bare(refreshed) && refreshed.top == s.top
  {
    GraphIsSelfFree(s, m0, m);
    RemovalsDefined(s.layers, survivors.layers, order);
    forall l, x | 0 <= l < |refreshed.layers| ensures Nbrs(refreshed.layers[l], x) == {} {
      assert LayerOk(s.layers[l], AtLevel(s, l), Degree(l, m0, m));
      assert Nbrs(survivors.layers[l], x) == LinksLeft(s.layers[l], x, Elements(order));
    }
  }

  // ----- The first node of a bare graph -----

  /**
   The first node of a bare graph is its own entry point, and linked to itself exactly on
   the layers that were there before, up to its own level, if they have room for a link.
  */
  lemma SelfLinkIff(sp: Space, s: State, after: State, id: Id, level: nat, trail: Trail, m0: nat, m: nat, ef: nat)
    requires Bare(s) && Inserts(sp, s, after, id, level, trail, m0, m, ef)
    ensures after.entry == id && |after.layers| == Max(s.top, level) + 1
    ensures forall l, x {:trigger Nbrs(after.layers[l], x)} :: 0 <= l < |after.layers| ==>
      Nbrs(after.layers[l], x) == if x == id && l <= level && l <= s.top && Degree(l, m0, m) >= 1 then {id} else {}
  {
    OwnEntry(sp, s, after, id, level, trail, m0, m, ef);
  }

  // ----- Filling it again -----

  /** No id 0, and no entry point where there is no node. */
  ghost predicate Usable(s: State) {
    && Searchable(s) && 0 !in s.inserted
    && (s.inserted == {} ==> s.entry == 0)
  }

  lemma BareIsUsable(s: State)
    requires Bare(s)
    ensures Usable(s)
  {
  }

  lemma UsableIsBare(s: State)
    requires Usable(s) && s.inserted == {}
    ensures Bare(s)
  {
    forall l, x | 0 <= l < |s.layers| ensures Nbrs(s.layers[l], x) == {} {
      assert Nbrs(s.layers[l], x) <= s.inserted;
    }
  }

  ghost predicate LinksInside(g: Layer, ids: set<Id>) {
    forall x {:trigger Nbrs(g, x)} :: Nbrs(g, x) <= ids
  }

  /** A layer whose links stay inside `members` is rewired to include `id`, and stays connected while there is room. */
  lemma RewiresInside(sp: Space, g: Layer, g': Layer, q: Vec, id: Id, ep: set<Id>, found: set<Id>, ef: nat, m: nat,
                      members: set<Id>)
    requires ep != {} && ep <= members && id !in members && LinksInside(g, members)
    requires Rewired(sp, g, g', q, id, ep, found, ef, m)
    ensures found != {} && found <= members && LinksInside(g', members + {id})
    ensures |members| < m && Connected(g, members) ==> Connected(g', members + {id})
  {
    var candidates, visited, selected: set<Cand>, g1 :| SearchOutcome(sp, g, q, ep, ef, candidates, visited)
      && IsSmallest(selected, candidates, m) && Linked(g, g1, id, Ids(selected)) && Shrunk(g1, g', id, m)
      && found == Ids(candidates);
    FoundInside(sp, g, q, ep, ef, candidates, visited, members);
    SelectedInside(g, g1, g', id, candidates, selected, m, members);
  }

  lemma SelectedInside(g: Layer, g1: Layer, g': Layer, id: Id, candidates: set<Cand>, selected: set<Cand>, m: nat,
                       members: set<Id>)
    requires candidates != {} && Ids(candidates) <= members && id !in members && LinksInside(g, members)
    requires IsSmallest(selected, candidates, m) && Linked(g, g1, id, Ids(selected)) && Shrunk(g1, g', id, m)
    ensures Ids(candidates) != {} && LinksInside(g', members + {id})
    ensures |members| < m && Connected(g, members) ==> Connected(g', members + {id})
  {
    assert Greatest(candidates).id in Ids(candidates);
    LinkedInside(g, g1, g', members, id, Ids(selected), m);
    if |members| < m && Connected(g, members) {
      var c: Cand :| c in selected;
      assert c.id in Ids(selected);
      StaysConnected(g, g', members, id, Ids(selected));
    }
  }

  lemma LinkedInside(g: Layer, g1: Layer, g': Layer, members: set<Id>, id: Id, selected: set<Id>, m: nat)
    requires LinksInside(g, members) && id !in members && selected <= members
    requires Linked(g, g1, id, selected) && Shrunk(g1, g', id, m)
    ensures LinksInside(g', members + {id})
    ensures |members| < m ==> Linked(g, g', id, selected)
  {
    assert Nbrs(g, id) <= members && id !in Nbrs(g1, id);
    forall x ensures Nbrs(g', x) <= Nbrs(g1, x) <= members + {id} {
      assert Nbrs(g, x) <= members;
    }
    if |members| < m {
      forall x ensures Nbrs(g', x) == Nbrs(g1, x) {
        SubsetSize(Nbrs(g1, x), members + {id});
      }
    }
  }

  lemma NextInside(sp: Space, s: State, id: Id, trail: Trail, from: int, l: int, m0: nat, m: nat, ef: nat)
    requires Rewires(sp, s, id, trail, from, m0, m, ef) && 0 <= l <= from && id !in s.inserted
    requires l in trail.eps && trail.eps[l] <= s.inserted && LinksInside(s.layers[l], s.inserted)
    ensures l - 1 in trail.eps && trail.eps[l - 1] != {} && trail.eps[l - 1] <= s.inserted
    ensures LinksInside(trail.layers[l], s.inserted + {id})
    ensures |s.inserted| < Degree(l, m0, m) && Connected(s.layers[l], s.inserted) ==>
      Connected(trail.layers[l], s.inserted + {id})
  {
    LayerRewired(sp, s, id, trail, from, l, m0, m, ef);
    RewiresInside(sp, s.layers[l], trail.layers[l], sp.vectors[id], id, trail.eps[l], trail.eps[l - 1], ef,
      Degree(l, m0, m), s.inserted);
  }

  ghost predicate AllInside(s: State) {
    forall l {:trigger s.layers[l]} :: 0 <= l < |s.layers| ==> LinksInside(s.layers[l], s.inserted)
  }

  /** The starting points of all layers are nodes. */
  lemma {:induction false} StartsInside(sp: Space, s: State, id: Id, trail: Trail, from: int, l: int, m0: nat, m: nat,
                                        ef: nat)
    requires Rewires(sp, s, id, trail, from, m0, m, ef) && AllInside(s) && id !in s.inserted
    requires from in trail.eps && trail.eps[from] != {} && trail.eps[from] <= s.inserted
    requires -1 <= l <= from
    ensures l in trail.eps && trail.eps[l] != {} && trail.eps[l] <= s.inserted
    decreases from - l
  {
    if l < from {
      StartsInside(sp, s, id, trail, from, l + 1, m0, m, ef);
      NextInside(sp, s, id, trail, from, l + 1, m0, m, ef);
    }
  }

  lemma JoinsInside(sp: Space, s: State, after: State, id: Id, level: nat, trail: Trail, m0: nat, m: nat, ef: nat)
    requires Usable(s) && s.inserted != {} && id !in s.inserted && id != 0
    requires Inserts(sp, s, after, id, level, trail, m0, m, ef)
    ensures NoDangling(after)
    ensures |s.inserted| < m0 ==> Connected(after.layers[0], s.inserted + {id})
  {
    var from := Min(level, s.top);
    assert ClosedLayers(s.layers, s.inserted) && AllInside(s);
    DescendsInside(sp, s.layers, sp.vectors[id], {s.entry}, s.top, level, trail.ep, s.inserted);
    forall l | 0 <= l < |after.layers|
      ensures LinksInside(after.layers[l], s.inserted + {id})
      ensures l == 0 && |s.inserted| < m0 ==> Connected(after.layers[0], s.inserted + {id})
    {
      if l <= from {
        StartsInside(sp, s, id, trail, from, l, m0, m, ef);
        NextInside(sp, s, id, trail, from, l, m0, m, ef);
      } else if l <= s.top {
        assert trail.layers[l] == s.layers[l] && LinksInside(s.layers[l], s.inserted);
      }
    }
  }

  /** Up to `m0` nodes the graph stays usable, in spite of the node that is linked to itself. */
  lemma StaysUsable(sp: Space, s: State, after: State, id: Id, level: nat, trail: Trail, m0: nat, m: nat, ef: nat)
    requires Usable(s) && id !in s.inserted && id != 0 && |s.inserted| < m0
    requires Inserts(sp, s, after, id, level, trail, m0, m, ef)
    ensures Usable(after) && after.inserted == s.inserted + {id}
  {
    if s.inserted == {} {
      UsableIsBare(s);
      SelfLinkIff(sp, s, after, id, level, trail, m0, m, ef);
      OneIsConnected(after.layers[0], id);
    } else {
      JoinsInside(sp, s, after, id, level, trail, m0, m, ef);
    }
    EntryInserted(sp, s, after, id, level, trail, m0, m, ef);
  }

  lemma OneIsConnected(g: Layer, id: Id)
    ensures Connected(g, {id})
  {
  }

  lemma EntryInserted(sp: Space, s: State, after: State, id: Id, level: nat, trail: Trail, m0: nat, m: nat, ef: nat)
    requires Usable(s) && Inserts(sp, s, after, id, level, trail, m0, m, ef)
    ensures WellFormed(after) && after.inserted == s.inserted + {id} && after.entry in after.inserted
  {
  }

  /** One more of the ids `all`, none of which is in `s` or is 0. */
  lemma UsableNext(sp: Space, s: State, mid: State, after: State, done: set<Id>, id: Id, all: set<Id>, m0: nat, m: nat,
                   ef: nat)
    requires Usable(mid) && mid.inserted == s.inserted + done
    requires done <= all && id in all && id !in done
    requires all <= sp.vectors.Keys && all !! s.inserted + {0} && |s.inserted + all| <= m0
    requires InsertStep(sp, m0, m, ef)(mid, after, id)
    ensures Usable(after) && after.inserted == s.inserted + (done + {id})
  {
    SubsetSize(s.inserted + done + {id}, s.inserted + all);
    StepStaysUsable(sp, mid, after, id, m0, m, ef);
  }

  lemma StepStaysUsable(sp: Space, s: State, after: State, id: Id, m0: nat, m: nat, ef: nat)
    requires Usable(s) && id !in s.inserted && id != 0 && |s.inserted| < m0 && id in sp.vectors
    requires InsertStep(sp, m0, m, ef)(s, after, id)
    ensures Usable(after) && after.inserted == s.inserted + {id}
  {
    var level: nat, trail :| Inserts(sp, s, after, id, level, trail, m0, m, ef);
    StaysUsable(sp, s, after, id, level, trail, m0, m, ef);
  }

  lemma {:induction false} StaysUsableInTurn(sp: Space, step: NodeStep, s: State, after: State, order: seq<Id>,
                                             all: set<Id>, m0: nat, m: nat, ef: nat)
    requires Usable(s) && InTurn(step, s, after, order) && Distinct(order) && Elements(order) <= all
    requires all <= sp.vectors.Keys && all !! s.inserted + {0} && |s.inserted + all| <= m0
    requires step == InsertStep(sp, m0, m, ef)
    ensures Usable(after) && after.inserted == s.inserted + Elements(order)
    decreases |order|
  {
    if order != [] {
      var rest, id := order[..|order| - 1], order[|order| - 1];
      var mid :| InTurn(step, s, mid, rest) && step(mid, after, id);
      LastOfDistinct(order);
      StaysUsableInTurn(sp, step, s, mid, rest, all, m0, m, ef);
      UsableNext(sp, s, mid, after, Elements(rest), id, all, m0, m, ef);
    }
  }

  // ----- An index that is emptied and refilled -----

  /**
   The next build removes nothing from a usable graph, or every node of a graph, and at
   most `m0` nodes are there afterwards.
  */
  ghost predicate Refillable(s: State, waiting: set<Id>, gone: set<Id>, m0: nat, m: nat) {
    && 0 !in waiting && waiting !! s.inserted - gone && |s.inserted - gone + waiting| <= m0
    && ((gone == {} && Usable(s)) || (IsGraph(s, m0, m) && s.inserted <= gone))
  }

  /** Then the build leaves a usable graph, of all the ids that stay or wait. */
  lemma Refilled(sp: Space, before: State, after: State, gone: set<Id>, waiting: set<Id>, stages: Stages, m0: nat,
                 m: nat, ef: nat)
    requires Refillable(before, waiting, gone, m0, m) && waiting <= sp.vectors.Keys
    requires Rebuilt(InsertStep(sp, m0, m, ef), before, after, gone, waiting, stages)
    ensures Usable(after) && Refillable(after, {}, {}, m0, m)
    ensures after.inserted == before.inserted - gone + waiting
  {
    RefreshedUsable(before, stages.survivors, stages.refreshed, stages.removed, m0, m);
    StaysUsableInTurn(sp, InsertStep(sp, m0, m, ef), stages.refreshed, after, stages.added, waiting, m0, m, ef);
  }

  lemma RefreshedUsable(s: State, survivors: State, refreshed: State, order: seq<Id>, m0: nat, m: nat)
    requires (Elements(order) == {} && Usable(s)) || (IsGraph(s, m0, m) && s.inserted <= Elements(order))
    requires RemovedInTurn(s, survivors, order) && EntryRefreshed(survivors, refreshed)
    ensures Usable(refreshed) && refreshed.inserted == s.inserted - Elements(order)
  {
    if IsGraph(s, m0, m) && s.inserted <= Elements(order) {
      EmptiedIsBare(s, survivors, refreshed, order, m0, m);
      BareIsUsable(refreshed);
    } else {
      FirstElement(order);
      NothingRemoved(s, survivors, order);
      assert refreshed == s;
    }
  }

  // ----- Builds that empty an index, or fill an empty one -----

  /** A build that removes every node and inserts none leaves the layers, without links. */
  lemma BuildEmpties(sp: Space, before: State, after: State, gone: set<Id>, stages: Stages, m0: nat, m: nat, ef: nat)
    requires IsGraph(before, m0, m) && before.inserted <= gone
    requires Rebuilt(InsertStep(sp, m0, m, ef), before, after, gone, {}, stages)
    ensures Bare(after) && after.top == before.top
  {
    EmptiedIsBare(before, stages.survivors, stages.refreshed, stages.removed, m0, m);
    FirstElement(stages.added);
    assert after == stages.refreshed;
  }

  /**
   A build that inserts one node into a graph without others, be it the update of the only
   node, links it to itself exactly if there were layers before, with room for a link.
  */
  lemma FirstSelfLinkIff(sp: Space, before: State, after: State, id: Id, gone: set<Id>, stages: Stages, m0: nat, m: nat,
                         ef: nat)
    requires (gone == {} && Bare(before)) || (IsGraph(before, m0, m) && before.inserted <= gone)
    requires Rebuilt(InsertStep(sp, m0, m, ef), before, after, gone, {id}, stages) && id in sp.vectors
    ensures |after.layers| > 0
    ensures id in Nbrs(after.layers[0], id) <==> before.top >= 0 && m0 >= 1
  {
    if gone == {} && Bare(before) {
      FirstElement(stages.removed);
      NothingRemoved(before, stages.survivors, stages.removed);
      assert stages.refreshed == before;
    } else {
      EmptiedIsBare(before, stages.survivors, stages.refreshed, stages.removed, m0, m);
    }
    OneOwnEntry(sp, InsertStep(sp, m0, m, ef), stages.refreshed, after, id, stages.added, m0, m, ef);
  }
}
