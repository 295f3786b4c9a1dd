/**
 Builds that remove every node of the highest level while others stay: the entry point is
 not replaced, and what such a build inserts is linked to it, or among itself, only.
*/
module HnswStale {
  import opened Ranking
  import opened Batches
  import opened Spaces
  import opened HnswGraph
  import opened HnswLink
  import opened HnswState
  import opened HnswEntry
  import opened HnswEmptied

  // ----- The entry point alone is inserted again -----

  /**
   A build that updates the entry point, without a top-level node that stays: searches start
   at it and see nothing else, and it is linked to itself exactly if there is room for a link.
  */
  lemma UpdatedEntry(sp: Space, before: State, after: State, gone: set<Id>, stages: Stages, m0: nat, m: nat, ef: nat)
    requires IsGraph(before, m0, m) && !Anchored(before, gone) && before.entry in sp.vectors
    requires Rebuilt(InsertStep(sp, m0, m, ef), before, after, gone, {before.entry}, stages)
    ensures WellFormed(after) && after.entry == before.entry && AloneOn(after.layers, after.entry)
    ensures |after.layers| > 0
    ensures before.entry in Nbrs(after.layers[0], before.entry) <==> m0 >= 1
  {
    StaleAlone(before, stages.survivors, stages.refreshed, stages.removed, m0, m);
    OneOwnEntry(sp, InsertStep(sp, m0, m, ef), stages.refreshed, after, before.entry, stages.added, m0, m, ef);
  }

  /** If its vector has vanished, it stays without links. */
  lemma DroppedEntry(sp: Space, before: State, after: State, gone: set<Id>, stages: Stages, m0: nat, m: nat, ef: nat)
    requires IsGraph(before, m0, m) && !Anchored(before, gone) && before.entry !in sp.vectors
    requires Rebuilt(InsertStep(sp, m0, m, ef), before, after, gone, {before.entry}, stages) && after.inserted != {}
    ensures WellFormed(after) && after.entry == before.entry && AloneOn(after.layers, after.entry)
  {
    StaleAlone(before, stages.survivors, stages.refreshed, stages.removed, m0, m);
    OneInTurn(InsertStep(sp, m0, m, ef), stages.refreshed, after, before.entry, stages.added);
  }

  // ----- Anything is inserted -----

  /** Searches that start at the entry point stay in `members`; of the ids `all`, only those have links. */
  ghost predicate Cornered(s: State, all: set<Id>, members: set<Id>) {
    && WellFormed(s) && s.entry in members && 0 !in members && ClosedLayers(s.layers, members)
    && forall id {:trigger Isolated(s.layers, id)} :: id in all - members ==> Isolated(s.layers, id)
  }

  lemma CorneredNext(sp: Space, s: State, after: State, id: Id, all: set<Id>, members: set<Id>, m0: nat, m: nat,
                     ef: nat)
    requires Cornered(s, all, members) && id in all && id != 0
    requires id in members ==> |members| <= m0 && |members| <= m
    requires InsertStep(sp, m0, m, ef)(s, after, id)
    ensures Cornered(after, all, members + {id})
  {
    assert id in members || Isolated(s.layers, id);
    if id in sp.vectors {
      var level: nat, trail :| Inserts(sp, s, after, id, level, trail, m0, m, ef);
      JoinsClosed(sp, s, after, id, level, trail, members, m0, m, ef);
      OthersIsolated(s, after, id, all, members);
    }
  }

  lemma OthersIsolated(s: State, after: State, id: Id, all: set<Id>, members: set<Id>)
    requires Cornered(s, all, members) && Joined(s, after, id, members)
    ensures forall x :: x in all - (members + {id}) ==> Isolated(after.layers, x)
  {
    forall x | x in all - (members + {id}) ensures Isolated(after.layers, x) {
      assert Isolated(s.layers, x);
    }
  }

  lemma {:induction false} StaysCornered(sp: Space, step: NodeStep, s: State, after: State, order: seq<Id>, entry: Id,
                                         all: set<Id>, m0: nat, m: nat, ef: nat)
    requires step == InsertStep(sp, m0, m, ef) && Cornered(s, all, {entry})
    requires InTurn(step, s, after, order) && Distinct(order) && Elements(order) <= all && 0 !in all
    requires entry in all ==> |all| <= m0 && |all| <= m
    ensures Cornered(after, all, {entry} + Elements(order))
    decreases |order|
  {
    if order == [] {
      assert {entry} + Elements(order) == {entry};
    } else {
      var rest, id := order[..|order| - 1], order[|order| - 1];
      var mid :| InTurn(step, s, mid, rest) && step(mid, after, id);
      LastOfDistinct(order);
      OneMoreMember({entry}, order);
      StaysCornered(sp, step, s, mid, rest, entry, all, m0, m, ef);
      if entry in all { SubsetSize({entry} + Elements(rest), all); }
      CorneredNext(sp, mid, after, id, all, {entry} + Elements(rest), m0, m, ef);
    }
  }

  lemma OneMoreMember(members: set<Id>, order: seq<Id>)
    requires order != [] && Distinct(order)
    ensures members + Elements(order[..|order| - 1]) + {order[|order| - 1]} == members + Elements(order)
  {
    LastOfDistinct(order);
  }

  /**
   Where no node of the highest level stays, the nodes that do stay are lost to every search
   after the build, whatever it inserts: searches see the entry point and the new ids only.
   If the entry point is among these, they must fit under the degree bounds, since it may
   shrink itself otherwise.
  */
  lemma SurvivorsLost(sp: Space, before: State, after: State, gone: set<Id>, waiting: set<Id>, stages: Stages, m0: nat,
                      m: nat, ef: nat)
    requires IsGraph(before, m0, m) && !Anchored(before, gone) && before.inserted - gone != {}
    requires waiting !! before.inserted - gone && 0 !in waiting
    requires before.entry in waiting ==> |waiting| <= m0 && |waiting| <= m
    requires Rebuilt(InsertStep(sp, m0, m, ef), before, after, gone, waiting, stages)
    ensures WellFormed(after) && after.entry in waiting + {before.entry}
    ensures ClosedLayers(after.layers, waiting + {before.entry})
    ensures waiting + {before.entry} !! before.inserted - gone
  {
    StaleCornered(before, stages.survivors, stages.refreshed, stages.removed, waiting, m0, m);
    StaysCornered(sp, InsertStep(sp, m0, m, ef), stages.refreshed, after, stages.added, before.entry, waiting,
      m0, m, ef);
    assert {before.entry} + waiting == waiting + {before.entry};
  }

  lemma StaleCornered(s: State, survivors: State, refreshed: State, order: seq<Id>, waiting: set<Id>, m0: nat, m: nat)
    requires IsGraph(s, m0, m) && !Anchored(s, Elements(order)) && s.inserted - Elements(order) != {}
    requires RemovedInTurn(s, survivors, order) && EntryRefreshed(survivors, refreshed)
    requires waiting !! s.inserted - Elements(order)
    ensures Cornered(refreshed, waiting, {s.entry}) && s.entry in Elements(order)
  {
    StaleAlone(s, survivors, refreshed, order, m0, m);
    forall id | id in waiting ensures Isolated(refreshed.layers, id) {
      if id !in Elements(order) { NoLinksYet(s, refreshed, id, Elements(order), m0, m); }
    }
  }

  lemma NoLinksYet(s: State, after: State, id: Id, gone: set<Id>, m0: nat, m: nat)
    requires LayersOk(s, m0, m) && id !in s.inserted && Cut(s.layers, after.layers, gone)
    ensures Isolated(after.layers, id)
  {
    forall l | 0 <= l < |after.layers| ensures Nbrs(after.layers[l], id) == {} {
      assert LayerOk(s.layers[l], AtLevel(s, l), Degree(l, m0, m));
      assert Nbrs(after.layers[l], id) <= Nbrs(s.layers[l], id);
    }
  }
}
