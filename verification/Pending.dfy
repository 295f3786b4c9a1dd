/**
 The lazy update protocol between a collection and its HNSW index: which ids the
 graph holds, and which wait for the next build.
*/
module Pending {
  import opened Ranking
  import opened Batches

  datatype Sets = Sets(inserted: set<Id>, toBeInserted: set<Id>, toBeRemoved: set<Id>)

  /** `on_vectors_added`. */
  function Added(p: Sets, ids: seq<Id>): Sets
    decreases |ids|
  {
    if ids == [] then p
    else
      var removed := if ids[0] in p.inserted then p.toBeRemoved + {ids[0]} else p.toBeRemoved;
      Added(p.(toBeInserted := p.toBeInserted + {ids[0]}, toBeRemoved := removed), ids[1..])
  }

  /** `on_vectors_removed`. */
  function Removed(p: Sets, ids: seq<Id>): Sets
    decreases |ids|
  {
    if ids == [] then p
    else if ids[0] in p.toBeInserted then
      Removed(p.(toBeInserted := p.toBeInserted - {ids[0]}), ids[1..])
    else
      Removed(p.(toBeRemoved := p.toBeRemoved + {ids[0]}), ids[1..])
  }

  /** `build`: `keys` are the ids that have a vector; an id without one is dropped. */
  function Built(p: Sets, keys: set<Id>): Sets {
    Sets(p.inserted - p.toBeRemoved + p.toBeInserted * keys, {}, {})
  }

  lemma {:induction false} AddedFacts(p: Sets, ids: seq<Id>)
    ensures var r := Added(p, ids);
      && r.inserted == p.inserted
      && r.toBeInserted == p.toBeInserted + Elements(ids)
      && r.toBeRemoved == p.toBeRemoved + Elements(ids) * p.inserted
    decreases |ids|
  {
    if ids != [] {
      var removed := if ids[0] in p.inserted then p.toBeRemoved + {ids[0]} else p.toBeRemoved;
      AddedFacts(p.(toBeInserted := p.toBeInserted + {ids[0]}, toBeRemoved := removed), ids[1..]);
      assert ids == [ids[0]] + ids[1..];
    }
  }

  lemma {:induction false} RemovedFacts(p: Sets, ids: seq<Id>)
    ensures var r := Removed(p, ids);
      && r.inserted == p.inserted
      && r.toBeInserted == p.toBeInserted - Elements(ids)
      && r.toBeRemoved == p.toBeRemoved + (set i | i in ids && (i in p.toBeInserted ==> multiset(ids)[i] > 1))
    decreases |ids|
  {
    if ids != [] {
      if ids[0] in p.toBeInserted {
        RemovedFacts(p.(toBeInserted := p.toBeInserted - {ids[0]}), ids[1..]);
      } else {
        RemovedFacts(p.(toBeRemoved := p.toBeRemoved + {ids[0]}), ids[1..]);
      }
      assert ids == [ids[0]] + ids[1..];
    }
  }
}
