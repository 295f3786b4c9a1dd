/**
 Threads adding, removing and searching at once. `collection::add_vectors` is two
 critical sections, the map write and the index notification, so other threads can
 run in between; `remove_vectors` and the lazy build are one step each.
*/
module Interleaving {
  import opened Ranking
  import opened Vectors
  import opened Batches
  import Pending

  type Thread = nat

  /** The HNSW index: its pending sets, and the vector each inserted node was linked with. */
  datatype IndexState = NoIndex | Index(sets: Pending.Sets, linkedWith: map<Id, Vec>)

  /** `inFlight` maps a thread between its two critical sections to the ids it wrote. */
  datatype Shared = Shared(vectors: map<Id, Vec>, index: IndexState, inFlight: map<Thread, seq<Id>>)

  type Batch = seq<(Id, Vec)>

  // ----- Steps -----

  datatype Step =
    | Write(t: Thread, batch: Batch)
    | Notify(t: Thread)
    | Remove(ids: seq<Id>)
    | AddIndex
    | Build

  ghost predicate Enabled(s: Shared, step: Step) {
    match step
    case Write(t, _) => t !in s.inFlight
    case Notify(t) => t in s.inFlight
    case Remove(_) => true
    case AddIndex => s.index.NoIndex?
    case Build => s.index.Index?
  }

  ghost function After(s: Shared, step: Step): Shared
    requires Enabled(s, step)
  {
    match step
    case Write(t, batch) =>
      s.(vectors := Upserted(s.vectors, batch), inFlight := s.inFlight[t := BatchIds(batch)])
    case Notify(t) =>
      var index := if s.index.NoIndex? then NoIndex else s.index.(sets := Pending.Added(s.index.sets, s.inFlight[t]));
      s.(index := index, inFlight := s.inFlight - {t})
    case Remove(ids) =>
      var gone := Present(s.vectors.Keys, ids);
      var index := if s.index.NoIndex? then NoIndex else s.index.(sets := Pending.Removed(s.index.sets, gone));
      s.(vectors := s.vectors - Elements(gone), index := index)
    case AddIndex =>
      s.(index := Index(Pending.Sets(s.vectors.Keys, {}, {}), s.vectors))
    case Build =>
      var p := s.index.sets;
      var inserts := map i | i in p.toBeInserted && i in s.vectors :: s.vectors[i];
      s.(index := Index(Pending.Built(p, s.vectors.Keys), (s.index.linkedWith - p.toBeRemoved) + inserts))
  }

  ghost predicate Initial(s: Shared) {
    s.index.NoIndex? && s.inFlight == map[]
  }

  /** Any interleaving: each state follows from the one before by some enabled step. */
  ghost predicate IsRun(states: seq<Shared>, steps: seq<Step>) {
    && |states| == |steps| + 1
    && Initial(states[0])
    && forall i :: 0 <= i < |steps| ==> Enabled(states[i], steps[i]) && states[i + 1] == After(states[i], steps[i])
  }

  // ----- What every interleaving keeps -----

  ghost predicate InFlight(adds: map<Thread, seq<Id>>, id: Id) {
    exists t :: t in adds && id in adds[t]
  }

  lemma MoreInFlight(adds: map<Thread, seq<Id>>, t: Thread, ids: seq<Id>)
    requires t !in adds
    ensures forall id :: InFlight(adds[t := ids], id) <==> InFlight(adds, id) || id in ids
  {
    forall id ensures InFlight(adds[t := ids], id) <==> InFlight(adds, id) || id in ids {
      var adds' := adds[t := ids];
      if u :| u in adds && id in adds[u] { assert u in adds' && id in adds'[u]; }
      if id in ids { assert t in adds' && id in adds'[t]; }
    }
  }

  lemma LessInFlight(adds: map<Thread, seq<Id>>, t: Thread)
    requires t in adds
    ensures forall id :: InFlight(adds, id) ==> InFlight(adds - {t}, id) || id in adds[t]
    ensures forall id :: InFlight(adds - {t}, id) ==> InFlight(adds, id)
  {
    forall id ensures InFlight(adds, id) ==> InFlight(adds - {t}, id) || id in adds[t] {
      if u :| u in adds && id in adds[u] && u != t { assert u in adds - {t} && id in (adds - {t})[u]; }
    }
  }

  /**
   Each stored id whose add is not in flight waits for insertion or sits in the
   graph, linked with its current vector; what is in the graph but no longer stored,
   or about to be inserted again, waits for removal.
  */
  ghost predicate Agrees(s: Shared) {
    s.index.Index? ==>
      var p := s.index.sets;
      && p.inserted == s.index.linkedWith.Keys
      && (forall id :: id in s.vectors && !InFlight(s.inFlight, id) ==>
            id in p.toBeInserted || (id in p.inserted && id !in p.toBeRemoved))
      && (forall id :: id in p.inserted && id !in p.toBeRemoved ==>
            && id !in p.toBeInserted
            && id in s.vectors
            && (InFlight(s.inFlight, id) || s.index.linkedWith[id] == s.vectors[id]))
  }

  lemma StepKeepsAgreement(s: Shared, step: Step)
    requires Agrees(s) && Enabled(s, step)
    ensures Agrees(After(s, step))
  {
    var s' := After(s, step);
    match step
    case Write(t, batch) =>
      UpsertedFacts(s.vectors, batch);
      MoreInFlight(s.inFlight, t, BatchIds(batch));
    case Notify(t) =>
      LessInFlight(s.inFlight, t);
      if s.index.Index? { Pending.AddedFacts(s.index.sets, s.inFlight[t]); }
    case Remove(ids) =>
      PresentFacts(s.vectors.Keys, ids);
      if s.index.Index? { Pending.RemovedFacts(s.index.sets, Present(s.vectors.Keys, ids)); }
    case AddIndex =>
    case Build =>
  }

  lemma {:induction false} RunsAgree(states: seq<Shared>, steps: seq<Step>, i: nat)
    requires IsRun(states, steps) && i < |states|
    ensures Agrees(states[i])
  {
    if i > 0 {
      RunsAgree(states, steps, i - 1);
      StepKeepsAgreement(states[i - 1], steps[i - 1]);
    }
  }

  /**
   After a build the graph holds nothing that is not stored, and misses or
   misplaces only ids whose add is in flight.
  */
  lemma BuildCatchesUp(s: Shared)
    requires Agrees(s) && s.index.Index?
    ensures var built := After(s, Build).index;
      && built.sets == Pending.Sets(built.linkedWith.Keys, {}, {})
      && built.linkedWith.Keys <= s.vectors.Keys
      && forall id :: id in s.vectors && !InFlight(s.inFlight, id) ==>
           id in built.linkedWith && built.linkedWith[id] == s.vectors[id]
  {
  }

  lemma QuietBuild(s: Shared)
    requires Agrees(s) && s.index.Index? && s.inFlight == map[]
    ensures After(s, Build).index.linkedWith == s.vectors
    ensures After(s, Build).index.sets == Pending.Sets(s.vectors.Keys, {}, {})
  {
    BuildCatchesUp(s);
    assert forall id :: id in s.vectors ==> !InFlight(s.inFlight, id);
    assert After(s, Build).index.linkedWith == s.vectors;
  }

  /** With no add in flight, a build leaves exactly the stored vectors in the graph, in every run. */
  lemma QuiescentBuildAgrees(states: seq<Shared>, steps: seq<Step>, i: nat)
    requires IsRun(states, steps) && i < |steps| && steps[i] == Build
    requires states[i].inFlight == map[]
    ensures states[i + 1].index.linkedWith == states[i + 1].vectors
    ensures states[i + 1].index.sets == Pending.Sets(states[i + 1].vectors.Keys, {}, {})
  {
    RunsAgree(states, steps, i);
    QuietBuild(states[i]);
  }
}
