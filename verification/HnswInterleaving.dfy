/**
 The runs of module Interleaving with the graph of the HNSW index beside its pending sets:
 what a search answers while threads add, update and remove vectors of a small index.
*/
module HnswInterleaving {
  import opened Ranking
  import opened Vectors
  import opened Spaces
  import opened Batches
  import opened Interleaving
  import opened HnswState
  import Hnsw
  import Pending

  /** The parameters of the index; `farthest` is `numeric_limits<double>::max()`. */
  datatype Config = Config(metric: Metric, farthest: real, m0: nat, m: nat, ef: nat, efSearch: nat)

  datatype Scene = Scene(shared: Shared, graph: State)

  ghost function SpaceOf(cfg: Config, s: Shared): Space {
    Space(s.vectors, cfg.metric, cfg.farthest)
  }

  ghost predicate Built(cfg: Config, s: Shared, before: State, p: Pending.Sets, after: State) {
    exists stages ::
      Hnsw.Builds(InsertStep(SpaceOf(cfg, s), cfg.m0, cfg.m, cfg.ef), s.vectors.Keys, before, p, after, stages,
                  cfg.m0, cfg.m, cfg.ef)
  }

  /** A build changes the graph as `Hnsw.Index.Build` promises; a new index is built over the stored ids. */
  ghost predicate Moves(cfg: Config, c: Scene, step: Step, c': Scene) {
    && Enabled(c.shared, step) && c'.shared == After(c.shared, step)
    && match step
       case Build => Built(cfg, c.shared, c.graph, c.shared.index.sets, c'.graph)
       case AddIndex =>
         Built(cfg, c.shared, Hnsw.NoGraph(), Pending.Sets({}, c.shared.vectors.Keys, {}), c'.graph)
       case _ => c'.graph == c.graph
  }

  ghost predicate IsStory(cfg: Config, scenes: seq<Scene>, steps: seq<Step>) {
    && |scenes| == |steps| + 1
    && Initial(scenes[0].shared)
    && forall i :: 0 <= i < |steps| ==> Moves(cfg, scenes[i], steps[i], scenes[i + 1])
  }

  // ----- Every step keeps what is known of the graph -----

  /**
   The next build leaves no more nodes than `grade` allows; inserted ids are removed or
   updated only if layers are mutual and a node that stays is on the highest level.
  */
  ghost predicate Room(cfg: Config, grade: Grade, c: Scene) {
    c.shared.index.Index? ==>
      var p := c.shared.index.sets;
      && 0 !in p.inserted + p.toBeInserted
      && Fits(grade, |p.inserted - p.toBeRemoved + p.toBeInserted|, cfg.m0, cfg.m, cfg.ef)
      && (p.toBeRemoved != {} ==> grade.Mirrors() && Anchored(c.graph, p.toBeRemoved))
  }

  ghost predicate AllRoom(cfg: Config, grade: Grade, scenes: seq<Scene>) {
    forall i :: 0 <= i < |scenes| ==> Room(cfg, grade, scenes[i])
  }

  ghost predicate Graded(cfg: Config, grade: Grade, c: Scene) {
    c.shared.index.Index? ==>
      var p := c.shared.index.sets;
      && c.graph.inserted == p.inserted
      && Deserves(grade, c.graph, p.toBeInserted, p.toBeRemoved, cfg.m0, cfg.m, cfg.ef)
  }

  lemma BuiltGrade(cfg: Config, grade: Grade, s: Shared, before: State, p: Pending.Sets, after: State)
    requires Built(cfg, s, before, p, after)
    requires Deserves(grade, before, p.toBeInserted, p.toBeRemoved, cfg.m0, cfg.m, cfg.ef)
    ensures Deserves(grade, after, {}, {}, cfg.m0, cfg.m, cfg.ef)
    ensures after.inserted == Pending.Built(p, s.vectors.Keys).inserted
  {
  }

  /** Only the pending sets have changed. */
  lemma PendingGrade(cfg: Config, grade: Grade, c: Scene, c': Scene)
    requires Graded(cfg, grade, c) && Room(cfg, grade, c') && Agrees(c'.shared)
    requires c'.graph == c.graph && c.shared.index.Index? && c'.shared.index.Index?
    requires c'.shared.index.sets.inserted == c.shared.index.sets.inserted
    ensures Graded(cfg, grade, c')
  {
    var p := c'.shared.index.sets;
    assert p.toBeInserted !! p.inserted - p.toBeRemoved;
  }

  lemma SameInserted(s: Shared, step: Step)
    requires Enabled(s, step) && (step.Notify? || step.Remove?) && s.index.Index?
    ensures After(s, step).index.Index? && After(s, step).index.sets.inserted == s.index.sets.inserted
  {
    match step
    case Notify(t) => Pending.AddedFacts(s.index.sets, s.inFlight[t]);
    case Remove(ids) => Pending.RemovedFacts(s.index.sets, Present(s.vectors.Keys, ids));
  }

  lemma BuiltFromNothing(cfg: Config, grade: Grade, s: Shared, graph: State)
    requires Built(cfg, s, Hnsw.NoGraph(), Pending.Sets({}, s.vectors.Keys, {}), graph)
    requires 0 !in s.vectors.Keys && Fits(grade, |s.vectors.Keys|, cfg.m0, cfg.m, cfg.ef)
    ensures Deserves(grade, graph, {}, {}, cfg.m0, cfg.m, cfg.ef) && graph.inserted == s.vectors.Keys
  {
    EmptyDeserves(Hnsw.NoGraph(), s.vectors.Keys, grade, cfg.m0, cfg.m, cfg.ef);
    BuiltGrade(cfg, grade, s, Hnsw.NoGraph(), Pending.Sets({}, s.vectors.Keys, {}), graph);
  }

  lemma NewIndexFits(cfg: Config, grade: Grade, c: Scene, keys: set<Id>)
    requires Room(cfg, grade, c) && c.shared.index.Index? && c.shared.index.sets == Pending.Sets(keys, {}, {})
    ensures 0 !in keys && Fits(grade, |keys|, cfg.m0, cfg.m, cfg.ef)
  {
    assert keys - {} + {} == keys;
  }

  lemma StartsGraded(cfg: Config, grade: Grade, c: Scene, c': Scene)
    requires Moves(cfg, c, AddIndex, c') && Room(cfg, grade, c')
    ensures Graded(cfg, grade, c')
  {
    NewIndexFits(cfg, grade, c', c.shared.vectors.Keys);
    BuiltFromNothing(cfg, grade, c.shared, c'.graph);
  }

  lemma StepKeepsGrade(cfg: Config, grade: Grade, c: Scene, step: Step, c': Scene)
    requires Moves(cfg, c, step, c') && Agrees(c'.shared)
    requires Graded(cfg, grade, c) && Room(cfg, grade, c')
    ensures Graded(cfg, grade, c')
  {
    match step
    case Write(_, _) =>
    case AddIndex => StartsGraded(cfg, grade, c, c');
    case Build => BuiltGrade(cfg, grade, c.shared, c.graph, c.shared.index.sets, c'.graph);
    case _ =>
      if c.shared.index.Index? {
        SameInserted(c.shared, step);
        PendingGrade(cfg, grade, c, c');
      }
  }

  lemma StoryStep(cfg: Config, scenes: seq<Scene>, steps: seq<Step>, i: nat)
    requires IsStory(cfg, scenes, steps) && i < |steps|
    ensures Moves(cfg, scenes[i], steps[i], scenes[i + 1])
    ensures Enabled(scenes[i].shared, steps[i]) && scenes[i + 1].shared == After(scenes[i].shared, steps[i])
  {
  }

  lemma NextAgrees(cfg: Config, scenes: seq<Scene>, steps: seq<Step>, i: nat)
    requires IsStory(cfg, scenes, steps) && i < |steps| && Agrees(scenes[i].shared)
    ensures Agrees(scenes[i + 1].shared)
  {
    StoryStep(cfg, scenes, steps, i);
    StepKeepsAgreement(scenes[i].shared, steps[i]);
  }

  lemma {:induction false} StoriesAgree(cfg: Config, scenes: seq<Scene>, steps: seq<Step>, i: nat)
    requires IsStory(cfg, scenes, steps) && i < |scenes|
    ensures Agrees(scenes[i].shared)
  {
    if i > 0 {
      StoriesAgree(cfg, scenes, steps, i - 1);
      NextAgrees(cfg, scenes, steps, i - 1);
    }
  }

  lemma NextGrade(cfg: Config, grade: Grade, scenes: seq<Scene>, steps: seq<Step>, i: nat)
    requires IsStory(cfg, scenes, steps) && AllRoom(cfg, grade, scenes) && i < |steps|
    requires Graded(cfg, grade, scenes[i])
    ensures Graded(cfg, grade, scenes[i + 1])
  {
    StoryStep(cfg, scenes, steps, i);
    StoriesAgree(cfg, scenes, steps, i + 1);
    StepKeepsGrade(cfg, grade, scenes[i], steps[i], scenes[i + 1]);
  }

  /** In every interleaving the graph holds its grade as long as there is room for it. */
  lemma {:induction false} StoriesKeepGrade(cfg: Config, grade: Grade, scenes: seq<Scene>, steps: seq<Step>, i: nat)
    requires IsStory(cfg, scenes, steps) && AllRoom(cfg, grade, scenes) && i < |scenes|
    ensures Graded(cfg, grade, scenes[i])
  {
    if i > 0 {
      StoriesKeepGrade(cfg, grade, scenes, steps, i - 1);
      NextGrade(cfg, grade, scenes, steps, i - 1);
    }
  }

  /**
   In every interleaving of adds, updates, removals and builds of a small index, a search
   right after a build answers like the exact scan if no add is in flight.
  */
  lemma QuietSearchIsExact(cfg: Config, grade: Grade, scenes: seq<Scene>, steps: seq<Step>, i: nat, q: Vec, k: nat,
                           answer: Hnsw.Answer, ep: set<Id>, found: set<Cand>, visited: set<Id>)
    requires IsStory(cfg, scenes, steps) && AllRoom(cfg, grade, scenes) && grade.Connects()
    requires i < |steps| && steps[i] == Build && scenes[i].shared.inFlight == map[]
    requires var s := scenes[i + 1].shared;
      && WellFormed(scenes[i + 1].graph) && Max(k, cfg.efSearch) >= |s.vectors.Keys|
      && Hnsw.Searched(SpaceOf(cfg, s), scenes[i + 1].graph, q, k, cfg.efSearch, answer, ep, found, visited)
    ensures var s := scenes[i + 1].shared;
      answer == Hnsw.Hits(SpaceOf(cfg, s).Exact(q, s.vectors.Keys, k))
  {
    StoriesAgree(cfg, scenes, steps, i);
    StoryStep(cfg, scenes, steps, i);
    QuietBuild(scenes[i].shared);
    StoriesKeepGrade(cfg, grade, scenes, steps, i + 1);
    BuiltSearchIsExact(cfg, grade, scenes[i + 1], q, k, answer, ep, found, visited);
  }

  lemma BuiltSearchIsExact(cfg: Config, grade: Grade, c: Scene, q: Vec, k: nat, answer: Hnsw.Answer, ep: set<Id>,
                           found: set<Cand>, visited: set<Id>)
    requires Graded(cfg, grade, c) && grade.Connects() && c.shared.index.Index?
    requires c.shared.index.sets == Pending.Sets(c.shared.vectors.Keys, {}, {})
    requires WellFormed(c.graph) && Max(k, cfg.efSearch) >= |c.shared.vectors.Keys|
    requires Hnsw.Searched(SpaceOf(cfg, c.shared), c.graph, q, k, cfg.efSearch, answer, ep, found, visited)
    ensures answer == Hnsw.Hits(SpaceOf(cfg, c.shared).Exact(q, c.shared.vectors.Keys, k))
  {
    ConnectedIsSearchable(c.graph, cfg.m0, cfg.m);
    Hnsw.SearchIsExact(SpaceOf(cfg, c.shared), c.graph, q, k, cfg.efSearch, answer, ep, found, visited);
  }

  // ----- Where only new ids are added, there is room -----

  /** Only new ids are written, and none is 0; nothing is removed; the index is made while no add is in flight. */
  ghost predicate Adds(s: Shared, step: Step) {
    match step
    case Write(_, batch) => Elements(BatchIds(batch)) !! s.vectors.Keys + {0}
    case Remove(_) => false
    case AddIndex => s.inFlight == map[]
    case _ => true
  }

  ghost predicate OnlyAdds(cfg: Config, scenes: seq<Scene>, steps: seq<Step>)
    requires |scenes| == |steps| + 1
  {
    && 0 !in scenes[0].shared.vectors
    && (forall i :: 0 <= i < |steps| ==> Adds(scenes[i].shared, steps[i]))
    && forall i :: 0 <= i < |scenes| ==> |scenes[i].shared.vectors.Keys| <= cfg.m0 + 1
  }

  /** Ids in flight are stored, and no two threads have the same one in flight. */
  ghost predicate Apart(s: Shared) {
    && (forall id :: InFlight(s.inFlight, id) ==> id in s.vectors)
    && (forall t, u :: t in s.inFlight && u in s.inFlight && t != u ==>
          Elements(s.inFlight[t]) !! Elements(s.inFlight[u]))
  }

  /** The index knows exactly the stored ids that are not in flight. */
  ghost predicate Knows(s: Shared) {
    && 0 !in s.vectors && Apart(s)
    && (s.index.Index? ==>
          && s.index.sets.toBeRemoved == {}
          && forall id :: id in s.index.sets.inserted + s.index.sets.toBeInserted <==>
               id in s.vectors && !InFlight(s.inFlight, id))
  }

  lemma WriteKnows(s: Shared, step: Step)
    requires step.Write? && Enabled(s, step) && Knows(s)
    requires Elements(BatchIds(step.batch)) !! s.vectors.Keys + {0}
    ensures Knows(After(s, step))
  {
    var ids, s' := BatchIds(step.batch), After(s, step);
    UpsertedFacts(s.vectors, step.batch);
    MoreInFlight(s.inFlight, step.t, ids);
    forall id | id in ids ensures id !in s.vectors && id != 0 { assert id in Elements(ids); }
    forall t, u | t in s'.inFlight && u in s'.inFlight && t != u
      ensures Elements(s'.inFlight[t]) !! Elements(s'.inFlight[u])
    {
      forall w, id | w in s.inFlight && id in s.inFlight[w] ensures id in s.vectors {
        assert InFlight(s.inFlight, id);
      }
    }
  }

  lemma NotifyKnows(s: Shared, step: Step)
    requires step.Notify? && Enabled(s, step) && Knows(s)
    ensures Knows(After(s, step))
  {
    var adds, t := s.inFlight, step.t;
    forall id ensures InFlight(adds - {t}, id) <==> InFlight(adds, id) && id !in adds[t] {
      LandsOnce(adds, t, id);
    }
    forall id | id in adds[t] ensures InFlight(adds, id) {}
    if s.index.Index? {
      Pending.AddedFacts(s.index.sets, adds[t]);
    }
  }

  lemma LandsOnce(adds: map<Thread, seq<Id>>, t: Thread, id: Id)
    requires t in adds
    requires forall u, w :: u in adds && w in adds && u != w ==> Elements(adds[u]) !! Elements(adds[w])
    ensures InFlight(adds - {t}, id) <==> InFlight(adds, id) && id !in adds[t]
  {
    if InFlight(adds - {t}, id) {
      var u :| u in adds - {t} && id in (adds - {t})[u];
      assert u in adds && id in Elements(adds[u]);
      assert id !in Elements(adds[t]);
    }
    if InFlight(adds, id) && id !in adds[t] {
      var u :| u in adds && id in adds[u];
      assert u in adds - {t} && id in (adds - {t})[u];
    }
  }

  lemma StepKnows(s: Shared, step: Step)
    requires Enabled(s, step) && Knows(s) && Adds(s, step)
    ensures Knows(After(s, step))
  {
    match step
    case Write(_, _) => WriteKnows(s, step);
    case Notify(_) => NotifyKnows(s, step);
    case AddIndex =>
    case Build =>
  }

  lemma NextKnows(cfg: Config, scenes: seq<Scene>, steps: seq<Step>, i: nat)
    requires IsStory(cfg, scenes, steps) && OnlyAdds(cfg, scenes, steps) && i < |steps| && Knows(scenes[i].shared)
    ensures Knows(scenes[i + 1].shared)
  {
    StoryStep(cfg, scenes, steps, i);
    StepKnows(scenes[i].shared, steps[i]);
  }

  lemma {:induction false} AddsKnow(cfg: Config, scenes: seq<Scene>, steps: seq<Step>, i: nat)
    requires IsStory(cfg, scenes, steps) && OnlyAdds(cfg, scenes, steps) && i < |scenes|
    ensures Knows(scenes[i].shared)
  {
    if i > 0 {
      AddsKnow(cfg, scenes, steps, i - 1);
      NextKnows(cfg, scenes, steps, i - 1);
    }
  }

  lemma KnowsRoom(cfg: Config, c: Scene)
    requires Knows(c.shared) && |c.shared.vectors.Keys| <= cfg.m0 + 1
    ensures Room(cfg, Small, c)
  {
    if c.shared.index.Index? {
      var p := c.shared.index.sets;
      SubsetSize(p.inserted - p.toBeRemoved + p.toBeInserted, c.shared.vectors.Keys);
    }
  }

  /** So histories of adds keep a small index small. */
  lemma AddsHaveRoom(cfg: Config, scenes: seq<Scene>, steps: seq<Step>)
    requires IsStory(cfg, scenes, steps) && OnlyAdds(cfg, scenes, steps)
    ensures AllRoom(cfg, Small, scenes)
  {
    forall i | 0 <= i < |scenes| ensures Room(cfg, Small, scenes[i]) {
      AddsKnow(cfg, scenes, steps, i);
      KnowsRoom(cfg, scenes[i]);
    }
  }
}
