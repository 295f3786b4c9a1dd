/**
 The steps of module Interleaving with an IVF-Flat index: it looks vectors up when it is
 notified, by which time other threads may have written them again or removed them.
*/
module IvfInterleaving {
  import opened Ranking
  import opened Vectors
  import opened Spaces
  import opened Batches
  import opened KMeansSteps
  import opened IvfSearch
  import opened IvfLists
  import opened Interleaving

  /** The parameters of the index, and the dimension of the collection. */
  datatype Config = Config(metric: Metric, k: nat, dim: nat)

  datatype IvfState = NoIvf | Ivf(clusters: seq<Cluster>, converged: bool)

  datatype Scene = Scene(vectors: map<Id, Vec>, index: IvfState, inFlight: map<Thread, seq<Id>>)

  /** What `on_vectors_added` promises, whatever the rebuild counter says. */
  ghost predicate TellsAdded(cfg: Config, vectors: map<Id, Vec>, index: IvfState, index': IvfState, ids: seq<Id>) {
    match index
    case NoIvf => index' == NoIvf
    case Ivf(clusters, converged) =>
      index'.Ivf? && exists count, threshold, count' ::
        AddedOrBuilt(count, threshold, count', cfg.metric, vectors, cfg.k, cfg.dim,
                     clusters, index'.clusters, converged, index'.converged, ids)
  }

  /** What `on_vectors_removed` promises; it is told of ids that were really erased. */
  ghost predicate TellsRemoved(cfg: Config, vectors: map<Id, Vec>, index: IvfState, index': IvfState, ids: seq<Id>) {
    if index.NoIvf? || ids == [] || index.clusters == [] then index' == index
    else
      index'.Ivf? && exists count, threshold, count' ::
        ErasedOrBuilt(count, threshold, count', cfg.metric, vectors, cfg.k, cfg.dim,
                      index.clusters, index'.clusters, index.converged, index'.converged, ids)
  }

  /** There is no lazy build: the index is built when it is made and when it is told. */
  ghost predicate Acts(cfg: Config, s: Scene, step: Step, s': Scene) {
    match step
    case Write(t, batch) =>
      && t !in s.inFlight
      && s' == s.(vectors := Upserted(s.vectors, batch), inFlight := s.inFlight[t := BatchIds(batch)])
    case Notify(t) =>
      && t in s.inFlight
      && s' == s.(index := s'.index, inFlight := s.inFlight - {t})
      && TellsAdded(cfg, s.vectors, s.index, s'.index, s.inFlight[t])
    case Remove(ids) =>
      var gone := Present(s.vectors.Keys, ids);
      && s' == s.(vectors := s.vectors - Elements(gone), index := s'.index)
      && TellsRemoved(cfg, s'.vectors, s.index, s'.index, gone)
    case AddIndex =>
      && s.index.NoIvf? && s'.index.Ivf?
      && s' == s.(index := s'.index)
      && BuiltBy(cfg.metric, s.vectors, cfg.k, cfg.dim, s'.index.clusters, s'.index.converged)
    case Build => false
  }

  ghost predicate IsPlay(cfg: Config, scenes: seq<Scene>, steps: seq<Step>) {
    && |scenes| == |steps| + 1
    && scenes[0].index.NoIvf? && scenes[0].inFlight == map[]
    && forall i :: 0 <= i < |steps| ==> Acts(cfg, scenes[i], steps[i], scenes[i + 1])
  }

  ghost predicate Covered(metric: Metric, v: Vec, clusters: seq<Cluster>, id: Id) {
    clusters != [] && id in clusters[Nearest(metric, v, Centroids(clusters))].ids
  }

  /** If the last build converged, each stored id whose add is not in flight is listed with its nearest centroid. */
  ghost predicate QuietCovered(cfg: Config, s: Scene) {
    s.index.Ivf? && s.index.converged && cfg.k > 0 ==>
      forall id :: id in s.vectors && !InFlight(s.inFlight, id) ==>
        Covered(cfg.metric, s.vectors[id], s.index.clusters, id)
  }

  lemma AddedCovers(cfg: Config, vectors: map<Id, Vec>, index: IvfState, index': IvfState, ids: seq<Id>)
    requires TellsAdded(cfg, vectors, index, index', ids) && index'.Ivf? && index'.converged && cfg.k > 0
    requires index.Ivf?
    ensures forall id :: (id in vectors
        && (id in ids || (index.converged ==> Covered(cfg.metric, vectors[id], index.clusters, id)))) ==>
      Covered(cfg.metric, vectors[id], index'.clusters, id)
  {
    var count, threshold, count' :|
      AddedOrBuilt(count, threshold, count', cfg.metric, vectors, cfg.k, cfg.dim,
                   index.clusters, index'.clusters, index.converged, index'.converged, ids);
    if index.clusters != [] && count < threshold {
      AppendedFacts(cfg.metric, vectors, index.clusters, ids);
    } else {
      BuiltFacts(cfg.metric, vectors, cfg.k, cfg.dim, index'.clusters, true);
    }
  }

  lemma RemovedCovers(cfg: Config, vectors: map<Id, Vec>, index: IvfState, index': IvfState, ids: seq<Id>)
    requires TellsRemoved(cfg, vectors, index, index', ids) && Elements(ids) !! vectors.Keys
    requires index'.Ivf? && index'.converged && cfg.k > 0
    requires index.Ivf?
    ensures forall id :: id in vectors && (index.converged ==> Covered(cfg.metric, vectors[id], index.clusters, id)) ==>
      Covered(cfg.metric, vectors[id], index'.clusters, id)
  {
    if ids != [] && index.clusters != [] {
      var count, threshold, count' :|
        ErasedOrBuilt(count, threshold, count', cfg.metric, vectors, cfg.k, cfg.dim,
                      index.clusters, index'.clusters, index.converged, index'.converged, ids);
      if count < threshold {
        ErasedFacts(index.clusters, ids);
        forall id | id in vectors ensures id !in ids { assert id !in Elements(ids); }
      } else {
        BuiltFacts(cfg.metric, vectors, cfg.k, cfg.dim, index'.clusters, true);
      }
    }
  }

  lemma ActKeepsCoverage(cfg: Config, s: Scene, step: Step, s': Scene)
    requires QuietCovered(cfg, s) && Acts(cfg, s, step, s')
    ensures QuietCovered(cfg, s')
  {
    match step
    case Write(t, batch) =>
      UpsertedFacts(s.vectors, batch);
      MoreInFlight(s.inFlight, t, BatchIds(batch));
    case Notify(t) =>
      LessInFlight(s.inFlight, t);
      if s'.index.Ivf? && s'.index.converged && cfg.k > 0 {
        AddedCovers(cfg, s.vectors, s.index, s'.index, s.inFlight[t]);
      }
    case Remove(ids) =>
      var gone := Present(s.vectors.Keys, ids);
      PresentFacts(s.vectors.Keys, ids);
      if s'.index.Ivf? && s'.index.converged && cfg.k > 0 {
        RemovedCovers(cfg, s'.vectors, s.index, s'.index, gone);
      }
    case AddIndex =>
      if s'.index.converged && cfg.k > 0 {
        BuiltFacts(cfg.metric, s.vectors, cfg.k, cfg.dim, s'.index.clusters, true);
      }
  }

  lemma {:induction false} PlaysKeepCoverage(cfg: Config, scenes: seq<Scene>, steps: seq<Step>, i: nat)
    requires IsPlay(cfg, scenes, steps) && i < |scenes|
    ensures QuietCovered(cfg, scenes[i])
  {
    if i > 0 {
      PlaysKeepCoverage(cfg, scenes, steps, i - 1);
      ActKeepsCoverage(cfg, scenes[i - 1], steps[i - 1], scenes[i]);
    }
  }

  /**
   In every interleaving, a search for the vector of an id whose add is not in flight
   finds something at least as near, if the last build converged.
  */
  lemma QuietIsFound(cfg: Config, scenes: seq<Scene>, steps: seq<Step>, i: nat, id: Id, nProbe: nat, topK: nat)
    requires IsPlay(cfg, scenes, steps) && i < |scenes|
    requires scenes[i].index.Ivf? && scenes[i].index.converged && cfg.k > 0 && nProbe >= 1 && topK >= 1
    requires id in scenes[i].vectors && !InFlight(scenes[i].inFlight, id)
    ensures var s, q := scenes[i], scenes[i].vectors[id];
      var answer := Answer(Space(s.vectors, cfg.metric, 0.0), q, s.index.clusters, nProbe, topK);
      answer != [] && answer[0].dist <= cfg.metric(q, q)
  {
    PlaysKeepCoverage(cfg, scenes, steps, i);
    CoveredIsFound(Space(scenes[i].vectors, cfg.metric, 0.0), id, scenes[i].index.clusters, nProbe, topK);
  }
}
