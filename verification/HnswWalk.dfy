/** The best-first walk of `search_layer` of `indices/hnsw.cpp`, round by round. */
module HnswWalk {
  import opened Ranking
  import opened Vectors
  import opened Spaces
  import opened HnswGraph

  /** The bound on the result set: entry points beyond `ef` are kept. */
  function Capacity(entry: set<Id>, ef: nat): nat {
    Max(ef, |entry|)
  }

  /** No visited node outside `result` is nearer than the farthest returned one. */
  ghost predicate BestOf(sp: Space, q: Vec, result: set<Cand>, visited: set<Id>) {
    result != {} ==>
      forall v {:trigger sp.Score(q, v)} :: v in visited && sp.Score(q, v) !in result ==>
        Greatest(result).dist <= sp.Dist(q, v)
  }

  ghost predicate ScoredFrom(sp: Space, q: Vec, cands: set<Cand>, visited: set<Id>) {
    forall c :: c in cands ==> c.id in visited && c.dist == sp.Dist(q, c.id)
  }

  /** What `result` holds of the nodes visited so far. */
  ghost predicate Kept(sp: Space, q: Vec, cap: nat, result: set<Cand>, visited: set<Id>) {
    && ScoredFrom(sp, q, result, visited)
    && |result| == Min(cap, |visited|)
    && BestOf(sp, q, result, visited)
    && (|visited| <= cap ==> forall v {:trigger sp.Score(q, v)} :: v in visited ==> sp.Score(q, v) in result)
  }

  /** The sets of the walk between two rounds: candidates, results, visited nodes. */
  datatype Moment = Moment(waiting: set<Cand>, kept: set<Cand>, seen: set<Id>)

  /**
   What became of a node seen on the way from `m` to `m'`: accepted only if there was room
   or it was nearer than the farthest result; refused only if there was no room and it is
   no nearer than the farthest result.
  */
  ghost predicate Judged(sp: Space, q: Vec, ef: nat, m: Moment, m': Moment, n: Id)
    requires m.kept != {} && m'.kept != {}
  {
    if sp.Score(q, n) in m'.waiting then |m.kept| < ef || sp.Dist(q, n) < Greatest(m.kept).dist
    else |m'.kept| >= ef && Greatest(m'.kept).dist <= sp.Dist(q, n)
  }

  /** The nodes `nbrs` have been looked at: those not seen before are judged, and nothing else changes. */
  ghost predicate Opens(sp: Space, q: Vec, ef: nat, m: Moment, nbrs: set<Id>, m': Moment) {
    && m.kept != {} && m'.kept != {}
    && m'.seen == m.seen + nbrs
    && m.waiting <= m'.waiting
    && (forall c :: c in m'.waiting - m.waiting ==> c.id in nbrs - m.seen && c == sp.Score(q, c.id))
    && (|m.kept| >= ef ==> |m'.kept| >= ef && Greatest(m'.kept).dist <= Greatest(m.kept).dist)
    && (forall n {:trigger sp.Score(q, n)} :: n in nbrs - m.seen ==> Judged(sp, q, ef, m, m', n))
  }

  /** The nearest candidate, no farther than the farthest result, is taken, and its neighbours are looked at. */
  ghost predicate IsRound(sp: Space, g: Layer, q: Vec, ef: nat, m: Moment, c: Cand, m': Moment) {
    && c in m.waiting && (forall w :: w in m.waiting ==> Leq(c, w))
    && m.kept != {} && c.dist <= Greatest(m.kept).dist
    && Opens(sp, q, ef, m.(waiting := m.waiting - {c}), Nbrs(g, c.id), m')
  }

  ghost predicate Sound(sp: Space, q: Vec, cap: nat, m: Moment) {
    Kept(sp, q, cap, m.kept, m.seen) && ScoredFrom(sp, q, m.waiting, m.seen)
  }

  /** `expanded` are the candidates taken, one a round. */
  ghost predicate IsWalk(sp: Space, g: Layer, q: Vec, entry: set<Id>, ef: nat, trace: seq<Moment>, expanded: seq<Cand>)
  {
    && |trace| == |expanded| + 1
    && trace[0] == Moment(sp.Scores(q, entry), sp.Scores(q, entry), entry)
    && (forall i :: 0 <= i < |trace| ==> Sound(sp, q, Capacity(entry, ef), trace[i]))
    && forall i :: 0 <= i < |expanded| ==> IsRound(sp, g, q, ef, trace[i], expanded[i], trace[i + 1])
  }

  /** No candidate waits that is as near as the farthest result. */
  ghost predicate Stops(m: Moment) {
    m.kept != {} && forall c :: c in m.waiting ==> c.dist > Greatest(m.kept).dist
  }

  ghost predicate BestFirst(sp: Space, g: Layer, q: Vec, entry: set<Id>, ef: nat, result: set<Cand>, visited: set<Id>) {
    exists trace: seq<Moment>, expanded: seq<Cand> {:trigger IsWalk(sp, g, q, entry, ef, trace, expanded)} ::
      && IsWalk(sp, g, q, entry, ef, trace, expanded)
      && trace[|expanded|].kept == result && trace[|expanded|].seen == visited && Stops(trace[|expanded|])
  }

  // ----- Making walks -----

  lemma WalkStarts(sp: Space, g: Layer, q: Vec, entry: set<Id>, ef: nat)
    requires Sound(sp, q, Capacity(entry, ef), Moment(sp.Scores(q, entry), sp.Scores(q, entry), entry))
    ensures IsWalk(sp, g, q, entry, ef, [Moment(sp.Scores(q, entry), sp.Scores(q, entry), entry)], [])
  {
  }

  lemma WalkNext(sp: Space, g: Layer, q: Vec, entry: set<Id>, ef: nat, trace: seq<Moment>, expanded: seq<Cand>, c: Cand,
                 m: Moment)
    requires IsWalk(sp, g, q, entry, ef, trace, expanded)
    requires IsRound(sp, g, q, ef, trace[|expanded|], c, m) && Sound(sp, q, Capacity(entry, ef), m)
    ensures IsWalk(sp, g, q, entry, ef, trace + [m], expanded + [c])
  {
  }

  lemma WalkEnds(sp: Space, g: Layer, q: Vec, entry: set<Id>, ef: nat, trace: seq<Moment>, expanded: seq<Cand>)
    requires IsWalk(sp, g, q, entry, ef, trace, expanded) && Stops(trace[|expanded|])
    ensures BestFirst(sp, g, q, entry, ef, trace[|expanded|].kept, trace[|expanded|].seen)
  {
  }

  /** One more node, seen before or judged now. */
  lemma OpensNext(sp: Space, q: Vec, ef: nat, m: Moment, nbrs: set<Id>, mid: Moment, n: Id, m': Moment)
    requires Opens(sp, q, ef, m, nbrs, mid) && Opens(sp, q, ef, mid, {n}, m')
    requires n !in mid.seen && ScoredFrom(sp, q, mid.waiting, mid.seen)
    ensures Opens(sp, q, ef, m, nbrs + {n}, m')
  {
    forall x | x in nbrs + {n} - m.seen ensures Judged(sp, q, ef, m, m', x) {
      if x != n {
        assert Judged(sp, q, ef, m, mid, x);
        assert sp.Score(q, x) in m'.waiting ==> sp.Score(q, x) in mid.waiting;
      } else {
        assert Judged(sp, q, ef, mid, m', n);
      }
    }
  }

  lemma OpensSeen(sp: Space, q: Vec, ef: nat, m: Moment, nbrs: set<Id>, m': Moment, n: Id)
    requires Opens(sp, q, ef, m, nbrs, m') && n in m'.seen
    ensures Opens(sp, q, ef, m, nbrs + {n}, m')
  {
    assert m.seen + (nbrs + {n}) == m'.seen;
    assert nbrs + {n} - m.seen == nbrs - m.seen;
    forall x | x in nbrs + {n} - m.seen ensures Judged(sp, q, ef, m, m', x) {
      assert x in nbrs - m.seen;
    }
  }

  // ----- The order of the walk -----

  /** The neighbours of the nodes expanded. */
  ghost function Opened(g: Layer, expanded: seq<Cand>): set<Id> {
    if expanded == [] then {}
    else Opened(g, expanded[..|expanded| - 1]) + Nbrs(g, expanded[|expanded| - 1].id)
  }

  /** Nothing but the entry points and the neighbours of expanded nodes is ever visited. */
  lemma {:induction false} SeenIsOpened(sp: Space, g: Layer, q: Vec, entry: set<Id>, ef: nat, trace: seq<Moment>,
                                        expanded: seq<Cand>, i: nat)
    requires IsWalk(sp, g, q, entry, ef, trace, expanded) && i <= |expanded|
    ensures trace[i].seen == entry + Opened(g, expanded[..i])
  {
    if i == 0 {
      assert expanded[..0] == [];
    } else {
      SeenIsOpened(sp, g, q, entry, ef, trace, expanded, i - 1);
      assert IsRound(sp, g, q, ef, trace[i - 1], expanded[i - 1], trace[i]);
      assert expanded[..i][..i - 1] == expanded[..i - 1];
    }
  }

  /** A node expanded never waits again. */
  lemma {:induction false} NeverAgain(sp: Space, g: Layer, q: Vec, entry: set<Id>, ef: nat, trace: seq<Moment>,
                                      expanded: seq<Cand>, i: nat, j: nat)
    requires IsWalk(sp, g, q, entry, ef, trace, expanded) && i < j <= |expanded|
    ensures expanded[i] !in trace[j].waiting && expanded[i].id in trace[j].seen
    decreases j
  {
    assert Sound(sp, q, Capacity(entry, ef), trace[i]);
    assert IsRound(sp, g, q, ef, trace[j - 1], expanded[j - 1], trace[j]);
    if i < j - 1 { NeverAgain(sp, g, q, entry, ef, trace, expanded, i, j - 1); }
  }

  /** A candidate waits until it is taken. */
  lemma {:induction false} WaitsStill(sp: Space, g: Layer, q: Vec, entry: set<Id>, ef: nat, trace: seq<Moment>,
                                      expanded: seq<Cand>, h: nat, i: nat, c: Cand)
    requires IsWalk(sp, g, q, entry, ef, trace, expanded) && h <= i <= |expanded|
    requires c in trace[h].waiting && forall j :: h <= j < i ==> expanded[j] != c
    ensures c in trace[i].waiting
    decreases i
  {
    if h < i {
      WaitsStill(sp, g, q, entry, ef, trace, expanded, h, i - 1, c);
      assert IsRound(sp, g, q, ef, trace[i - 1], expanded[i - 1], trace[i]);
    }
  }

  /** Best first: what was accepted before round `i` and is taken after it is no better than what round `i` takes. */
  lemma BestFirstOrder(sp: Space, g: Layer, q: Vec, entry: set<Id>, ef: nat, trace: seq<Moment>, expanded: seq<Cand>,
                       h: nat, i: nat, j: nat)
    requires IsWalk(sp, g, q, entry, ef, trace, expanded) && h <= i < j < |expanded|
    requires expanded[j] in trace[h].waiting
    ensures Leq(expanded[i], expanded[j]) && expanded[i] != expanded[j]
  {
    assert IsRound(sp, g, q, ef, trace[j], expanded[j], trace[j + 1]);
    forall l | h <= l < j ensures expanded[l] != expanded[j] {
      NeverAgain(sp, g, q, entry, ef, trace, expanded, l, j);
    }
    WaitsStill(sp, g, q, entry, ef, trace, expanded, h, i, expanded[j]);
    assert IsRound(sp, g, q, ef, trace[i], expanded[i], trace[i + 1]);
  }

  /** An accepted candidate is expanded, or stays behind because it is farther than every result. */
  lemma TakenOrBeyond(sp: Space, g: Layer, q: Vec, entry: set<Id>, ef: nat, trace: seq<Moment>, expanded: seq<Cand>,
                      h: nat, c: Cand)
    requires IsWalk(sp, g, q, entry, ef, trace, expanded) && Stops(trace[|expanded|])
    requires h <= |expanded| && c in trace[h].waiting
    ensures c in expanded[h..] || (forall r :: r in trace[|expanded|].kept ==> r.dist < c.dist)
  {
    if c !in expanded[h..] {
      forall j | h <= j < |expanded| ensures expanded[j] != c { assert expanded[j] == expanded[h..][j - h]; }
      WaitsStill(sp, g, q, entry, ef, trace, expanded, h, |expanded|, c);
    }
  }
}
