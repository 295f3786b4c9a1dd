/** `search_layer` and `select_neighbors_heuristic` of `indices/hnsw.cpp`. */
module HnswSearch {
  import opened Ranking
  import opened Vectors
  import opened Spaces
  import opened HnswGraph
  import opened HnswWalk

  /** The contract of a layer search that started from a non-empty `entry`. */
  ghost predicate SearchOutcome(sp: Space, g: Layer, q: Vec, entry: set<Id>, ef: nat, result: set<Cand>,
                                visited: set<Id>)
  {
    && entry <= visited
    && result != {}
    && Within(g, entry, visited)
    && Kept(sp, q, Capacity(entry, ef), result, visited)
    && (forall c :: c in result ==> Nbrs(g, c.id) <= visited)
    && BestFirst(sp, g, q, entry, ef, result, visited)
  }

  /** One unvisited neighbour: lines 111-118. */
  method Visit(sp: Space, q: Vec, ghost cap: nat, ef: nat, n: Id, candidates: set<Cand>, result: set<Cand>,
               ghost visited: set<Id>)
    returns (candidates': set<Cand>, result': set<Cand>)
    requires 1 <= cap && visited != {} && n !in visited
    requires ef <= cap && (ef == cap || cap <= |visited|)
    requires Kept(sp, q, cap, result, visited) && ScoredFrom(sp, q, candidates, visited)
    ensures Kept(sp, q, cap, result', visited + {n})
    ensures ScoredFrom(sp, q, candidates', visited + {n})
    ensures candidates <= candidates' <= candidates + {sp.Score(q, n)}
    ensures result' <= result + {sp.Score(q, n)}
    ensures sp.Score(q, n) in result' ==> sp.Score(q, n) in candidates'
    ensures Opens(sp, q, ef, Moment(candidates, result, visited), {n}, Moment(candidates', result', visited + {n}))
  {
    candidates', result' := candidates, result;
    var farthest := Greatest(result).dist;
    var d := sp.Dist(q, n);
    if d < farthest || |result| < ef {
      candidates' := candidates' + {Cand(d, n)};
      result' := result' + {Cand(d, n)};
      if |result'| > ef {
        result' := result' - {Greatest(result')};
      }
    }
    VisitOpens(sp, q, ef, Moment(candidates, result, visited), n, Moment(candidates', result', visited + {n}));
  }

  /** The two outcomes of a visit, and how the farthest result moves. */
  lemma VisitOpens(sp: Space, q: Vec, ef: nat, m: Moment, n: Id, m': Moment)
    requires m.kept != {} && n !in m.seen && ScoredFrom(sp, q, m.waiting, m.seen) && ScoredFrom(sp, q, m.kept, m.seen)
    requires m'.seen == m.seen + {n}
    requires if sp.Dist(q, n) < Greatest(m.kept).dist || |m.kept| < ef
      then m'.waiting == m.waiting + {sp.Score(q, n)} && m'.kept == Trimmed(m.kept + {sp.Score(q, n)}, ef)
      else m'.waiting == m.waiting && m'.kept == m.kept
    ensures Opens(sp, q, ef, m, {n}, m')
  {
    var more := m.kept + {sp.Score(q, n)};
    assert sp.Score(q, n) !in m.kept && |more| == |m.kept| + 1;
    assert sp.Score(q, n) !in m.waiting;
  }

  /** Lines 115-117: beyond `ef` the farthest result goes. */
  ghost function Trimmed(result: set<Cand>, ef: nat): set<Cand>
    requires result != {}
  {
    if |result| > ef then result - {Greatest(result)} else result
  }

  /** Every returned node except those still waiting in `candidates` has been expanded. */
  ghost predicate Expanded(g: Layer, result: set<Cand>, candidates: set<Cand>, visited: set<Id>) {
    forall c :: c in result && c !in candidates ==> Nbrs(g, c.id) <= visited
  }

  /** The state of the walk between two rounds of the outer loop. */
  ghost predicate Walk(sp: Space, g: Layer, q: Vec, entry: set<Id>, ef: nat, candidates: set<Cand>, result: set<Cand>,
                       visited: set<Id>)
  {
    && entry != {} && entry <= visited <= entry + Nodes(g)
    && result != {}
    && Within(g, entry, visited)
    && Kept(sp, q, Capacity(entry, ef), result, visited)
    && ScoredFrom(sp, q, candidates, visited)
    && Expanded(g, result, candidates, visited)
  }

  lemma Seed(sp: Space, g: Layer, q: Vec, entry: set<Id>, ef: nat)
    requires entry != {}
    ensures Walk(sp, g, q, entry, ef, sp.Scores(q, entry), sp.Scores(q, entry), entry)
  {
    sp.ScoresSize(q, entry);
  }

  /** Candidate `cand` is out; `done` of its neighbours have been looked at since moment `m`. */
  ghost predicate Expanding(sp: Space, g: Layer, q: Vec, entry: set<Id>, ef: nat, cand: Cand, m: Moment, done: set<Id>,
                            now: Moment)
  {
    && cand.id in m.seen && m.seen <= now.seen
    && Walk(sp, g, q, entry, ef, now.waiting + {cand}, now.kept, now.seen)
    && ScoredFrom(sp, q, now.waiting, now.seen)
    && (now.seen == m.seen ==> now.waiting == m.waiting)
    && Opens(sp, q, ef, m, done, now)
  }

  /** One neighbour: lines 107-118. */
  method LookAt(sp: Space, g: Layer, q: Vec, ghost entry: set<Id>, ef: nat, ghost cand: Cand, ghost m: Moment,
                ghost done: set<Id>, n: Id, candidates0: set<Cand>, result0: set<Cand>, visited0: set<Id>)
    returns (candidates: set<Cand>, result: set<Cand>, visited: set<Id>)
    requires Expanding(sp, g, q, entry, ef, cand, m, done, Moment(candidates0, result0, visited0))
    requires n in Nbrs(g, cand.id)
    ensures Expanding(sp, g, q, entry, ef, cand, m, done + {n}, Moment(candidates, result, visited))
  {
    candidates, result, visited := candidates0, result0, visited0;
    ghost var before := Moment(candidates, result, visited);
    if n !in visited {
      WithinNext(g, entry, visited, cand.id, n);
      NbrsAreNodes(g, cand.id);
      SubsetSize(entry, visited);
      candidates, result := Visit(sp, q, Capacity(entry, ef), ef, n, candidates, result, visited);
      visited := visited + {n};
      OpensNext(sp, q, ef, m, done, before, n, Moment(candidates, result, visited));
    } else {
      OpensSeen(sp, q, ef, m, done, before, n);
    }
  }

  /** All unvisited neighbours of the candidate just extracted: lines 105-119. */
  method Expand(sp: Space, g: Layer, q: Vec, ghost entry: set<Id>, ef: nat, cand: Cand, candidates0: set<Cand>,
                result0: set<Cand>, visited0: set<Id>)
    returns (candidates: set<Cand>, result: set<Cand>, visited: set<Id>)
    requires cand.id in visited0
    requires Walk(sp, g, q, entry, ef, candidates0 + {cand}, result0, visited0)
    ensures Walk(sp, g, q, entry, ef, candidates, result, visited)
    ensures visited0 <= visited
    ensures visited == visited0 ==> candidates == candidates0
    ensures Opens(sp, q, ef, Moment(candidates0, result0, visited0), Nbrs(g, cand.id),
                  Moment(candidates, result, visited))
  {
    ghost var m := Moment(candidates0, result0, visited0);
    candidates, result, visited := candidates0, result0, visited0;
    var rest := Nbrs(g, cand.id);
    ExpandingStarts(sp, g, q, entry, ef, cand, m, Nbrs(g, cand.id) - rest);
    while rest != {}
      invariant rest <= Nbrs(g, cand.id)
      invariant Expanding(sp, g, q, entry, ef, cand, m, Nbrs(g, cand.id) - rest, Moment(candidates, result, visited))
    {
      var n :| n in rest;
      ghost var done := Nbrs(g, cand.id) - rest;
      candidates, result, visited :=
        LookAt(sp, g, q, entry, ef, cand, m, done, n, candidates, result, visited);
      rest := rest - {n};
      assert Nbrs(g, cand.id) - rest == done + {n};
    }
    ExpandingEnds(sp, g, q, entry, ef, cand, m, Moment(candidates, result, visited));
  }

  lemma ExpandingStarts(sp: Space, g: Layer, q: Vec, entry: set<Id>, ef: nat, cand: Cand, m: Moment, done: set<Id>)
    requires cand.id in m.seen && done == {} && Walk(sp, g, q, entry, ef, m.waiting + {cand}, m.kept, m.seen)
    ensures Expanding(sp, g, q, entry, ef, cand, m, done, m)
  {
  }

  lemma ExpandingEnds(sp: Space, g: Layer, q: Vec, entry: set<Id>, ef: nat, cand: Cand, m: Moment, now: Moment)
    requires Expanding(sp, g, q, entry, ef, cand, m, Nbrs(g, cand.id), now)
    ensures Walk(sp, g, q, entry, ef, now.waiting, now.kept, now.seen)
  {
  }

  method SearchLayer(sp: Space, g: Layer, q: Vec, entry: set<Id>, ef: nat)
    returns (result: set<Cand>, visited: set<Id>)
    ensures entry == {} ==> result == {} && visited == {}
    ensures entry != {} ==> SearchOutcome(sp, g, q, entry, ef, result, visited)
  {
    result, visited := {}, {};
    if entry == {} { return; }
    result := sp.Scores(q, entry);
    var candidates, seen := result, entry;
    Seed(sp, g, q, entry, ef);
    ghost var trace, expanded := [Moment(result, result, entry)], [];
    WalkStarts(sp, g, q, entry, ef);
    while candidates != {}
      invariant Tracked(sp, g, q, entry, ef, trace, expanded, candidates, result, seen)
      decreases entry + Nodes(g) - seen, candidates
    {
      var cand := Least(candidates);
      if cand.dist > Greatest(result).dist {
        break;
      }
      candidates, result, seen, trace, expanded :=
        Round(sp, g, q, entry, ef, cand, candidates, result, seen, trace, expanded);
    }
    visited := seen;
    WalkStops(sp, g, q, entry, ef, trace, expanded, candidates, result, seen);
  }

  /** One round of the outer loop. */
  method Round(sp: Space, g: Layer, q: Vec, ghost entry: set<Id>, ef: nat, cand: Cand, candidates0: set<Cand>,
               result0: set<Cand>, seen0: set<Id>, ghost trace0: seq<Moment>, ghost expanded0: seq<Cand>)
    returns (candidates: set<Cand>, result: set<Cand>, seen: set<Id>, ghost trace: seq<Moment>,
             ghost expanded: seq<Cand>)
    requires Tracked(sp, g, q, entry, ef, trace0, expanded0, candidates0, result0, seen0)
    requires candidates0 != {} && cand == Least(candidates0) && cand.dist <= Greatest(result0).dist
    ensures Tracked(sp, g, q, entry, ef, trace, expanded, candidates, result, seen)
    ensures var all := entry + Nodes(g);
      all - seen < all - seen0 || (all - seen == all - seen0 && candidates < candidates0)
  {
    candidates := candidates0 - {cand};
    assert candidates0 == candidates + {cand};
    candidates, result, seen := Expand(sp, g, q, entry, ef, cand, candidates, result0, seen0);
    Progress(entry + Nodes(g), seen0, seen, candidates0, candidates, cand);
    WalkOn(sp, g, q, entry, ef, trace0, expanded0, Moment(candidates0, result0, seen0), cand,
      Moment(candidates, result, seen));
    trace, expanded := trace0 + [Moment(candidates, result, seen)], expanded0 + [cand];
  }

  /** The walk so far, and where it stands. */
  ghost predicate Tracked(sp: Space, g: Layer, q: Vec, entry: set<Id>, ef: nat, trace: seq<Moment>, expanded: seq<Cand>,
                          candidates: set<Cand>, result: set<Cand>, visited: set<Id>)
  {
    && Walk(sp, g, q, entry, ef, candidates, result, visited)
    && IsWalk(sp, g, q, entry, ef, trace, expanded) && trace[|expanded|] == Moment(candidates, result, visited)
  }

  lemma WalkOn(sp: Space, g: Layer, q: Vec, entry: set<Id>, ef: nat, trace: seq<Moment>, expanded: seq<Cand>, m: Moment,
               c: Cand, m': Moment)
    requires Tracked(sp, g, q, entry, ef, trace, expanded, m.waiting, m.kept, m.seen)
    requires m.waiting != {} && c == Least(m.waiting) && c.dist <= Greatest(m.kept).dist
    requires Opens(sp, q, ef, m.(waiting := m.waiting - {c}), Nbrs(g, c.id), m')
    requires Walk(sp, g, q, entry, ef, m'.waiting, m'.kept, m'.seen)
    ensures Tracked(sp, g, q, entry, ef, trace + [m'], expanded + [c], m'.waiting, m'.kept, m'.seen)
  {
    WalkNext(sp, g, q, entry, ef, trace, expanded, c, m');
  }

  lemma WalkStops(sp: Space, g: Layer, q: Vec, entry: set<Id>, ef: nat, trace: seq<Moment>, expanded: seq<Cand>,
                  candidates: set<Cand>, result: set<Cand>, visited: set<Id>)
    requires Tracked(sp, g, q, entry, ef, trace, expanded, candidates, result, visited)
    requires candidates == {} || Least(candidates).dist > Greatest(result).dist
    ensures SearchOutcome(sp, g, q, entry, ef, result, visited)
  {
    if candidates != {} { NothingNearerLeft(g, result, candidates, visited); }
    WalkEnds(sp, g, q, entry, ef, trace, expanded);
  }

  /** Each round visits a new node or leaves one candidate fewer. */
  lemma Progress(all: set<Id>, before: set<Id>, seen: set<Id>, waiting: set<Cand>, candidates: set<Cand>, cand: Cand)
    requires before <= seen <= all && cand in waiting
    requires seen == before ==> candidates == waiting - {cand}
    ensures all - seen < all - before || (all - seen == all - before && candidates < waiting)
  {
  }

  /** When the nearest candidate is beyond the farthest result, every result has been expanded. */
  lemma NothingNearerLeft(g: Layer, result: set<Cand>, candidates: set<Cand>, visited: set<Id>)
    requires result != {} && candidates != {}
    requires Expanded(g, result, candidates, visited)
    requires Least(candidates).dist > Greatest(result).dist
    ensures forall c :: c in result ==> Nbrs(g, c.id) <= visited
  {
  }

  // ----- What a layer search guarantees -----

  /**
   Best first, as the caller sees it: the visited nodes are the entry points and the
   neighbours of the nodes expanded; each node was expanded before all worse ones that had
   been accepted by then, and no farther than the farthest result of the time; and what was
   accepted and not expanded is farther than every result.
  */
  lemma SearchIsBestFirst(sp: Space, g: Layer, q: Vec, entry: set<Id>, ef: nat, result: set<Cand>, visited: set<Id>)
    returns (trace: seq<Moment>, expanded: seq<Cand>)
    requires entry != {} && SearchOutcome(sp, g, q, entry, ef, result, visited)
    ensures IsWalk(sp, g, q, entry, ef, trace, expanded)
    ensures visited == entry + Opened(g, expanded) && trace[|expanded|].kept == result
    ensures forall h, i, j :: 0 <= h <= i < j < |expanded| && expanded[j] in trace[h].waiting ==>
      Leq(expanded[i], expanded[j]) && expanded[i] != expanded[j]
    ensures forall i :: 0 <= i < |expanded| ==>
      trace[i].kept != {} && expanded[i].dist <= Greatest(trace[i].kept).dist
    ensures forall h, c :: 0 <= h <= |expanded| && c in trace[h].waiting ==>
      c in expanded[h..] || forall r :: r in result ==> r.dist < c.dist
  {
    trace, expanded :| IsWalk(sp, g, q, entry, ef, trace, expanded)
      && trace[|expanded|].kept == result && trace[|expanded|].seen == visited && Stops(trace[|expanded|]);
    SeenIsOpened(sp, g, q, entry, ef, trace, expanded, |expanded|);
    assert expanded[..|expanded|] == expanded;
    forall h, i, j | 0 <= h <= i < j < |expanded| && expanded[j] in trace[h].waiting
      ensures Leq(expanded[i], expanded[j]) && expanded[i] != expanded[j]
    {
      BestFirstOrder(sp, g, q, entry, ef, trace, expanded, h, i, j);
    }
    forall i | 0 <= i < |expanded| ensures trace[i].kept != {} && expanded[i].dist <= Greatest(trace[i].kept).dist {
      assert IsRound(sp, g, q, ef, trace[i], expanded[i], trace[i + 1]);
    }
    forall h, c | 0 <= h <= |expanded| && c in trace[h].waiting
      ensures c in expanded[h..] || forall r :: r in result ==> r.dist < c.dist
    {
      TakenOrBeyond(sp, g, q, entry, ef, trace, expanded, h, c);
    }
  }

  /** Local optimality: a neighbour of a returned node that was left out is no nearer than any returned node. */
  lemma LocalOptimum(sp: Space, g: Layer, q: Vec, entry: set<Id>, ef: nat, result: set<Cand>, visited: set<Id>, c: Cand,
                     n: Id, r: Cand)
    requires entry != {} && SearchOutcome(sp, g, q, entry, ef, result, visited)
    requires c in result && n in Nbrs(g, c.id) && sp.Score(q, n) !in result && r in result
    ensures r.dist <= sp.Dist(q, n)
  {
  }

  /** With room for every visited node, the walk returns them all and no edge leaves them. */
  lemma RoomForAll(sp: Space, g: Layer, q: Vec, entry: set<Id>, ef: nat, result: set<Cand>, visited: set<Id>)
    requires entry != {} && SearchOutcome(sp, g, q, entry, ef, result, visited)
    requires |visited| <= Capacity(entry, ef)
    ensures result == sp.Scores(q, visited) && Closed(g, visited)
  {
    forall c | c in result ensures c in sp.Scores(q, visited) {
      assert c == sp.Score(q, c.id);
    }
    forall v | v in visited ensures Nbrs(g, v) <= visited {
      assert sp.Score(q, v) in result;
    }
  }

  /** Completeness: when `ef` covers the reachable nodes, the result is exactly those nodes. */
  lemma Complete(sp: Space, g: Layer, q: Vec, entry: set<Id>, ef: nat, result: set<Cand>, visited: set<Id>)
    requires entry != {} && SearchOutcome(sp, g, q, entry, ef, result, visited)
    requires |Reach(g, entry)| <= ef
    ensures visited == Reach(g, entry) && result == sp.Scores(q, Reach(g, entry))
  {
    WithinIsReach(g, entry, visited);
    SubsetSize(visited, Reach(g, entry));
    RoomForAll(sp, g, q, entry, ef, result, visited);
    ClosedIsReach(g, entry, visited);
  }

  lemma ClosedIsReach(g: Layer, entry: set<Id>, visited: set<Id>)
    requires entry <= visited <= Reach(g, entry) && Closed(g, visited)
    ensures visited == Reach(g, entry)
  {
    forall id | id in Reach(g, entry) ensures id in visited {
      ReachesInside(g, entry, id, visited);
    }
  }

  // ----- Neighbour selection -----

  ghost predicate AllBelow(low: set<Cand>, high: set<Cand>) {
    forall a, b {:trigger Less(a, b)} :: a in low && b in high ==> Less(a, b)
  }

  /** The min(n, |all|) smallest entries of `all`. */
  ghost predicate IsSmallest(chosen: set<Cand>, all: set<Cand>, n: nat) {
    chosen <= all && |chosen| == Min(n, |all|) && AllBelow(chosen, all - chosen)
  }

  /** Moving the least of the rest over keeps the chosen ones below the rest. */
  lemma TakeLeast(chosen: set<Cand>, rest: set<Cand>)
    requires rest != {} && chosen !! rest && AllBelow(chosen, rest)
    ensures AllBelow(chosen + {Least(rest)}, rest - {Least(rest)})
    ensures |chosen + {Least(rest)}| == |chosen| + 1
  {
  }

  /** Algorithm 4 as the program has it: screen the candidates, then backfill. */
  method SelectNeighbors(candidates: set<Cand>, n: nat) returns (chosen: set<Cand>)
    ensures IsSmallest(chosen, candidates, n)
  {
    var discarded;
    chosen, discarded := Screen(candidates, n);
    if |chosen| < n {
      chosen := Backfill(candidates, chosen, discarded, n);
    }
  }

  /**
   The candidates come in ascending order, so the "closer than the nearest chosen"
   test accepts the first one only and discards all the others.
  */
  method Screen(candidates: set<Cand>, n: nat) returns (chosen: set<Cand>, discarded: set<Cand>)
    ensures |chosen| >= n ==> IsSmallest(chosen, candidates, n)
    ensures |chosen| < n ==> chosen !! discarded && chosen + discarded == candidates && AllBelow(chosen, discarded)
    ensures |chosen| <= Min(1, n)
  {
    chosen, discarded := {}, {};
    if candidates == {} { return; }
    ghost var first := Least(candidates);
    ghost var others := candidates - {first};
    var rest := candidates;
    while rest != {} && |chosen| < n
      invariant chosen == {} ==> discarded == {} && rest == candidates
      invariant chosen != {} ==> n > 0 && chosen == {first} && discarded + rest == others
    {
      var element := Least(rest);
      if chosen == {} || element.dist < Least(chosen).dist {
        chosen := chosen + {element};
      } else {
        MoveOver(discarded, rest, element);
        discarded := discarded + {element};
      }
      rest := rest - {element};
    }
    FirstIsSmallest(candidates);
  }

  lemma MoveOver(discarded: set<Cand>, rest: set<Cand>, element: Cand)
    requires element in rest
    ensures (discarded + {element}) + (rest - {element}) == discarded + rest
  {
  }

  lemma FirstIsSmallest(candidates: set<Cand>)
    requires candidates != {}
    ensures AllBelow({Least(candidates)}, candidates - {Least(candidates)})
    ensures IsSmallest({Least(candidates)}, candidates, 1)
  {
  }

  method Backfill(ghost candidates: set<Cand>, chosen0: set<Cand>, discarded: set<Cand>, n: nat)
    returns (chosen: set<Cand>)
    requires chosen0 !! discarded && chosen0 + discarded == candidates
    requires |chosen0| <= n && AllBelow(chosen0, discarded)
    ensures IsSmallest(chosen, candidates, n)
  {
    chosen := chosen0;
    var rest := discarded;
    while rest != {} && |chosen| < n
      invariant chosen !! rest && chosen + rest == candidates
      invariant |chosen| <= n && AllBelow(chosen, rest)
    {
      var element := Least(rest);
      TakeLeast(chosen, rest);
      chosen, rest := chosen + {element}, rest - {element};
    }
    assert candidates - chosen == rest;
    assert |candidates| == |chosen| + |rest|;
  }
}
