/** How `index::insert` of `indices/hnsw.cpp` changes one layer of the graph. */
module HnswLink {
  import opened Ranking
  import opened Vectors
  import opened Spaces
  import opened HnswGraph
  import opened HnswWalk
  import opened HnswSearch

  // ----- Invariants of one layer -----

  /** Edges join distinct members, and no member has more than `m` neighbours. */
  ghost predicate LayerOk(g: Layer, members: set<Id>, m: nat) {
    forall a {:trigger Nbrs(g, a)} ::
      && Nbrs(g, a) <= members - {a}
      && |Nbrs(g, a)| <= m
      && (Nbrs(g, a) != {} ==> a in members)
  }

  /** From any member the whole membership can be reached: no edge leaves no smaller part. */
  ghost predicate Connected(g: Layer, members: set<Id>) {
    forall ids {:trigger Closed(g, ids)} :: Closed(g, ids) && ids * members != {} ==> members <= ids
  }

  /** Every member is a neighbour of every other. */
  ghost predicate CompleteOn(g: Layer, members: set<Id>) {
    forall a, b :: a in members && b in members && a != b ==> b in Nbrs(g, a)
  }

  /** Every link is answered by one the other way. */
  ghost predicate Mutual(g: Layer) {
    forall a, b :: b in Nbrs(g, a) ==> a in Nbrs(g, b)
  }

  // ----- What linking and shrinking mean -----

  /** `after` is `before` with `id` linked both ways to every node of `selected`. */
  ghost predicate Linked(before: Layer, after: Layer, id: Id, selected: set<Id>) {
    forall x {:trigger Nbrs(after, x)} :: Nbrs(after, x) ==
      Nbrs(before, x) + (if x == id then selected else {}) + (if x in selected then {id} else {})
  }

  ghost predicate IsSmallestIds(kept: set<Id>, all: set<Id>, m: nat) {
    && kept <= all
    && |kept| == Min(m, |all|)
    && forall a, b :: a in kept && b in all - kept ==> a < b
  }

  /** An overfull node that is linked to itself: the loop would replace the set that it iterates over. */
  predicate ShrinksItself(g: Layer, id: Id, m: nat) {
    id in Nbrs(g, id) && |Nbrs(g, id)| > m
  }

  /**
   Neighbours of `id` with more than `m` links keep those to the m smallest ids; nothing
   else changes. What comes of a node that shrinks itself is left open.
  */
  ghost predicate Shrunk(before: Layer, after: Layer, id: Id, m: nat) {
    ShrinksItself(before, id, m) || ShrunkAt(before, after, Nbrs(before, id), m)
  }

  ghost predicate ShrunkAt(before: Layer, after: Layer, ids: set<Id>, m: nat) {
    forall x {:trigger Nbrs(after, x)} ::
      if x in ids && |Nbrs(before, x)| > m
      then IsSmallestIds(Nbrs(after, x), Nbrs(before, x), m)
      else Nbrs(after, x) == Nbrs(before, x)
  }

  /** Lines 220-224. */
  method LinkAll(g: Layer, id: Id, selected: set<Id>) returns (g': Layer)
    ensures Linked(g, g', id, selected)
  {
    g' := g;
    var rest := selected;
    while rest != {}
      invariant rest <= selected
      invariant Linked(g, g', id, selected - rest)
    {
      var n :| n in rest;
      ghost var before := g';
      g' := g'[id := Nbrs(g', id) + {n}];
      g' := g'[n := Nbrs(g', n) + {id}];
      LinkStep(g, before, g', id, selected - rest, n);
      assert selected - (rest - {n}) == (selected - rest) + {n};
      rest := rest - {n};
    }
  }

  lemma LinkStep(g: Layer, before: Layer, after: Layer, id: Id, done: set<Id>, n: Id)
    requires Linked(g, before, id, done)
    requires var mid := before[id := Nbrs(before, id) + {n}]; after == mid[n := Nbrs(mid, n) + {id}]
    ensures Linked(g, after, id, done + {n})
  {
    forall x ensures Nbrs(after, x) ==
      Nbrs(g, x) + (if x == id then done + {n} else {}) + (if x in done + {n} then {id} else {})
    {
      var old' := Nbrs(before, x);
    }
  }

  /** Lines 229-253: every neighbour is ranked with the one distance between `id` and `node`. */
  method ShrinkOne(sp: Space, id: Id, node: Id, links: set<Id>, m: nat) returns (kept: set<Id>)
    ensures IsSmallestIds(kept, links, m)
  {
    var d := if node in sp.vectors && id in sp.vectors then sp.metric(sp.vectors[id], sp.vectors[node])
      else sp.farthest;
    var candidates := set n | n in links :: Cand(d, n);
    SameDistSize(links, d);
    var chosen := SelectNeighbors(candidates, m);
    kept := set c | c in chosen :: c.id;
    assert chosen == set n | n in kept :: Cand(d, n);
    SameDistSize(kept, d);
    forall a, b | a in kept && b in links - kept ensures a < b {
      assert Cand(d, a) in chosen && Cand(d, b) in candidates - chosen;
      assert Less(Cand(d, a), Cand(d, b));
    }
  }

  lemma {:induction false} SameDistSize(ids: set<Id>, d: real)
    ensures |set n | n in ids :: Cand(d, n)| == |ids|
  {
    if ids != {} {
      var x :| x in ids;
      SameDistSize(ids - {x}, d);
      assert (set n | n in ids :: Cand(d, n)) == (set n | n in ids - {x} :: Cand(d, n)) + {Cand(d, x)};
    }
  }

  /** Lines 227-254. */
  method ShrinkAll(sp: Space, g: Layer, id: Id, m: nat) returns (g': Layer)
    ensures Shrunk(g, g', id, m)
  {
    if ShrinksItself(g, id, m) {
      g' := *;
      return;
    }
    g' := g;
    var rest := Nbrs(g, id);
    while rest != {}
      invariant rest <= Nbrs(g, id)
      invariant ShrunkAt(g, g', Nbrs(g, id) - rest, m)
    {
      var n :| n in rest;
      ghost var before := g';
      if |Nbrs(g', n)| > m {
        var kept := ShrinkOne(sp, id, n, Nbrs(g', n), m);
        g' := g'[n := kept];
      }
      ShrinkStep(g, before, g', Nbrs(g, id) - rest, n, m);
      assert Nbrs(g, id) - (rest - {n}) == (Nbrs(g, id) - rest) + {n};
      rest := rest - {n};
    }
  }

  lemma ShrinkStep(g: Layer, before: Layer, after: Layer, done: set<Id>, n: Id, m: nat)
    requires ShrunkAt(g, before, done, m) && n !in done
    requires after == if |Nbrs(before, n)| > m then before[n := Nbrs(after, n)] else before
    requires |Nbrs(before, n)| > m ==> IsSmallestIds(Nbrs(after, n), Nbrs(before, n), m)
    ensures ShrunkAt(g, after, done + {n}, m)
  {
    assert Nbrs(before, n) == Nbrs(g, n);
    forall x | x != n ensures Nbrs(after, x) == Nbrs(before, x) {}
  }

  /** Lines 281-285: `id` is taken from its own neighbours only, then its entry goes. */
  ghost predicate Unlinked(before: Layer, after: Layer, id: Id) {
    forall x {:trigger Nbrs(after, x)} :: Nbrs(after, x) ==
      if x == id then {} else Nbrs(before, x) - (if x in Nbrs(before, id) then {id} else {})
  }

  /** For a node that is not linked to itself: otherwise the loop would erase from the set that it iterates over. */
  method Unlink(g: Layer, id: Id) returns (g': Layer)
    requires id !in Nbrs(g, id)
    ensures Unlinked(g, g', id)
  {
    g' := g;
    var rest := Nbrs(g, id);
    while rest != {}
      invariant rest <= Nbrs(g, id)
      invariant forall x {:trigger Nbrs(g', x)} ::
        Nbrs(g', x) == Nbrs(g, x) - (if x in Nbrs(g, id) - rest then {id} else {})
    {
      var nb :| nb in rest;
      rest := rest - {nb};
      ghost var before := g';
      g' := g'[nb := Nbrs(g', nb) - {id}];
      forall x ensures Nbrs(g', x) == Nbrs(g, x) - (if x in Nbrs(g, id) - rest then {id} else {}) {
        assert Nbrs(before, x) <= Nbrs(g, x);
      }
    }
    ghost var before := g';
    g' := g' - {id};
    forall x | x != id ensures Nbrs(g', x) == Nbrs(before, x) {}
  }

  /** Unlinking leaves no trace of `id` exactly when every node pointing at it is pointed back at. */
  lemma NoTraceIffMutual(g: Layer, g': Layer, id: Id)
    requires Unlinked(g, g', id)
    ensures (forall x :: id !in Nbrs(g', x)) <==> (forall x :: x != id && id in Nbrs(g, x) ==> x in Nbrs(g, id))
  {
    if forall x :: id !in Nbrs(g', x) {
      forall x | x != id && id in Nbrs(g, x) ensures x in Nbrs(g, id) {
        assert id !in Nbrs(g', x);
      }
    }
  }

  /** No link to the node is left, and the others stay. */
  ghost predicate CleanlyUnlinked(before: Layer, after: Layer, id: Id) {
    forall x {:trigger Nbrs(after, x)} :: Nbrs(after, x) == if x == id then {} else Nbrs(before, x) - {id}
  }

  /**
   On a mutual layer a removal is clean, the layer stays mutual, and the rest of a
   complete layer is complete.
  */
  lemma UnlinkedKeeps(g: Layer, g': Layer, members: set<Id>, id: Id, m: nat)
    requires Mutual(g) && LayerOk(g, members, m) && Unlinked(g, g', id)
    ensures CleanlyUnlinked(g, g', id)
    ensures Mutual(g') && LayerOk(g', members - {id}, m)
    ensures CompleteOn(g, members) ==> CompleteOn(g', members - {id})
  {
    NoTraceIffMutual(g, g', id);
    CleanStaysOk(g, g', members, id, m);
    CleanStaysMutual(g, g', id);
    if CompleteOn(g, members) { CleanStaysComplete(g, g', members, id); }
  }

  lemma CleanStaysOk(g: Layer, g': Layer, members: set<Id>, id: Id, m: nat)
    requires LayerOk(g, members, m) && CleanlyUnlinked(g, g', id)
    ensures LayerOk(g', members - {id}, m)
  {
    forall x
      ensures Nbrs(g', x) <= members - {id} - {x} && |Nbrs(g', x)| <= m
      ensures Nbrs(g', x) != {} ==> x in members - {id}
    {
      assert Nbrs(g, x) <= members - {x} && |Nbrs(g, x)| <= m;
      SubsetSize(Nbrs(g', x), Nbrs(g, x));
    }
  }

  lemma CleanStaysMutual(g: Layer, g': Layer, id: Id)
    requires Mutual(g) && CleanlyUnlinked(g, g', id)
    ensures Mutual(g')
  {
  }

  lemma CleanStaysComplete(g: Layer, g': Layer, members: set<Id>, id: Id)
    requires CompleteOn(g, members) && CleanlyUnlinked(g, g', id)
    ensures CompleteOn(g', members - {id})
  {
  }

  /**
   Shrinking makes links one-way, and a removal then leaves them dangling. Where `m` + 1
   nodes are all linked with one another, a node with a larger id loses every link to it
   again, and keeps its own: removing any node that it points at leaves it pointing there.
  */
  lemma OneWayLink(g: Layer, g1: Layer, g2: Layer, members: set<Id>, id: Id, selected: set<Id>, m: nat)
    requires LayerOk(g, members, m) && CompleteOn(g, members) && |members| == m + 1
    requires selected <= members && forall x :: x in members ==> x < id
    requires Linked(g, g1, id, selected) && Shrunk(g1, g2, id, m)
    ensures Nbrs(g2, id) == selected && forall x :: id !in Nbrs(g2, x)
    ensures forall t, g3 :: t in selected && Unlinked(g2, g3, t) ==> t in Nbrs(g3, id)
  {
    assert Nbrs(g, id) == {} && Nbrs(g1, id) == selected;
    forall x ensures id !in Nbrs(g2, x) {
      assert id !in Nbrs(g, x);
      if x in selected {
        OthersLinked(g, members, x, m);
        assert Nbrs(g1, x) == members - {x} + {id};
        LargestIsDropped(Nbrs(g2, x), members - {x}, id, m);
      }
    }
  }

  lemma OthersLinked(g: Layer, members: set<Id>, x: Id, m: nat)
    requires LayerOk(g, members, m) && CompleteOn(g, members) && x in members && |members| == m + 1
    ensures Nbrs(g, x) == members - {x} && |Nbrs(g, x)| == m
  {
  }

  lemma LargestIsDropped(kept: set<Id>, others: set<Id>, id: Id, m: nat)
    requires |others| == m && (forall x :: x in others ==> x < id)
    requires IsSmallestIds(kept, others + {id}, m)
    ensures id !in kept
  {
    if id in kept {
      forall x | x in others ensures x in kept {
        assert x !in kept ==> x in others + {id} - kept;
      }
      SubsetSize(others + {id}, kept);
    }
  }

  // ----- What linking and shrinking keep -----

  /** Linking both ways keeps a layer mutual. */
  lemma StaysMutual(g: Layer, g': Layer, id: Id, selected: set<Id>)
    requires Mutual(g) && Linked(g, g', id, selected)
    ensures Mutual(g')
  {
  }

  lemma LayerStaysOk(g: Layer, g1: Layer, g2: Layer, members: set<Id>, id: Id, selected: set<Id>, m: nat)
    requires LayerOk(g, members, m) && id !in members
    requires selected <= members && |selected| <= m
    requires Linked(g, g1, id, selected) && Shrunk(g1, g2, id, m)
    ensures LayerOk(g2, members + {id}, m)
  {
    assert Nbrs(g, id) == {};
    assert Nbrs(g1, id) == selected;
    forall x
      ensures Nbrs(g2, x) <= members + {id} - {x} && |Nbrs(g2, x)| <= m && (Nbrs(g2, x) != {} ==> x in members + {id})
    {
      assert Nbrs(g, x) <= members - {x};
      assert Nbrs(g1, x) <= members + {id} - {x};
      if x != id && x !in selected {
        assert Nbrs(g1, x) == Nbrs(g, x);
      }
    }
  }

  /** With at most `m` members so far, no shrink fires. */
  lemma NoShrink(g: Layer, g1: Layer, g2: Layer, members: set<Id>, id: Id, selected: set<Id>, m: nat)
    requires LayerOk(g, members, m) && id !in members && |members| <= m
    requires selected <= members
    requires Linked(g, g1, id, selected) && Shrunk(g1, g2, id, m)
    ensures forall x {:trigger Nbrs(g2, x)} :: Nbrs(g2, x) == Nbrs(g1, x)
    ensures Linked(g, g2, id, selected)
  {
    assert Nbrs(g, id) == {};
    assert Nbrs(g1, id) == selected;
    forall x ensures Nbrs(g2, x) == Nbrs(g1, x) {
      if x in selected {
        assert Nbrs(g, x) <= members - {x};
        SubsetSize(Nbrs(g1, x), (members - {x}) + {id});
      }
    }
  }

  /** A node linked both ways to some member joins the connected part. */
  lemma StaysConnected(g: Layer, g': Layer, members: set<Id>, id: Id, selected: set<Id>)
    requires Connected(g, members) && selected <= members && selected != {}
    requires Linked(g, g', id, selected)
    ensures Connected(g', members + {id})
  {
    forall ids | Closed(g', ids) && ids * (members + {id}) != {} ensures members + {id} <= ids {
      forall a | a in ids ensures Nbrs(g, a) <= ids {
        assert Nbrs(g', a) <= ids;
      }
      assert Closed(g, ids);
      if id in ids {
        assert selected <= Nbrs(g', id);
      }
      var s :| s in selected;
      assert ids * members != {} by {
        if id in ids { assert s in ids * members; }
      }
      assert id in Nbrs(g', s);
    }
  }

  lemma StaysComplete(g: Layer, g': Layer, members: set<Id>, id: Id)
    requires CompleteOn(g, members)
    requires Linked(g, g', id, members)
    ensures CompleteOn(g', members + {id})
  {
  }

  /** A walk that starts inside the membership stays inside, and a connected layer is walked completely. */
  lemma WalkOverLayer(sp: Space, g: Layer, q: Vec, ep: set<Id>, ef: nat, result: set<Cand>, visited: set<Id>,
                      members: set<Id>, m: nat)
    requires ep != {} && ep <= members && LayerOk(g, members, m)
    requires SearchOutcome(sp, g, q, ep, ef, result, visited)
    ensures result != {} && visited <= members && forall c :: c in result ==> c.id in members
    ensures Connected(g, members) && |members| <= Capacity(ep, ef) ==>
      result == sp.Scores(q, members)
  {
    assert Closed(g, members);
    if Connected(g, members) && |members| <= Capacity(ep, ef) {
      SubsetSize(visited, members);
      RoomForAll(sp, g, q, ep, ef, result, visited);
      var e :| e in ep;
      assert e in visited * members;
    }
  }

  // ----- One layer of an insertion -----

  function Ids(cands: set<Cand>): set<Id> {
    set c | c in cands :: c.id
  }

  /** What rewiring keeps of a layer over `members`. */
  ghost predicate ConnectOk(g: Layer, g': Layer, members: set<Id>, id: Id, ep: set<Id>, ep': set<Id>, ef: nat, m: nat) {
    LayerOk(g, members, m) && ep <= members && id !in members ==>
      && ep' <= members
      && LayerOk(g', members + {id}, m)
      && (|members| <= m && Mutual(g) ==> Mutual(g'))
      && (|members| <= m && Connected(g, members) ==> Connected(g', members + {id}))
      && (|members| <= m && |members| <= ef && Connected(g, members) && CompleteOn(g, members) ==>
            CompleteOn(g', members + {id}))
  }

  /**
   `g'` is `g` with `id` linked to the nearest of the nodes that a search from `ep`
   finds, and overfull neighbours shrunk; `found` are all the nodes found.
  */
  ghost predicate Rewired(sp: Space, g: Layer, g': Layer, q: Vec, id: Id, ep: set<Id>, found: set<Id>, ef: nat, m: nat)
    requires ep != {}
  {
    exists candidates, visited, selected, g1 ::
      && SearchOutcome(sp, g, q, ep, ef, candidates, visited)
      && IsSmallest(selected, candidates, m)
      && Linked(g, g1, id, Ids(selected)) && Shrunk(g1, g', id, m)
      && found == Ids(candidates)
  }

  /**
   Lines 215-262: search the layer, select, link both ways, shrink, and hand the
   found candidates down as the entry points of the next layer.
  */
  method Connect(sp: Space, g: Layer, q: Vec, id: Id, ep: set<Id>, ef: nat, m: nat, ghost members: set<Id>)
    returns (g': Layer, ep': set<Id>)
    requires ep != {}
    ensures ep' != {}
    ensures Rewired(sp, g, g', q, id, ep, ep', ef, m)
    ensures ConnectOk(g, g', members, id, ep, ep', ef, m)
  {
    var candidates, visited := SearchLayer(sp, g, q, ep, ef);
    var selected := SelectNeighbors(candidates, m);
    var g1 := LinkAll(g, id, Ids(selected));
    g' := ShrinkAll(sp, g1, id, m);
    ep' := Ids(candidates);
    ConnectKeeps(sp, g, g1, g', q, id, ep, ef, m, members, candidates, visited, selected);
  }

  /** What a search reports of the nodes it has seen, by their ids: the `cap` nearest, or all of them. */
  ghost predicate NearestSeen(sp: Space, q: Vec, cap: nat, found: set<Id>, visited: set<Id>) {
    && found <= visited && |found| == Min(cap, |visited|)
    && forall v, f :: v in visited - found && f in found ==> sp.Dist(q, f) <= sp.Dist(q, v)
  }

  lemma {:induction false} IdsCount(sp: Space, q: Vec, cands: set<Cand>)
    requires forall c :: c in cands ==> c == sp.Score(q, c.id)
    ensures |Ids(cands)| == |cands| && forall id :: id in Ids(cands) <==> sp.Score(q, id) in cands
  {
    if cands != {} {
      var c :| c in cands;
      IdsCount(sp, q, cands - {c});
      assert Ids(cands) == Ids(cands - {c}) + {c.id};
      assert c.id !in Ids(cands - {c});
    }
  }

  lemma FoundIsNearest(sp: Space, g: Layer, q: Vec, ep: set<Id>, ef: nat, candidates: set<Cand>, visited: set<Id>)
    requires SearchOutcome(sp, g, q, ep, ef, candidates, visited)
    ensures ep <= visited && NearestSeen(sp, q, Max(ef, |ep|), Ids(candidates), visited)
  {
    IdsCount(sp, q, candidates);
    forall v, f | v in visited - Ids(candidates) && f in Ids(candidates) ensures sp.Dist(q, f) <= sp.Dist(q, v) {
      assert sp.Score(q, v) !in candidates && Leq(sp.Score(q, f), Greatest(candidates));
    }
  }

  /** The new node gets links to the `m` nearest of what was found, best first and ties by id. */
  ghost predicate LinkedToNearest(sp: Space, q: Vec, links: set<Id>, found: set<Id>, m: nat) {
    && links <= found && |links| == Min(m, |found|)
    && forall a, b {:trigger sp.Dist(q, a), sp.Dist(q, b)} :: a in links && b in found - links ==>
         sp.Dist(q, a) < sp.Dist(q, b) || (sp.Dist(q, a) == sp.Dist(q, b) && a < b)
  }

  /** Each of them gets a link back, and drops those to the largest ids once it has more than `m`. */
  ghost predicate LinkedBack(before: set<Id>, after: set<Id>, id: Id, m: nat) {
    if |before + {id}| <= m then after == before + {id}
    else
      && after <= before + {id} && |after| == m
      && forall a, b :: a in after && b in before + {id} - after ==> a < b
  }

  lemma ChosenAreNearest(sp: Space, q: Vec, candidates: set<Cand>, selected: set<Cand>, m: nat)
    requires IsSmallest(selected, candidates, m) && forall c :: c in candidates ==> c == sp.Score(q, c.id)
    ensures LinkedToNearest(sp, q, Ids(selected), Ids(candidates), m)
  {
    IdsCount(sp, q, candidates);
    IdsCount(sp, q, selected);
    forall a, b {:trigger sp.Dist(q, a), sp.Dist(q, b)} | a in Ids(selected) && b in Ids(candidates) - Ids(selected)
      ensures sp.Dist(q, a) < sp.Dist(q, b) || (sp.Dist(q, a) == sp.Dist(q, b) && a < b)
    {
      assert Less(sp.Score(q, a), sp.Score(q, b));
    }
  }

  lemma LinksAfter(g: Layer, g1: Layer, g': Layer, id: Id, selected: set<Id>, m: nat)
    requires Linked(g, g1, id, selected) && Shrunk(g1, g', id, m)
    requires Nbrs(g, id) == {} && id !in selected
    ensures Nbrs(g', id) == selected
    ensures forall x :: x in selected ==> LinkedBack(Nbrs(g, x), Nbrs(g', x), id, m)
    ensures forall x :: x != id && x !in selected ==> Nbrs(g', x) == Nbrs(g, x)
  {
    assert Nbrs(g1, id) == selected;
    forall x | x in selected ensures LinkedBack(Nbrs(g, x), Nbrs(g', x), id, m) {
      assert Nbrs(g1, x) == Nbrs(g, x) + {id};
    }
    forall x | x != id && x !in selected ensures Nbrs(g', x) == Nbrs(g, x) { assert Nbrs(g1, x) == Nbrs(g, x); }
  }

  /** The links that an insertion makes on one layer, of a node that had none and was not found itself. */
  lemma NewNodeLinks(sp: Space, g: Layer, g': Layer, q: Vec, id: Id, ep: set<Id>, found: set<Id>, ef: nat, m: nat)
    requires ep != {} && Rewired(sp, g, g', q, id, ep, found, ef, m)
    requires Nbrs(g, id) == {} && id !in found
    ensures exists visited :: ep <= visited && NearestSeen(sp, q, Max(ef, |ep|), found, visited)
    ensures LinkedToNearest(sp, q, Nbrs(g', id), found, m)
    ensures forall x :: x in Nbrs(g', id) ==> LinkedBack(Nbrs(g, x), Nbrs(g', x), id, m)
    ensures forall x :: x != id && x !in Nbrs(g', id) ==> Nbrs(g', x) == Nbrs(g, x)
  {
    var candidates, visited, selected, g1 :|
      && SearchOutcome(sp, g, q, ep, ef, candidates, visited)
      && IsSmallest(selected, candidates, m)
      && Linked(g, g1, id, Ids(selected)) && Shrunk(g1, g', id, m)
      && found == Ids(candidates);
    FoundIsNearest(sp, g, q, ep, ef, candidates, visited);
    ChosenAreNearest(sp, q, candidates, selected, m);
    LinksAfter(g, g1, g', id, Ids(selected), m);
  }

  lemma {:induction false} IdsSize(cands: set<Cand>)
    ensures |Ids(cands)| <= |cands|
  {
    if cands != {} {
      var c :| c in cands;
      IdsSize(cands - {c});
      assert Ids(cands) == Ids(cands - {c}) + {c.id};
    }
  }

  lemma AllSelected(sp: Space, q: Vec, candidates: set<Cand>, selected: set<Cand>, members: set<Id>, m: nat)
    requires candidates == sp.Scores(q, members) && |members| <= m
    requires IsSmallest(selected, candidates, m)
    ensures Ids(selected) == members
  {
    sp.ScoresSize(q, members);
    SameSize(selected, candidates);
    forall id | id in members ensures id in Ids(selected) {
      assert sp.Score(q, id) in candidates;
    }
  }

  lemma ConnectKeeps(sp: Space, g: Layer, g1: Layer, g': Layer, q: Vec, id: Id, ep: set<Id>, ef: nat, m: nat,
                     members: set<Id>, candidates: set<Cand>, visited: set<Id>, selected: set<Cand>)
    requires ep != {} && SearchOutcome(sp, g, q, ep, ef, candidates, visited)
    requires IsSmallest(selected, candidates, m)
    requires Linked(g, g1, id, Ids(selected)) && Shrunk(g1, g', id, m)
    ensures Ids(candidates) != {}
    ensures ConnectOk(g, g', members, id, ep, Ids(candidates), ef, m)
  {
    var c := Greatest(candidates);
    assert c.id in Ids(candidates);
    if LayerOk(g, members, m) && ep <= members && id !in members {
      WalkOverLayer(sp, g, q, ep, ef, candidates, visited, members, m);
      IdsSize(selected);
      LayerStaysOk(g, g1, g', members, id, Ids(selected), m);
      if |members| <= m {
        NoShrink(g, g1, g', members, id, Ids(selected), m);
        if Mutual(g) { StaysMutual(g, g', id, Ids(selected)); }
      }
      if |members| <= m && Connected(g, members) {
        assert selected != {};
        var s :| s in selected;
        assert s.id in Ids(selected);
        StaysConnected(g, g', members, id, Ids(selected));
        if |members| <= ef && CompleteOn(g, members) {
          AllSelected(sp, q, candidates, selected, members, m);
          StaysComplete(g, g', members, id);
        }
      }
    }
  }
}
