/** One layer of the graph, and what a best-first walk over it can reach. */
module HnswGraph {
  import opened Ranking

  /** `neighbours_t`: a node without an entry has no neighbours. */
  type Layer = map<Id, set<Id>>

  function Nbrs(g: Layer, id: Id): set<Id> {
    if id in g then g[id] else {}
  }

  ghost function Nodes(g: Layer): set<Id> {
    set a, b | a in g && b in g[a] :: b
  }

  lemma NbrsAreNodes(g: Layer, id: Id)
    ensures Nbrs(g, id) <= Nodes(g)
  {
  }

  ghost predicate Closed(g: Layer, ids: set<Id>) {
    forall a :: a in ids ==> Nbrs(g, a) <= ids
  }

  ghost predicate IsPath(g: Layer, from: set<Id>, p: seq<Id>) {
    p != [] && p[0] in from && forall i :: 0 <= i < |p| - 1 ==> p[i + 1] in Nbrs(g, p[i])
  }

  ghost predicate Reaches(g: Layer, from: set<Id>, id: Id) {
    exists p :: IsPath(g, from, p) && p[|p| - 1] == id
  }

  lemma ReachesSelf(g: Layer, from: set<Id>, id: Id)
    requires id in from
    ensures Reaches(g, from, id)
  {
    assert IsPath(g, from, [id]);
    assert [id][|[id]| - 1] == id;
  }

  lemma ReachesNext(g: Layer, from: set<Id>, a: Id, b: Id)
    requires Reaches(g, from, a) && b in Nbrs(g, a)
    ensures Reaches(g, from, b)
  {
    var p :| IsPath(g, from, p) && p[|p| - 1] == a;
    var longer := p + [b];
    assert IsPath(g, from, longer);
    assert longer[|longer| - 1] == b;
  }

  /** A set that no edge leaves holds everything reachable from inside it. */
  lemma {:induction false} PathStaysInside(g: Layer, from: set<Id>, p: seq<Id>, ids: set<Id>)
    requires IsPath(g, from, p) && from <= ids && Closed(g, ids)
    ensures p[|p| - 1] in ids
    decreases |p|
  {
    if |p| > 1 {
      var shorter := p[..|p| - 1];
      assert IsPath(g, from, shorter);
      PathStaysInside(g, from, shorter, ids);
      assert p[|p| - 1] in Nbrs(g, p[|p| - 2]);
    }
  }

  lemma ReachesInside(g: Layer, from: set<Id>, id: Id, ids: set<Id>)
    requires Reaches(g, from, id) && from <= ids && Closed(g, ids)
    ensures id in ids
  {
    var p :| IsPath(g, from, p) && p[|p| - 1] == id;
    PathStaysInside(g, from, p, ids);
  }

  /** `visited` lies in every set around `from` that no edge leaves. */
  ghost predicate Within(g: Layer, from: set<Id>, visited: set<Id>) {
    forall ids {:trigger Closed(g, ids)} :: from <= ids && Closed(g, ids) ==> visited <= ids
  }

  lemma WithinNext(g: Layer, from: set<Id>, visited: set<Id>, a: Id, b: Id)
    requires Within(g, from, visited) && a in visited && b in Nbrs(g, a)
    ensures Within(g, from, visited + {b})
  {
  }

  /** Everything reachable, as a set. */
  ghost function Reach(g: Layer, from: set<Id>): set<Id> {
    set id | id in from + Nodes(g) && Reaches(g, from, id)
  }

  lemma ReachIsClosed(g: Layer, from: set<Id>)
    ensures from <= Reach(g, from) && Closed(g, Reach(g, from))
  {
    forall id | id in from ensures id in Reach(g, from) { ReachesSelf(g, from, id); }
    forall a, b | a in Reach(g, from) && b in Nbrs(g, a) ensures b in Reach(g, from) {
      ReachesNext(g, from, a, b);
      NbrsAreNodes(g, a);
    }
  }

  /** The closed-set view and the path view of reachability agree. */
  lemma WithinIsReach(g: Layer, from: set<Id>, visited: set<Id>)
    ensures Within(g, from, visited) <==> visited <= Reach(g, from)
  {
    if Within(g, from, visited) {
      ReachIsClosed(g, from);
    }
    if visited <= Reach(g, from) {
      forall ids | from <= ids && Closed(g, ids) ensures visited <= ids {
        forall v | v in visited ensures v in ids {
          assert v in Reach(g, from);
          ReachesInside(g, from, v, ids);
        }
      }
    }
  }
}
