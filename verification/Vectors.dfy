/**
 Coordinates are reals: rounding, NaN and infinities are not modelled.
 `SqDist` is the sum that `euclidean::compute` takes the square root of.
*/
module Vectors {

  type Vec = seq<real>

  function Square(x: real): real {
    x * x
  }

  lemma SquareFacts(x: real)
    ensures Square(x) >= 0.0
    ensures Square(x) == 0.0 <==> x == 0.0
  {
    SquareSign(x, x * x);
  }

  lemma SquareSign(x: real, s: real)
    requires s == x * x
    ensures x == 0.0 ==> s == 0.0
    ensures x != 0.0 ==> s > 0.0
  {
    if x == 0.0 {
      ZeroProduct(x, x, s);
    } else {
      SameSignProduct(x, x, s);
    }
  }

  lemma ZeroProduct(x: real, y: real, p: real)
    requires p == x * y && y == 0.0
    ensures p == 0.0
  {
  }

  lemma SameSignProduct(x: real, y: real, p: real)
    requires p == x * y
    requires (x > 0.0 && y > 0.0) || (x < 0.0 && y < 0.0)
    ensures p > 0.0
  {
  }

  /** The squared distance over the first `d` coordinates. */
  function SqDistUpTo(a: Vec, b: Vec, d: nat): (s: real)
    requires d <= |a| && d <= |b|
    ensures s >= 0.0
  {
    if d == 0 then 0.0
    else
      SquareFacts(a[d - 1] - b[d - 1]);
      SqDistUpTo(a, b, d - 1) + Square(a[d - 1] - b[d - 1])
  }

  function SqDist(a: Vec, b: Vec): (s: real)
    requires |a| == |b|
    ensures s >= 0.0
  {
    SqDistUpTo(a, b, |a|)
  }

  lemma {:induction false} SqDistZeroUpTo(a: Vec, b: Vec, d: nat)
    requires d <= |a| && d <= |b|
    ensures SqDistUpTo(a, b, d) == 0.0 <==> a[..d] == b[..d]
  {
    if d > 0 {
      SqDistZeroUpTo(a, b, d - 1);
      SquareFacts(a[d - 1] - b[d - 1]);
      assert a[..d] == a[..d - 1] + [a[d - 1]];
      assert b[..d] == b[..d - 1] + [b[d - 1]];
    }
  }

  /** The distance is zero exactly between equal vectors. */
  lemma SqDistZero(a: Vec, b: Vec)
    requires |a| == |b|
    ensures SqDist(a, b) == 0.0 <==> a == b
  {
    SqDistZeroUpTo(a, b, |a|);
    assert a[..|a|] == a && b[..|a|] == b;
  }

  /** The accumulation loop of `euclidean::compute`, before its square root. */
  method ComputeSquared(a: Vec, b: Vec) returns (distance: real)
    requires |a| == |b|
    ensures distance == SqDist(a, b)
  {
    distance := 0.0;
    for i := 0 to |a|
      invariant distance == SqDistUpTo(a, b, i)
    {
      var diff := a[i] - b[i];
      distance := distance + diff * diff;
    }
  }

  type Metric = (Vec, Vec) -> real

  /** `metric` is the Euclidean distance: the non-negative square root of `SqDist`. */
  ghost predicate IsEuclidean(metric: Metric) {
    forall a, b {:trigger metric(a, b)} :: |a| == |b| ==>
      metric(a, b) >= 0.0 && Square(metric(a, b)) == SqDist(a, b)
  }

  /** Comparing Euclidean distances is comparing their squares. */
  lemma EuclideanOrder(metric: Metric, a: Vec, b: Vec, c: Vec, e: Vec)
    requires IsEuclidean(metric) && |a| == |b| && |c| == |e|
    ensures metric(a, b) < metric(c, e) <==> SqDist(a, b) < SqDist(c, e)
  {
    SquareMonotone(metric(a, b), metric(c, e));
    SquareMonotone(metric(c, e), metric(a, b));
  }

  lemma SquareMonotone(x: real, y: real)
    requires x >= 0.0 && y >= 0.0
    ensures x < y ==> Square(x) < Square(y)
    ensures x == y ==> Square(x) == Square(y)
  {
    if x < y {
      SameSignProduct(y - x, y + x, (y - x) * (y + x));
      assert y * y - x * x == (y - x) * (y + x);
    }
  }
}

/** What an index sees of its collection: the stored vectors and its own distance. */
module Spaces {
  import opened Ranking
  import opened Vectors

  /**
   `farthest` stands for `numeric_limits<double>::max()`, the distance that the
   HNSW index gives to an id without a vector.
  */
  datatype Space = Space(vectors: map<Id, Vec>, metric: Metric, farthest: real) {

    function Dist(q: Vec, id: Id): real {
      if id in vectors then metric(q, vectors[id]) else farthest
    }

    function Score(q: Vec, id: Id): Cand {
      Cand(Dist(q, id), id)
    }

    function Scores(q: Vec, ids: set<Id>): set<Cand> {
      set id | id in ids :: Score(q, id)
    }

    /** The exact answer: the k nearest of the ids in `ids`, best first. */
    function Exact(q: Vec, ids: set<Id>, k: nat): seq<Cand> {
      TopK(multiset(Scores(q, ids)), k)
    }

    lemma ScoresAdd(q: Vec, ids: set<Id>, id: Id)
      requires id !in ids
      ensures Score(q, id) !in Scores(q, ids)
      ensures Scores(q, ids + {id}) == Scores(q, ids) + {Score(q, id)}
      ensures multiset(Scores(q, ids + {id})) == multiset(Scores(q, ids)) + multiset{Score(q, id)}
    {
    }

    lemma {:induction false} ScoresSize(q: Vec, ids: set<Id>)
      ensures |Scores(q, ids)| == |ids|
    {
      if ids == {} {
        assert Scores(q, ids) == {};
      } else {
        var id :| id in ids;
        ScoresSize(q, ids - {id});
        ScoresAdd(q, ids - {id}, id);
        assert (ids - {id}) + {id} == ids;
      }
    }
  }
}
