/** The within-cluster sum of squares, and how assigning and averaging change it. */
module Inertia {
  import opened Vectors

  // ----- One coordinate of a cluster -----

  function Sum(xs: seq<real>): real
    decreases |xs|
  {
    if xs == [] then 0.0 else Sum(xs[..|xs| - 1]) + xs[|xs| - 1]
  }

  /** `x` added up `n` times. */
  function Scale(n: nat, x: real): (s: real)
    ensures x >= 0.0 ==> s >= 0.0
    ensures x > 0.0 && n > 0 ==> s > 0.0
  {
    if n == 0 then 0.0 else Scale(n - 1, x) + x
  }

  function Product(x: real, y: real): real {
    x * y
  }

  ghost function Deviation(xs: seq<real>, m: real): real
    decreases |xs|
  {
    if xs == [] then 0.0 else Deviation(xs[..|xs| - 1], m) + (xs[|xs| - 1] - m)
  }

  ghost function WeightedDeviation(xs: seq<real>, m: real, w: real): real
    decreases |xs|
  {
    if xs == [] then 0.0 else WeightedDeviation(xs[..|xs| - 1], m, w) + Product(w, xs[|xs| - 1] - m)
  }

  ghost function CoordCost(xs: seq<real>, c: real): real
    decreases |xs|
  {
    if xs == [] then 0.0 else CoordCost(xs[..|xs| - 1], c) + Square(xs[|xs| - 1] - c)
  }

  lemma Distribute(w: real, x: real, y: real)
    ensures Product(w, x + y) == Product(w, x) + Product(w, y)
  {
  }

  lemma ExpandAround(x: real, c: real, m: real)
    ensures Square(x - c) == Square(x - m) + Square(c - m) + Product(2.0 * (m - c), x - m)
  {
  }

  lemma {:induction false} PullOutWeight(xs: seq<real>, m: real, w: real)
    ensures WeightedDeviation(xs, m, w) == Product(w, Deviation(xs, m))
    decreases |xs|
  {
    if xs == [] {
      assert Product(w, 0.0) == 0.0;
    } else {
      PullOutWeight(xs[..|xs| - 1], m, w);
      Distribute(w, Deviation(xs[..|xs| - 1], m), xs[|xs| - 1] - m);
    }
  }

  lemma {:induction false} ExpandAll(xs: seq<real>, c: real, m: real)
    ensures CoordCost(xs, c) ==
      CoordCost(xs, m) + Scale(|xs|, Square(c - m)) + WeightedDeviation(xs, m, 2.0 * (m - c))
    decreases |xs|
  {
    if xs != [] {
      ExpandAll(xs[..|xs| - 1], c, m);
      ExpandAround(xs[|xs| - 1], c, m);
    }
  }

  lemma {:induction false} DeviationIsDifference(xs: seq<real>, m: real)
    ensures Deviation(xs, m) == Sum(xs) - Scale(|xs|, m)
    decreases |xs|
  {
    if xs != [] { DeviationIsDifference(xs[..|xs| - 1], m); }
  }

  /** In one coordinate, leaving the mean costs the squared shift once per point. */
  lemma CoordAxis(xs: seq<real>, c: real, m: real)
    requires Sum(xs) == Scale(|xs|, m)
    ensures CoordCost(xs, c) == CoordCost(xs, m) + Scale(|xs|, Square(c - m))
  {
    ExpandAll(xs, c, m);
    PullOutWeight(xs, m, 2.0 * (m - c));
    DeviationIsDifference(xs, m);
  }

  lemma {:induction false} ScaleIsProduct(n: nat, x: real, nx: real)
    requires nx == (n as real) * x
    ensures Scale(n, x) == nx
  {
    if n > 0 {
      ScaleIsProduct(n - 1, x, ((n - 1) as real) * x);
      assert (n as real) * x == ((n - 1) as real) * x + x;
    }
  }

  lemma {:induction false} ScaleAdd(n: nat, x: real, y: real)
    ensures Scale(n, x + y) == Scale(n, x) + Scale(n, y)
  {
    if n > 0 { ScaleAdd(n - 1, x, y); }
  }

  // ----- A cluster -----

  ghost predicate SameDim(xs: seq<Vec>, dim: nat) {
    forall i :: 0 <= i < |xs| ==> |xs[i]| == dim
  }

  function Column(pts: seq<Vec>, d: nat, dim: nat): seq<real>
    requires SameDim(pts, dim) && d < dim
  {
    seq(|pts|, i requires 0 <= i < |pts| => pts[i][d])
  }

  /** `c` is the mean of the points, coordinate by coordinate. */
  ghost predicate IsMean(c: Vec, pts: seq<Vec>, dim: nat)
    requires SameDim(pts, dim)
  {
    |c| == dim && forall d :: 0 <= d < dim ==> Sum(Column(pts, d, dim)) == Scale(|pts|, c[d])
  }

  /** Squared distances of the points to `c`, over the first `d` coordinates. */
  ghost function CostUpTo(pts: seq<Vec>, c: Vec, d: nat, dim: nat): real
    requires SameDim(pts, dim) && |c| == dim && d <= dim
    decreases |pts|
  {
    if pts == [] then 0.0
    else CostUpTo(pts[..|pts| - 1], c, d, dim) + SqDistUpTo(pts[|pts| - 1], c, d)
  }

  lemma {:induction false} CostByCoordinate(pts: seq<Vec>, c: Vec, d: nat, dim: nat)
    requires SameDim(pts, dim) && |c| == dim && d < dim
    ensures CostUpTo(pts, c, d + 1, dim) == CostUpTo(pts, c, d, dim) + CoordCost(Column(pts, d, dim), c[d])
    decreases |pts|
  {
    if pts != [] {
      CostByCoordinate(pts[..|pts| - 1], c, d, dim);
      assert Column(pts, d, dim)[..|pts| - 1] == Column(pts[..|pts| - 1], d, dim);
    }
  }

  lemma {:induction false} CostOfNoCoordinates(pts: seq<Vec>, c: Vec, dim: nat)
    requires SameDim(pts, dim) && |c| == dim
    ensures CostUpTo(pts, c, 0, dim) == 0.0
    decreases |pts|
  {
    if pts != [] { CostOfNoCoordinates(pts[..|pts| - 1], c, dim); }
  }

  /** The parallel-axis identity for the first `d` coordinates. */
  lemma {:induction false} ParallelAxis(pts: seq<Vec>, c: Vec, m: Vec, d: nat, dim: nat)
    requires SameDim(pts, dim) && |c| == dim && d <= dim && IsMean(m, pts, dim)
    ensures CostUpTo(pts, c, d, dim) == CostUpTo(pts, m, d, dim) + Scale(|pts|, SqDistUpTo(c, m, d))
    decreases d
  {
    if d == 0 {
      CostOfNoCoordinates(pts, c, dim);
      CostOfNoCoordinates(pts, m, dim);
      ScaleZero(|pts|);
    } else {
      ParallelAxis(pts, c, m, d - 1, dim);
      AxisStep(pts, c, m, d - 1, dim);
    }
  }

  lemma AxisStep(pts: seq<Vec>, c: Vec, m: Vec, d: nat, dim: nat)
    requires SameDim(pts, dim) && |c| == |m| == dim && d < dim
    requires Sum(Column(pts, d, dim)) == Scale(|pts|, m[d])
    requires CostUpTo(pts, c, d, dim) == CostUpTo(pts, m, d, dim) + Scale(|pts|, SqDistUpTo(c, m, d))
    ensures CostUpTo(pts, c, d + 1, dim) == CostUpTo(pts, m, d + 1, dim) + Scale(|pts|, SqDistUpTo(c, m, d + 1))
  {
    CostByCoordinate(pts, c, d, dim);
    CostByCoordinate(pts, m, d, dim);
    CoordAxis(Column(pts, d, dim), c[d], m[d]);
    ScaleAdd(|pts|, SqDistUpTo(c, m, d), Square(c[d] - m[d]));
  }

  lemma {:induction false} ScaleZero(n: nat)
    ensures Scale(n, 0.0) == 0.0
  {
    if n > 0 { ScaleZero(n - 1); }
  }

  // ----- All clusters together -----

  /** Each of the `n` points has one of `k` clusters. */
  ghost predicate IsAssignment(a: seq<nat>, n: nat, k: nat) {
    |a| == n && forall i :: 0 <= i < n ==> a[i] < k
  }

  /** The points of cluster `j` among the first `n`, by index, in order. */
  ghost function Members(a: seq<nat>, j: nat, n: nat): (ids: seq<nat>)
    requires n <= |a|
    decreases n
  {
    if n == 0 then []
    else if a[n - 1] == j then Members(a, j, n - 1) + [n - 1]
    else Members(a, j, n - 1)
  }

  lemma {:induction false} MembersMean(a: seq<nat>, j: nat, n: nat)
    requires n <= |a|
    ensures forall x :: x in Members(a, j, n) <==> 0 <= x < n && a[x] == j
    ensures forall p :: 0 <= p < |Members(a, j, n)| ==> Members(a, j, n)[p] < n
    ensures forall p, q :: 0 <= p < q < |Members(a, j, n)| ==> Members(a, j, n)[p] < Members(a, j, n)[q]
    decreases n
  {
    if n > 0 {
      MembersMean(a, j, n - 1);
    }
  }

  ghost function Points(xs: seq<Vec>, a: seq<nat>, j: nat, n: nat): (pts: seq<Vec>)
    requires n <= |a| == |xs|
    decreases n
  {
    if n == 0 then []
    else if a[n - 1] == j then Points(xs, a, j, n - 1) + [xs[n - 1]]
    else Points(xs, a, j, n - 1)
  }

  lemma {:induction false} PointsAreMembers(xs: seq<Vec>, a: seq<nat>, j: nat, n: nat, dim: nat)
    requires n <= |a| == |xs| && SameDim(xs, dim)
    ensures |Points(xs, a, j, n)| == |Members(a, j, n)|
    ensures forall p :: 0 <= p < |Points(xs, a, j, n)| ==>
      Members(a, j, n)[p] < |xs| && Points(xs, a, j, n)[p] == xs[Members(a, j, n)[p]]
    ensures SameDim(Points(xs, a, j, n), dim)
    decreases n
  {
    if n > 0 { PointsAreMembers(xs, a, j, n - 1, dim); }
  }

  ghost function ObjectiveUpTo(xs: seq<Vec>, cs: seq<Vec>, a: seq<nat>, dim: nat, n: nat): real
    requires SameDim(xs, dim) && SameDim(cs, dim) && IsAssignment(a, |xs|, |cs|) && n <= |xs|
    decreases n
  {
    if n == 0 then 0.0
    else ObjectiveUpTo(xs, cs, a, dim, n - 1) + SqDist(xs[n - 1], cs[a[n - 1]])
  }

  /** The objective of k-means: the sum of the squared distances to the assigned centres. */
  ghost function Objective(xs: seq<Vec>, cs: seq<Vec>, a: seq<nat>, dim: nat): real
    requires SameDim(xs, dim) && SameDim(cs, dim) && IsAssignment(a, |xs|, |cs|)
  {
    ObjectiveUpTo(xs, cs, a, dim, |xs|)
  }

  /** Sending each point to a nearest centre never raises the objective. */
  lemma {:induction false} NearestLowers(xs: seq<Vec>, cs: seq<Vec>, a: seq<nat>, b: seq<nat>, dim: nat, n: nat)
    requires SameDim(xs, dim) && SameDim(cs, dim) && n <= |xs|
    requires IsAssignment(a, |xs|, |cs|) && IsAssignment(b, |xs|, |cs|)
    requires forall i :: 0 <= i < |xs| ==> SqDist(xs[i], cs[b[i]]) <= SqDist(xs[i], cs[a[i]])
    ensures ObjectiveUpTo(xs, cs, b, dim, n) <= ObjectiveUpTo(xs, cs, a, dim, n)
    decreases n
  {
    if n > 0 { NearestLowers(xs, cs, a, b, dim, n - 1); }
  }

  /** Replacing one centre changes the objective by that cluster's cost alone. */
  lemma {:induction false} ReplaceCentre(xs: seq<Vec>, cs: seq<Vec>, a: seq<nat>, j: nat, c: Vec, dim: nat, n: nat)
    requires SameDim(xs, dim) && SameDim(cs, dim) && n <= |xs| && |c| == dim
    requires IsAssignment(a, |xs|, |cs|) && j < |cs|
    requires SameDim(Points(xs, a, j, n), dim)
    ensures ObjectiveUpTo(xs, cs, a, dim, n) - ObjectiveUpTo(xs, cs[j := c], a, dim, n)
         == CostUpTo(Points(xs, a, j, n), cs[j], dim, dim) - CostUpTo(Points(xs, a, j, n), c, dim, dim)
    decreases n
  {
    if n > 0 {
      PointsAreMembers(xs, a, j, n - 1, dim);
      ReplaceCentre(xs, cs, a, j, c, dim, n - 1);
      if a[n - 1] == j {
        assert Points(xs, a, j, n)[..|Points(xs, a, j, n)| - 1] == Points(xs, a, j, n - 1);
      }
    }
  }

  /** Moving one centre to its cluster's mean lowers the objective by size times squared shift. */
  lemma MoveToMean(xs: seq<Vec>, cs: seq<Vec>, a: seq<nat>, j: nat, m: Vec, dim: nat)
    requires SameDim(xs, dim) && SameDim(cs, dim) && IsAssignment(a, |xs|, |cs|) && j < |cs|
    requires SameDim(Points(xs, a, j, |xs|), dim) && IsMean(m, Points(xs, a, j, |xs|), dim)
    ensures Objective(xs, cs, a, dim) ==
      Objective(xs, cs[j := m], a, dim) + Scale(|Members(a, j, |xs|)|, SqDist(cs[j], m))
  {
    PointsAreMembers(xs, a, j, |xs|, dim);
    ReplaceCentre(xs, cs, a, j, m, dim, |xs|);
    ParallelAxis(Points(xs, a, j, |xs|), cs[j], m, dim, dim);
  }

  /** `c` is the mean of cluster `j`, unless the cluster is empty. */
  ghost predicate CentredAt(xs: seq<Vec>, c: Vec, a: seq<nat>, dim: nat, j: nat)
    requires SameDim(xs, dim) && |a| == |xs|
  {
    SameDim(Points(xs, a, j, |xs|), dim) &&
    (Points(xs, a, j, |xs|) != [] ==> IsMean(c, Points(xs, a, j, |xs|), dim))
  }

  /** Every centre of a non-empty cluster is its mean. */
  ghost predicate Centred(xs: seq<Vec>, cs: seq<Vec>, a: seq<nat>, dim: nat)
    requires SameDim(xs, dim) && IsAssignment(a, |xs|, |cs|)
  {
    forall j :: 0 <= j < |cs| ==> CentredAt(xs, cs[j], a, dim, j)
  }

  lemma MeanIsUnique(pts: seq<Vec>, c: Vec, e: Vec, dim: nat)
    requires SameDim(pts, dim) && pts != [] && IsMean(c, pts, dim) && IsMean(e, pts, dim)
    ensures c == e
  {
    forall d | 0 <= d < dim ensures c[d] == e[d] {
      ScaleInjective(|pts|, c[d], e[d]);
    }
  }

  lemma {:induction false} ScaleInjective(n: nat, x: real, y: real)
    requires n > 0 && Scale(n, x) == Scale(n, y)
    ensures x == y
  {
    if x < y {
      ScaleAdd(n, x, y - x);
    } else if y < x {
      ScaleAdd(n, y, x - y);
    }
  }

  /** Means are unique, so the objective around the means depends on the assignment only. */
  lemma {:induction false} CentredCost(xs: seq<Vec>, cs: seq<Vec>, es: seq<Vec>, a: seq<nat>, dim: nat, n: nat)
    requires SameDim(xs, dim) && SameDim(cs, dim) && SameDim(es, dim) && |cs| == |es| && n <= |xs|
    requires IsAssignment(a, |xs|, |cs|) && Centred(xs, cs, a, dim) && Centred(xs, es, a, dim)
    ensures ObjectiveUpTo(xs, cs, a, dim, n) == ObjectiveUpTo(xs, es, a, dim, n)
    decreases n
  {
    if n > 0 {
      CentredCost(xs, cs, es, a, dim, n - 1);
      SameCentre(xs, cs, es, a, dim, n - 1);
    }
  }

  lemma SameCentre(xs: seq<Vec>, cs: seq<Vec>, es: seq<Vec>, a: seq<nat>, dim: nat, i: nat)
    requires SameDim(xs, dim) && |cs| == |es| && i < |xs|
    requires IsAssignment(a, |xs|, |cs|) && Centred(xs, cs, a, dim) && Centred(xs, es, a, dim)
    ensures cs[a[i]] == es[a[i]]
  {
    var j := a[i];
    MembersMean(a, j, |xs|);
    PointsAreMembers(xs, a, j, |xs|, dim);
    assert i in Members(a, j, |xs|);
    assert CentredAt(xs, cs[j], a, dim, j) && CentredAt(xs, es[j], a, dim, j);
    MeanIsUnique(Points(xs, a, j, |xs|), cs[j], es[j], dim);
  }
}
