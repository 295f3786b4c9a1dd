/** The assignment and update steps of `utils/k_means.h`. */
module KMeansSteps {
  import opened Vectors
  import opened Inertia

  /** A centre and the indices of the vectors assigned to it. */
  datatype Centroid = Centroid(center: Vec, ids: seq<nat>)

  ghost function Centers(cs: seq<Centroid>): seq<Vec> {
    seq(|cs|, j requires 0 <= j < |cs| => cs[j].center)
  }

  // ----- Nearest centre -----

  /** `j` is a nearest centre of `v`, and the first of them. */
  ghost predicate IsNearest(metric: Metric, v: Vec, centers: seq<Vec>, j: nat) {
    && j < |centers|
    && (forall i :: 0 <= i < |centers| ==> metric(v, centers[j]) <= metric(v, centers[i]))
    && (forall i :: 0 <= i < j ==> metric(v, centers[j]) < metric(v, centers[i]))
  }

  function Nearest(metric: Metric, v: Vec, centers: seq<Vec>): (j: nat)
    requires centers != []
    ensures IsNearest(metric, v, centers, j)
    decreases |centers|
  {
    var last := |centers| - 1;
    if last == 0 then 0
    else
      var best := Nearest(metric, v, centers[..last]);
      if metric(v, centers[last]) < metric(v, centers[best]) then last else best
  }

  /**
   Lines 66-77, and `find_nearest_cluster` of ivfflat.cpp: `best == -1` stands for
   the initial `numeric_limits<double>::max()`, which every distance is below.
  */
  method FindNearest(metric: Metric, v: Vec, centers: seq<Vec>) returns (best: int)
    ensures centers == [] ==> best == -1
    ensures centers != [] ==> best == Nearest(metric, v, centers)
  {
    best := -1;
    var minDist := 0.0;
    for j := 0 to |centers|
      invariant j == 0 ==> best == -1
      invariant j > 0 ==> best == Nearest(metric, v, centers[..j]) && minDist == metric(v, centers[best])
    {
      var d := metric(v, centers[j]);
      assert centers[..j + 1][..j] == centers[..j];
      if best == -1 || d < minDist {
        minDist := d;
        best := j;
      }
    }
    assert centers[..|centers|] == centers;
  }

  ghost function AssignmentOf(metric: Metric, xs: seq<Vec>, centers: seq<Vec>): (a: seq<nat>)
    requires centers != []
    ensures IsAssignment(a, |xs|, |centers|)
  {
    seq(|xs|, i requires 0 <= i < |xs| => Nearest(metric, xs[i], centers))
  }

  ghost predicate ListsMembers(cs: seq<Centroid>, a: seq<nat>, n: nat)
    requires n <= |a|
  {
    forall j :: 0 <= j < |cs| ==> cs[j].ids == Members(a, j, n)
  }

  /** Lines 60-81. */
  method Assign(metric: Metric, xs: seq<Vec>, cs: seq<Centroid>) returns (cs': seq<Centroid>)
    requires cs != []
    ensures Centers(cs') == Centers(cs)
    ensures ListsMembers(cs', AssignmentOf(metric, xs, Centers(cs)), |xs|)
  {
    var centers := [];
    cs' := [];
    for j := 0 to |cs|
      invariant |cs'| == j && centers == Centers(cs)[..j]
      invariant forall i :: 0 <= i < j ==> cs'[i] == Centroid(cs[i].center, [])
    {
      cs' := cs' + [Centroid(cs[j].center, [])];
      centers := centers + [cs[j].center];
    }
    assert centers == Centers(cs);
    ghost var a := AssignmentOf(metric, xs, centers);
    for i := 0 to |xs|
      invariant Centers(cs') == centers
      invariant ListsMembers(cs', a, i)
    {
      var best := FindNearest(metric, xs[i], centers);
      cs' := cs'[best := Centroid(cs'[best].center, cs'[best].ids + [i])];
    }
  }

  // ----- Means -----

  function Select(xs: seq<Vec>, ids: seq<nat>): seq<Vec>
    requires forall p :: 0 <= p < |ids| ==> ids[p] < |xs|
  {
    seq(|ids|, p requires 0 <= p < |ids| => xs[ids[p]])
  }

  /** Lines 92-98: coordinate sums over the listed vectors. */
  method SumOf(xs: seq<Vec>, ids: seq<nat>, dim: nat) returns (total: seq<real>)
    requires SameDim(xs, dim)
    requires forall p :: 0 <= p < |ids| ==> ids[p] < |xs|
    ensures |total| == dim
    ensures forall d :: 0 <= d < dim ==> total[d] == Sum(Column(Select(xs, ids), d, dim))
  {
    ghost var pts := Select(xs, ids);
    var sum := new real[dim](_ => 0.0);
    for t := 0 to |ids|
      invariant forall d :: 0 <= d < dim ==> sum[d] == Sum(Column(pts, d, dim)[..t])
    {
      AddPoint(sum, xs[ids[t]]);
      forall d | 0 <= d < dim ensures sum[d] == Sum(Column(pts, d, dim)[..t + 1]) {
        assert Column(pts, d, dim)[..t + 1][..t] == Column(pts, d, dim)[..t];
      }
    }
    forall d | 0 <= d < dim ensures sum[d] == Sum(Column(pts, d, dim)) {
      assert Column(pts, d, dim)[..|ids|] == Column(pts, d, dim);
    }
    total := sum[..];
  }

  /** Lines 95-97. */
  method AddPoint(sum: array<real>, x: Vec)
    requires sum.Length == |x|
    modifies sum
    ensures forall d :: 0 <= d < |x| ==> sum[d] == old(sum[d]) + x[d]
  {
    for d := 0 to |x|
      invariant forall e :: 0 <= e < d ==> sum[e] == old(sum[e]) + x[e]
      invariant forall e :: d <= e < |x| ==> sum[e] == old(sum[e])
    {
      sum[d] := sum[d] + x[d];
    }
  }

  /** Lines 90-105. */
  method MeanOf(xs: seq<Vec>, ids: seq<nat>, dim: nat) returns (mean: Vec)
    requires SameDim(xs, dim) && ids != []
    requires forall p :: 0 <= p < |ids| ==> ids[p] < |xs|
    ensures IsMean(mean, Select(xs, ids), dim)
  {
    ghost var pts := Select(xs, ids);
    var sum := SumOf(xs, ids, dim);
    mean := [];
    for d := 0 to dim
      invariant |mean| == d
      invariant forall e :: 0 <= e < d ==> Sum(Column(pts, e, dim)) == Scale(|pts|, mean[e])
    {
      var c := sum[d] / |ids| as real;
      ScaleIsProduct(|ids|, c, sum[d]);
      assert Scale(|pts|, c) == Sum(Column(pts, d, dim));
      mean := mean + [c];
    }
  }

  // ----- Moving the centres -----

  /** What moving the first `n` centres from `before` to `after` takes off the objective. */
  ghost function ShiftCost(before: seq<Vec>, after: seq<Vec>, a: seq<nat>, dim: nat, n: nat): (s: real)
    requires SameDim(before, dim) && SameDim(after, dim) && n <= |before| == |after|
    ensures s >= 0.0
    decreases n
  {
    if n == 0 then 0.0
    else ShiftCost(before, after, a, dim, n - 1) + Scale(|Members(a, n - 1, |a|)|, SqDist(before[n - 1], after[n - 1]))
  }

  lemma {:induction false} ShiftCostPositive(before: seq<Vec>, after: seq<Vec>, a: seq<nat>, dim: nat, n: nat, j: nat)
    requires SameDim(before, dim) && SameDim(after, dim) && j < n <= |before| == |after|
    requires before[j] != after[j] && Members(a, j, |a|) != []
    ensures ShiftCost(before, after, a, dim, n) > 0.0
    decreases n
  {
    if j == n - 1 {
      SqDistZero(before[j], after[j]);
    } else {
      ShiftCostPositive(before, after, a, dim, n - 1, j);
    }
  }

  lemma {:induction false} ShiftCostPrefix(before: seq<Vec>, after: seq<Vec>, after': seq<Vec>, a: seq<nat>, dim: nat,
                                           n: nat)
    requires SameDim(before, dim) && SameDim(after, dim) && SameDim(after', dim)
    requires n <= |before| == |after| == |after'|
    requires forall j :: 0 <= j < n ==> after[j] == after'[j]
    ensures ShiftCost(before, after, a, dim, n) == ShiftCost(before, after', a, dim, n)
    decreases n
  {
    if n > 0 { ShiftCostPrefix(before, after, after', a, dim, n - 1); }
  }

  /**
   The centres after the first `j` rounds of the update loop: means of the non-empty
   clusters, the others where they were.
  */
  ghost predicate Moved(xs: seq<Vec>, before: seq<Vec>, after: seq<Vec>, a: seq<nat>, dim: nat, j: nat)
    requires SameDim(xs, dim) && |a| == |xs|
  {
    && |after| == |before| && j <= |before|
    && SameDim(after, dim)
    && (forall i :: 0 <= i < |after| && (i >= j || Members(a, i, |a|) == []) ==> after[i] == before[i])
    && (forall i :: 0 <= i < j ==> CentredAt(xs, after[i], a, dim, i))
  }

  lemma MovedNext(xs: seq<Vec>, before: seq<Vec>, after: seq<Vec>, a: seq<nat>, dim: nat, j: nat, mean: Vec)
    requires SameDim(xs, dim) && |a| == |xs| && j < |before| && SameDim(before, dim)
    requires Moved(xs, before, after, a, dim, j)
    requires SameDim(Points(xs, a, j, |xs|), dim)
    requires if Members(a, j, |xs|) == [] then mean == before[j] else IsMean(mean, Points(xs, a, j, |xs|), dim)
    ensures Moved(xs, before, after[j := mean], a, dim, j + 1)
  {
    var next := after[j := mean];
    PointsAreMembers(xs, a, j, |xs|, dim);
    forall i | 0 <= i < j + 1 ensures CentredAt(xs, next[i], a, dim, i) {
      if i < j { assert CentredAt(xs, after[i], a, dim, i); }
    }
  }

  /** Every centre moved so far has paid size times squared shift. */
  ghost predicate Lowered(xs: seq<Vec>, before: seq<Vec>, after: seq<Vec>, a: seq<nat>, dim: nat, j: nat)
    requires SameDim(xs, dim) && IsAssignment(a, |xs|, |before|)
    requires |after| == |before| && j <= |before| && SameDim(before, dim) && SameDim(after, dim)
  {
    Objective(xs, before, a, dim) == Objective(xs, after, a, dim) + ShiftCost(before, after, a, dim, j)
  }

  lemma LoweredNext(xs: seq<Vec>, before: seq<Vec>, after: seq<Vec>, a: seq<nat>, dim: nat, j: nat, mean: Vec)
    requires SameDim(xs, dim) && IsAssignment(a, |xs|, |before|)
    requires |after| == |before| && j < |before| && SameDim(before, dim) && SameDim(after, dim)
    requires after[j] == before[j] && Lowered(xs, before, after, a, dim, j)
    requires SameDim(Points(xs, a, j, |xs|), dim)
    requires if Members(a, j, |xs|) == [] then mean == before[j] else IsMean(mean, Points(xs, a, j, |xs|), dim)
    ensures |mean| == dim && Lowered(xs, before, after[j := mean], a, dim, j + 1)
  {
    OneMove(xs, before, after, a, dim, j, mean);
    ShiftCostPrefix(before, after, after[j := mean], a, dim, j);
  }

  lemma OneMove(xs: seq<Vec>, before: seq<Vec>, after: seq<Vec>, a: seq<nat>, dim: nat, j: nat, mean: Vec)
    requires SameDim(xs, dim) && SameDim(after, dim) && IsAssignment(a, |xs|, |after|)
    requires j < |before| == |after| && after[j] == before[j]
    requires SameDim(Points(xs, a, j, |xs|), dim)
    requires if Members(a, j, |xs|) == [] then mean == before[j] else IsMean(mean, Points(xs, a, j, |xs|), dim)
    ensures |mean| == dim && Objective(xs, after, a, dim) ==
      Objective(xs, after[j := mean], a, dim) + Scale(|Members(a, j, |xs|)|, SqDist(before[j], mean))
  {
    if Members(a, j, |xs|) == [] {
      assert after[j := mean] == after;
    } else {
      MoveToMean(xs, after, a, j, mean, dim);
    }
  }

  /** The update loop after the first `j` centres. */
  ghost predicate Updating(xs: seq<Vec>, cs: seq<Centroid>, cs': seq<Centroid>, a: seq<nat>, dim: nat, j: nat,
                           changed: bool)
    requires SameDim(xs, dim) && SameDim(Centers(cs), dim) && IsAssignment(a, |xs|, |cs|)
  {
    && |cs'| == |cs| && ListsMembers(cs', a, |xs|)
    && (changed <==> Centers(cs') != Centers(cs))
    && Moved(xs, Centers(cs), Centers(cs'), a, dim, j)
    && Lowered(xs, Centers(cs), Centers(cs'), a, dim, j)
  }

  lemma UpdatingNext(xs: seq<Vec>, cs: seq<Centroid>, cs': seq<Centroid>, a: seq<nat>, dim: nat, j: nat, changed: bool,
                     mean: Vec)
    requires SameDim(xs, dim) && SameDim(Centers(cs), dim) && IsAssignment(a, |xs|, |cs|) && j < |cs|
    requires Updating(xs, cs, cs', a, dim, j, changed)
    requires SameDim(Points(xs, a, j, |xs|), dim)
    requires if Members(a, j, |xs|) == [] then mean == cs[j].center else IsMean(mean, Points(xs, a, j, |xs|), dim)
    ensures cs'[j].center == cs[j].center
    ensures Updating(xs, cs, cs'[j := Centroid(mean, cs'[j].ids)], a, dim, j + 1, changed || mean != cs[j].center)
  {
    var before, now := Centers(cs), Centers(cs');
    var next := cs'[j := Centroid(mean, cs'[j].ids)];
    assert now[j] == before[j];
    assert Centers(next) == now[j := mean];
    MovedNext(xs, before, now, a, dim, j, mean);
    LoweredNext(xs, before, now, a, dim, j, mean);
    DifferFurther(before, now, j, mean);
  }

  lemma DifferFurther(before: seq<Vec>, now: seq<Vec>, j: nat, mean: Vec)
    requires |now| == |before| && j < |before| && now[j] == before[j]
    ensures now[j := mean] != before <==> now != before || mean != before[j]
  {
    if now != before && mean == before[j] { assert now[j := mean] == now; }
    if mean != before[j] { assert now[j := mean][j] != before[j]; }
  }

  /** Lines 84-111. */
  method Update(xs: seq<Vec>, cs: seq<Centroid>, dim: nat, ghost a: seq<nat>)
    returns (cs': seq<Centroid>, changed: bool)
    requires SameDim(xs, dim) && SameDim(Centers(cs), dim)
    requires IsAssignment(a, |xs|, |cs|) && ListsMembers(cs, a, |xs|)
    ensures |cs'| == |cs| && ListsMembers(cs', a, |xs|)
    ensures changed <==> Centers(cs') != Centers(cs)
    ensures Moved(xs, Centers(cs), Centers(cs'), a, dim, |cs|)
    ensures Lowered(xs, Centers(cs), Centers(cs'), a, dim, |cs|)
  {
    UpdatingStarts(xs, cs, a, dim);
    cs', changed := UpdateAll(xs, cs, dim, a);
  }

  lemma UpdatingStarts(xs: seq<Vec>, cs: seq<Centroid>, a: seq<nat>, dim: nat)
    requires SameDim(xs, dim) && SameDim(Centers(cs), dim) && IsAssignment(a, |xs|, |cs|)
    requires ListsMembers(cs, a, |xs|)
    ensures Updating(xs, cs, cs, a, dim, 0, false)
  {
  }

  /** The loop of `Update`. */
  method UpdateAll(xs: seq<Vec>, cs: seq<Centroid>, dim: nat, ghost a: seq<nat>)
    returns (cs': seq<Centroid>, changed: bool)
    requires SameDim(xs, dim) && SameDim(Centers(cs), dim) && IsAssignment(a, |xs|, |cs|)
    requires Updating(xs, cs, cs, a, dim, 0, false)
    ensures Updating(xs, cs, cs', a, dim, |cs|, changed)
  {
    cs', changed := cs, false;
    for j := 0 to |cs|
      invariant Updating(xs, cs, cs', a, dim, j, changed)
    {
      cs', changed := UpdateOne(xs, cs, cs', dim, j, changed, a);
    }
  }

  /** Lines 86-110, for one centroid; an empty one is passed over. */
  method UpdateOne(xs: seq<Vec>, ghost cs: seq<Centroid>, now: seq<Centroid>, dim: nat, j: nat, changed: bool,
                   ghost a: seq<nat>)
    returns (next: seq<Centroid>, changed': bool)
    requires SameDim(xs, dim) && SameDim(Centers(cs), dim) && IsAssignment(a, |xs|, |cs|)
    requires j < |cs| && Updating(xs, cs, now, a, dim, j, changed)
    ensures Updating(xs, cs, next, a, dim, j + 1, changed')
  {
    PointsAreMembers(xs, a, j, |xs|, dim);
    next, changed' := now, changed;
    ghost var mean := now[j].center;
    if now[j].ids != [] {
      var newCentroid := MeanOf(xs, now[j].ids, dim);
      assert Select(xs, now[j].ids) == Points(xs, a, j, |xs|);
      mean := newCentroid;
      if newCentroid != now[j].center {
        next, changed' := now[j := Centroid(newCentroid, now[j].ids)], true;
      }
    }
    assert next == now[j := Centroid(mean, now[j].ids)];
    assert Centers(now)[j] == Centers(cs)[j];
    UpdatingNext(xs, cs, now, a, dim, j, changed, mean);
  }
}
