/** Lloyd's iteration, `utils/k_means.h`. */
module KMeans {
  import opened Vectors
  import opened Inertia
  import opened KMeansSteps
  import opened Descent

  /**
   What the lists of a result with at least one iteration look like: `a` sends every
   vector to one cluster, and each list holds exactly its cluster's indices, in order.
  */
  ghost predicate IsPartition(result: seq<Centroid>, a: seq<nat>, n: nat) {
    IsAssignment(a, n, |result|) && ListsMembers(result, a, n)
  }

  /** The state in which a run that stopped with `changed == false` leaves the centres. */
  ghost predicate IsStable(metric: Metric, xs: seq<Vec>, result: seq<Centroid>, a: seq<nat>, dim: nat) {
    && result != [] && SameDim(xs, dim) && |a| == |xs|
    && a == AssignmentOf(metric, xs, Centers(result))
    && Centred(xs, Centers(result), a, dim)
  }

  /** The centres round by round: first the first k vectors, then each time the means of what was assigned to them. */
  ghost predicate IsLloyd(metric: Metric, xs: seq<Vec>, k: nat, dim: nat, rounds: seq<seq<Vec>>) {
    && 0 < k <= |xs| && SameDim(xs, dim)
    && rounds != [] && rounds[0] == xs[..k]
    && (forall r :: 0 <= r < |rounds| ==> |rounds[r]| == k)
    && (forall r :: 0 <= r < |rounds| - 1 ==>
          Moved(xs, rounds[r], rounds[r + 1], AssignmentOf(metric, xs, rounds[r]), dim, k))
  }

  /**
   The state of a run after the rounds so far: all but the last one moved some centre, and
   `a` is the last assignment.
  */
  ghost predicate IsResult(metric: Metric, xs: seq<Vec>, dim: nat, result: seq<Centroid>, a: seq<nat>, changed: bool,
                           rounds: seq<seq<Vec>>)
  {
    var last := |rounds| - 1;
    && IsLloyd(metric, xs, |result|, dim, rounds)
    && Centers(result) == rounds[last]
    && (last > 0 ==> a == AssignmentOf(metric, xs, rounds[last - 1]) && IsPartition(result, a, |xs|))
    && (changed <==> last == 0 || rounds[last] != rounds[last - 1])
    && (forall r :: 0 <= r < last - 1 ==> rounds[r] != rounds[r + 1])
  }

  lemma NextRound(metric: Metric, xs: seq<Vec>, dim: nat, before: seq<Centroid>, a0: seq<nat>, rounds: seq<seq<Vec>>,
                  result: seq<Centroid>, a: seq<nat>, changed: bool)
    requires IsResult(metric, xs, dim, before, a0, true, rounds) && |result| == |before|
    requires a == AssignmentOf(metric, xs, Centers(before)) && IsPartition(result, a, |xs|)
    requires Moved(xs, Centers(before), Centers(result), a, dim, |before|)
    requires changed <==> Centers(result) != Centers(before)
    ensures IsResult(metric, xs, dim, result, a, changed, rounds + [Centers(result)])
  {
    LloydNext(metric, xs, |before|, dim, rounds, Centers(result));
    assert (rounds + [Centers(result)])[|rounds|] == Centers(result);
  }

  lemma LloydNext(metric: Metric, xs: seq<Vec>, k: nat, dim: nat, rounds: seq<seq<Vec>>, next: seq<Vec>)
    requires IsLloyd(metric, xs, k, dim, rounds)
    requires Moved(xs, rounds[|rounds| - 1], next, AssignmentOf(metric, xs, rounds[|rounds| - 1]), dim, k)
    ensures IsLloyd(metric, xs, k, dim, rounds + [next])
  {
    var rounds' := rounds + [next];
    forall r | 0 <= r < |rounds'| - 1
      ensures Moved(xs, rounds'[r], rounds'[r + 1], AssignmentOf(metric, xs, rounds'[r]), dim, k)
    {
      if r < |rounds| - 1 {
        assert Moved(xs, rounds[r], rounds[r + 1], AssignmentOf(metric, xs, rounds[r]), dim, k);
      }
    }
  }

  /** The loop invariant of the iteration; `history` and `costs` record the changing rounds. */
  ghost predicate Underway(metric: Metric, xs: seq<Vec>, k: nat, dim: nat, result: seq<Centroid>, a: seq<nat>,
                           changed: bool, iteration: nat, history: seq<seq<nat>>, costs: seq<real>)
  {
    && k > 0 && SameDim(xs, dim)
    && |result| == k && SameDim(Centers(result), dim)
    && (iteration > 0 ==> IsPartition(result, a, |xs|))
    && (iteration == 0 ==> changed)
    && (changed ==> |history| == iteration)
    && (!changed ==> IsStable(metric, xs, result, a, dim))
    && (IsEuclidean(metric) ==> Descends(xs, history, costs, k, dim))
    && (IsEuclidean(metric) && changed && iteration > 0 ==>
          costs[iteration - 1] == Objective(xs, Centers(result), a, dim))
  }

  /** Lines 47-50: the first k vectors are the first centres. */
  method InitialCentres(xs: seq<Vec>, k: nat, dim: nat) returns (result: seq<Centroid>)
    requires k <= |xs| && SameDim(xs, dim)
    ensures |result| == k && Centers(result) == xs[..k]
  {
    result := [];
    for i := 0 to k
      invariant |result| == i
      invariant forall j :: 0 <= j < i ==> result[j] == Centroid(xs[j], [])
    {
      result := result + [Centroid(xs[i], [])];
    }
  }

  // ----- As many centres as vectors -----

  lemma {:induction false} SumOfSame(xs: seq<real>, x: real)
    requires forall i :: 0 <= i < |xs| ==> xs[i] == x
    ensures Sum(xs) == Scale(|xs|, x)
    decreases |xs|
  {
    if xs != [] { SumOfSame(xs[..|xs| - 1], x); }
  }

  lemma MeanOfSame(pts: seq<Vec>, v: Vec, dim: nat)
    requires SameDim(pts, dim) && |v| == dim && forall i :: 0 <= i < |pts| ==> pts[i] == v
    ensures IsMean(v, pts, dim)
  {
    forall d | 0 <= d < dim ensures Sum(Column(pts, d, dim)) == Scale(|pts|, v[d]) {
      SumOfSame(Column(pts, d, dim), v[d]);
    }
  }

  /** Each vector is at distance zero from a centre that is the vector itself. */
  lemma OwnCentre(metric: Metric, xs: seq<Vec>, i: nat, dim: nat)
    requires IsEuclidean(metric) && SameDim(xs, dim) && i < |xs|
    ensures xs[AssignmentOf(metric, xs, xs)[i]] == xs[i]
  {
    var j := AssignmentOf(metric, xs, xs)[i];
    assert IsNearest(metric, xs[i], xs, j);
    SqDistZero(xs[i], xs[i]);
    SquareFacts(metric(xs[i], xs[i]));
    assert metric(xs[i], xs[j]) == 0.0;
    SqDistZero(xs[i], xs[j]);
  }

  lemma {:induction false} PointsOfOwnCentre(xs: seq<Vec>, a: seq<nat>, j: nat, n: nat)
    requires n <= |a| == |xs| && j < |xs|
    requires forall i :: 0 <= i < |a| ==> a[i] < |xs| && xs[a[i]] == xs[i]
    ensures forall p :: 0 <= p < |Points(xs, a, j, n)| ==> Points(xs, a, j, n)[p] == xs[j]
    decreases n
  {
    if n > 0 { PointsOfOwnCentre(xs, a, j, n - 1); }
  }

  /** Where the centres are the vectors themselves, the first round moves none of them. */
  lemma OwnCentresStay(metric: Metric, xs: seq<Vec>, after: seq<Vec>, dim: nat)
    requires IsEuclidean(metric) && SameDim(xs, dim) && xs != []
    requires Moved(xs, xs, after, AssignmentOf(metric, xs, xs), dim, |xs|)
    ensures after == xs
  {
    var a := AssignmentOf(metric, xs, xs);
    forall i | 0 <= i < |xs| ensures xs[a[i]] == xs[i] { OwnCentre(metric, xs, i, dim); }
    forall j | 0 <= j < |xs| ensures after[j] == xs[j] {
      assert CentredAt(xs, after[j], a, dim, j);
      var pts := Points(xs, a, j, |xs|);
      PointsAreMembers(xs, a, j, |xs|, dim);
      if pts != [] {
        PointsOfOwnCentre(xs, a, j, |xs|);
        MeanOfSame(pts, xs[j], dim);
        MeanIsUnique(pts, after[j], xs[j], dim);
      }
    }
  }

  lemma FirstRoundStays(metric: Metric, xs: seq<Vec>, dim: nat, result: seq<Centroid>, a: seq<nat>, changed: bool,
                        rounds: seq<seq<Vec>>)
    requires IsEuclidean(metric) && SameDim(xs, dim) && |result| == |xs| && |rounds| == 2
    requires IsResult(metric, xs, dim, result, a, changed, rounds)
    ensures !changed
  {
    assert xs[..|xs|] == xs;
    OwnCentresStay(metric, xs, rounds[1], dim);
  }

  // ----- The run -----

  /** Lines 57-111: one round of assignment and update. */
  method Iterate(metric: Metric, xs: seq<Vec>, k: nat, dim: nat, result0: seq<Centroid>, ghost a0: seq<nat>,
                 ghost iteration: nat, ghost history0: seq<seq<nat>>, ghost costs0: seq<real>)
    returns (result: seq<Centroid>, ghost a: seq<nat>, changed: bool,
             ghost history: seq<seq<nat>>, ghost costs: seq<real>)
    requires Underway(metric, xs, k, dim, result0, a0, true, iteration, history0, costs0)
    ensures Underway(metric, xs, k, dim, result, a, changed, iteration + 1, history, costs)
    ensures if changed then history == history0 + [a] else history == history0
    ensures a == AssignmentOf(metric, xs, Centers(result0))
    ensures Moved(xs, Centers(result0), Centers(result), a, dim, k)
    ensures changed <==> Centers(result) != Centers(result0)
  {
    ghost var before := Centers(result0);
    result := Assign(metric, xs, result0);
    a := AssignmentOf(metric, xs, before);
    result, changed := Update(xs, result, dim, a);
    history, costs := history0, costs0;
    if changed {
      history := history0 + [a];
      costs := costs0 + [Objective(xs, Centers(result), a, dim)];
      RoundDescends(metric, xs, before, Centers(result), a0, dim, iteration, history0, costs0);
    }
  }

  lemma RoundDescends(metric: Metric, xs: seq<Vec>, before: seq<Vec>, after: seq<Vec>, a0: seq<nat>, dim: nat,
                      iteration: nat, history: seq<seq<nat>>, costs: seq<real>)
    requires SameDim(xs, dim) && SameDim(before, dim) && SameDim(after, dim)
    requires before != [] && |after| == |before| && after != before
    requires var a := AssignmentOf(metric, xs, before);
      Moved(xs, before, after, a, dim, |before|) && Lowered(xs, before, after, a, dim, |before|)
    requires IsEuclidean(metric) ==> Descends(xs, history, costs, |before|, dim) && |history| == iteration
    requires IsEuclidean(metric) && iteration > 0 ==>
      IsAssignment(a0, |xs|, |before|) && costs[iteration - 1] == Objective(xs, before, a0, dim)
    ensures var a := AssignmentOf(metric, xs, before);
      IsEuclidean(metric) ==>
        Descends(xs, history + [a], costs + [Objective(xs, after, a, dim)], |before|, dim)
  {
    if IsEuclidean(metric) {
      var a := AssignmentOf(metric, xs, before);
      if iteration > 0 { IterationLowers(metric, xs, before, after, a0, dim); }
      DescendFurther(xs, history, costs, |before|, dim, after, a, Objective(xs, after, a, dim));
    }
  }

  method Run(metric: Metric, xs: seq<Vec>, k0: nat, maxIterations: nat, dim: nat)
    returns (result: seq<Centroid>, ghost a: seq<nat>, ghost converged: bool,
             ghost history: seq<seq<nat>>, ghost costs: seq<real>, ghost rounds: seq<seq<Vec>>)
    requires SameDim(xs, dim)
    ensures |result| == if k0 < |xs| then k0 else |xs|
    ensures SameDim(Centers(result), dim)
    ensures result != [] ==>
      && IsResult(metric, xs, dim, result, a, !converged, rounds)
      && |rounds| <= maxIterations + 1 && (!converged ==> |rounds| == maxIterations + 1)
    ensures result != [] && maxIterations > 0 ==> IsPartition(result, a, |xs|)
    ensures result == [] ==> converged
    ensures result != [] && converged ==> IsStable(metric, xs, result, a, dim)
    ensures IsEuclidean(metric) ==> Descends(xs, history, costs, |result|, dim)
    ensures IsEuclidean(metric) && result != [] && maxIterations > Pow(|result|, |xs|) ==> converged
    ensures IsEuclidean(metric) && |xs| <= k0 && maxIterations > 0 ==> converged
  {
    result, a, converged, history, costs, rounds := [], [], true, [], [], [];
    if xs == [] || k0 == 0 {
      return;
    }
    var k := if |xs| < k0 then |xs| else k0;
    result := InitialCentres(xs, k, dim);
    rounds := [xs[..k]];
    var changed, iteration := true, 0;
    while changed && iteration < maxIterations
      invariant iteration <= maxIterations && |rounds| == iteration + 1
      invariant IsResult(metric, xs, dim, result, a, changed, rounds)
      invariant Underway(metric, xs, k, dim, result, a, changed, iteration, history, costs)
      invariant IsEuclidean(metric) && k == |xs| && iteration > 0 ==> !changed
    {
      ghost var before, a0 := result, a;
      result, a, changed, history, costs := Iterate(metric, xs, k, dim, result, a, iteration, history, costs);
      NextRound(metric, xs, dim, before, a0, rounds, result, a, changed);
      rounds := rounds + [Centers(result)];
      iteration := iteration + 1;
      if IsEuclidean(metric) && k == |xs| { FirstRoundStays(metric, xs, dim, result, a, changed, rounds); }
    }
    converged := !changed;
    if IsEuclidean(metric) { HistoryIsShort(xs, history, costs, k, dim); }
  }
}
