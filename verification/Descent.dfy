/** Why Lloyd's iteration descends, and why it cannot go on for ever. */
module Descent {
  import opened Vectors
  import opened Inertia
  import opened KMeansSteps

  // ----- Descent -----

  /** One iteration: reassign to the nearest centres, then move the centres to the means. */
  lemma IterationLowers(metric: Metric, xs: seq<Vec>, cs: seq<Vec>, cs': seq<Vec>, a: seq<nat>, dim: nat)
    requires IsEuclidean(metric) && SameDim(xs, dim) && SameDim(cs, dim) && SameDim(cs', dim)
    requires cs != [] && |cs'| == |cs| && IsAssignment(a, |xs|, |cs|)
    requires var b := AssignmentOf(metric, xs, cs);
      Moved(xs, cs, cs', b, dim, |cs|) && Lowered(xs, cs, cs', b, dim, |cs|)
    ensures var b := AssignmentOf(metric, xs, cs);
      && Objective(xs, cs', b, dim) <= Objective(xs, cs, a, dim) - ShiftCost(cs, cs', b, dim, |cs|)
      && (cs' != cs ==> Objective(xs, cs', b, dim) < Objective(xs, cs, a, dim))
  {
    var b := AssignmentOf(metric, xs, cs);
    forall i | 0 <= i < |xs| ensures SqDist(xs[i], cs[b[i]]) <= SqDist(xs[i], cs[a[i]]) {
      assert IsNearest(metric, xs[i], cs, b[i]);
      EuclideanOrder(metric, xs[i], cs[a[i]], xs[i], cs[b[i]]);
    }
    NearestLowers(xs, cs, a, b, dim, |xs|);
    if cs' != cs {
      var j :| 0 <= j < |cs| && cs'[j] != cs[j];
      ShiftCostPositive(cs, cs', b, dim, |cs|, j);
    }
  }

  /** `cost` is the objective of assignment `a` around the means of its clusters. */
  ghost predicate IsCostOf(xs: seq<Vec>, a: seq<nat>, k: nat, dim: nat, cost: real)
    requires SameDim(xs, dim)
  {
    IsAssignment(a, |xs|, k) &&
    exists cs :: |cs| == k && SameDim(cs, dim) && Centred(xs, cs, a, dim) && Objective(xs, cs, a, dim) == cost
  }

  ghost predicate Falling(costs: seq<real>) {
    forall s, t :: 0 <= s < t < |costs| ==> costs[t] < costs[s]
  }

  ghost predicate AreCosts(xs: seq<Vec>, history: seq<seq<nat>>, costs: seq<real>, k: nat, dim: nat)
    requires SameDim(xs, dim)
  {
    |costs| == |history| &&
    forall t {:trigger history[t]} :: 0 <= t < |history| ==> IsCostOf(xs, history[t], k, dim, costs[t])
  }

  /** The assignments of the changing iterations, in order, with strictly falling cost. */
  ghost predicate Descends(xs: seq<Vec>, history: seq<seq<nat>>, costs: seq<real>, k: nat, dim: nat)
    requires SameDim(xs, dim)
  {
    AreCosts(xs, history, costs, k, dim) && Falling(costs)
  }

  lemma DescendFurther(xs: seq<Vec>, history: seq<seq<nat>>, costs: seq<real>, k: nat, dim: nat, cs: seq<Vec>,
                       a: seq<nat>, cost: real)
    requires SameDim(xs, dim) && Descends(xs, history, costs, k, dim)
    requires |cs| == k && SameDim(cs, dim) && IsAssignment(a, |xs|, k)
    requires Centred(xs, cs, a, dim) && Objective(xs, cs, a, dim) == cost
    requires costs != [] ==> cost < costs[|costs| - 1]
    ensures Descends(xs, history + [a], costs + [cost], k, dim)
  {
  }

  /** No assignment recurs across changing iterations. */
  lemma NoRecurrence(xs: seq<Vec>, history: seq<seq<nat>>, costs: seq<real>, k: nat, dim: nat, s: nat, t: nat)
    requires SameDim(xs, dim) && Descends(xs, history, costs, k, dim) && s < t < |history|
    ensures history[s] != history[t]
  {
    if history[s] == history[t] {
      var cs :| |cs| == k && SameDim(cs, dim) && Centred(xs, cs, history[s], dim)
        && Objective(xs, cs, history[s], dim) == costs[s];
      var es :| |es| == k && SameDim(es, dim) && Centred(xs, es, history[t], dim)
        && Objective(xs, es, history[t], dim) == costs[t];
      CentredCost(xs, cs, es, history[s], dim, |xs|);
    }
  }

  // ----- Counting assignments -----

  function Pow(k: nat, n: nat): nat {
    if n == 0 then 1 else Pow(k, n - 1) * k
  }

  /** An assignment read as an n-digit number in base k. */
  ghost function Code(a: seq<nat>, k: nat): nat
    decreases |a|
  {
    if a == [] then 0 else Code(a[..|a| - 1], k) * k + a[|a| - 1]
  }

  lemma {:induction false} CodeBound(a: seq<nat>, k: nat)
    requires IsAssignment(a, |a|, k)
    ensures Code(a, k) < Pow(k, |a|)
    decreases |a|
  {
    if a != [] {
      CodeBound(a[..|a| - 1], k);
      DigitBound(Code(a[..|a| - 1], k), a[|a| - 1], Pow(k, |a| - 1), k);
    }
  }

  lemma DigitBound(high: nat, digit: nat, p: nat, k: nat)
    requires high < p && digit < k
    ensures high * k + digit < p * k
  {
    Multiply(high + 1, p, k);
  }

  lemma Multiply(p: nat, q: nat, k: nat)
    requires p <= q
    ensures p * k <= q * k
  {
  }

  lemma {:induction false} CodeInjective(a: seq<nat>, b: seq<nat>, k: nat)
    requires |a| == |b| && IsAssignment(a, |a|, k) && IsAssignment(b, |b|, k)
    requires Code(a, k) == Code(b, k)
    ensures a == b
    decreases |a|
  {
    if a != [] {
      var n := |a| - 1;
      SameDigits(Code(a[..n], k), a[n], Code(b[..n], k), b[n], k);
      CodeInjective(a[..n], b[..n], k);
      assert a == a[..n] + [a[n]] && b == b[..n] + [b[n]];
    }
  }

  lemma SameDigits(p: nat, x: nat, q: nat, y: nat, k: nat)
    requires x < k && y < k && p * k + x == q * k + y
    ensures p == q && x == y
  {
    if p < q {
      Multiply(p + 1, q, k);
    } else if q < p {
      Multiply(q + 1, p, k);
    }
  }

  /** Distinct numbers below `bound` are at most `bound` many. */
  lemma {:induction false} DistinctBelow(codes: seq<nat>, bound: nat)
    requires forall i :: 0 <= i < |codes| ==> codes[i] < bound
    requires forall i, j :: 0 <= i < j < |codes| ==> codes[i] != codes[j]
    ensures |codes| <= bound
    decreases bound
  {
    if codes != [] {
      assert codes[0] < bound;
      var last := bound - 1;
      if i :| 0 <= i < |codes| && codes[i] == last {
        DistinctBelow(codes[..i] + codes[i + 1..], last);
      } else {
        DistinctBelow(codes, last);
      }
    }
  }

  /** There are at most k^n changing iterations. */
  lemma HistoryIsShort(xs: seq<Vec>, history: seq<seq<nat>>, costs: seq<real>, k: nat, dim: nat)
    requires SameDim(xs, dim) && Descends(xs, history, costs, k, dim)
    ensures |history| <= Pow(k, |xs|)
  {
    var codes := seq(|history|, t requires 0 <= t < |history| => Code(history[t], k));
    forall t | 0 <= t < |history| ensures codes[t] < Pow(k, |xs|) {
      CodeBound(history[t], k);
    }
    forall s, t | 0 <= s < t < |history| ensures codes[s] != codes[t] {
      if codes[s] == codes[t] {
        CodeInjective(history[s], history[t], k);
        NoRecurrence(xs, history, costs, k, dim, s, t);
      }
    }
    DistinctBelow(codes, Pow(k, |xs|));
  }
}
