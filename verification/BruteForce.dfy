/** The exact scan of `indices/euclidean.cpp`, which the approximate indices are compared with. */
module BruteForce {
  import opened Ranking
  import opened Iteration
  import opened Vectors
  import opened Spaces

  /** `std::partial_sort`: the k smallest entries, ascending, in front of the rest. */
  method PartialSort(a: array<Cand>, k: nat)
    requires k <= a.Length
    modifies a
    ensures multiset(a[..]) == old(multiset(a[..]))
    ensures a[..k] == TopK(old(multiset(a[..])), k)
  {
    for i := 0 to k
      invariant multiset(a[..]) == old(multiset(a[..]))
      invariant forall x, y :: 0 <= x < i && x < y < a.Length ==> Leq(a[x], a[y])
    {
      var least := LeastFrom(a, i);
      Swap(a, i, least);
    }
    SortedPrefix(a[..], k);
  }

  method LeastFrom(a: array<Cand>, i: nat) returns (least: nat)
    requires i < a.Length
    ensures i <= least < a.Length
    ensures forall y :: i <= y < a.Length ==> Leq(a[least], a[y])
  {
    least := i;
    for j := i + 1 to a.Length
      invariant i <= least < a.Length
      invariant forall y :: i <= y < j ==> Leq(a[least], a[y])
    {
      if Less(a[j], a[least]) { least := j; }
    }
  }

  method Swap(a: array<Cand>, i: nat, j: nat)
    requires i < a.Length && j < a.Length
    modifies a
    ensures a[..] == old(a[..][i := a[j]][j := a[i]])
    ensures multiset(a[..]) == old(multiset(a[..]))
  {
    a[i], a[j] := a[j], a[i];
  }

  /** A prefix that is sorted and nowhere above the rest holds the k best entries. */
  lemma SortedPrefix(s: seq<Cand>, k: nat)
    requires k <= |s|
    requires forall x, y :: 0 <= x < k && x < y < |s| ==> Leq(s[x], s[y])
    ensures s[..k] == TopK(multiset(s), k)
  {
    var tail := Ascending(multiset(s[k..]));
    RestAbove(s, k, tail);
    SplitMultiset(s, k);
    SortedConcat(s[..k], tail);
    TopKIsPrefix(s[..k], tail);
  }

  lemma RestAbove(s: seq<Cand>, k: nat, tail: seq<Cand>)
    requires k <= |s|
    requires forall x, y :: 0 <= x < k && x < y < |s| ==> Leq(s[x], s[y])
    requires multiset(tail) == multiset(s[k..])
    ensures forall x, y :: 0 <= x < k && 0 <= y < |tail| ==> Leq(s[..k][x], tail[y])
  {
    forall x, y | 0 <= x < k && 0 <= y < |tail| ensures Leq(s[x], tail[y]) {
      assert tail[y] in multiset(tail);
      assert tail[y] in s[k..];
    }
  }

  /** Scores every stored vector, in whatever order the hash map yields the ids. */
  method Collect(sp: Space, q: Vec) returns (distVec: seq<Cand>)
    ensures multiset(distVec) == multiset(sp.Scores(q, sp.vectors.Keys))
    ensures |distVec| == |sp.vectors.Keys|
  {
    distVec := [];
    var rest := sp.vectors.Keys;
    NoneDone(rest);
    while rest != {}
      invariant rest <= sp.vectors.Keys
      invariant multiset(distVec) == multiset(sp.Scores(q, sp.vectors.Keys - rest))
    {
      var id :| id in rest;
      NextDone(sp.vectors.Keys, rest, id);
      sp.ScoresAdd(q, sp.vectors.Keys - rest, id);
      distVec := distVec + [Cand(sp.metric(q, sp.vectors[id]), id)];
      rest := rest - {id};
    }
    NoneDone(sp.vectors.Keys);
    sp.ScoresSize(q, sp.vectors.Keys);
    assert |distVec| == |multiset(distVec)|;
  }

  method SearchForTopK(sp: Space, q: Vec, k0: nat) returns (results: seq<Cand>)
    ensures results == sp.Exact(q, sp.vectors.Keys, k0)
  {
    var size := |sp.vectors.Keys|;
    var k := if k0 > size then size else k0;
    var collected := Collect(sp, q);
    var distVec := ToArray(collected);
    PartialSort(distVec, k);
    results := Front(distVec, k);
  }

  method ToArray(s: seq<Cand>) returns (a: array<Cand>)
    ensures fresh(a) && a[..] == s
  {
    a := new Cand[|s|](i requires 0 <= i < |s| => s[i]);
  }

  method Front(a: array<Cand>, k: nat) returns (results: seq<Cand>)
    requires k <= a.Length
    ensures results == a[..k]
  {
    results := [];
    for i := 0 to k
      invariant results == a[..i]
    {
      results := results + [a[i]];
    }
  }
}
