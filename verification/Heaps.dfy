/** The bounded max-heap of the IVF search, and how answers grow with what they are drawn from. */
module Heaps {
  import opened Ranking

  /** `pq_results.top()`: the worst entry kept. */
  function Top(heap: multiset<Cand>): (c: Cand)
    requires heap != multiset{}
    ensures c in heap && forall x :: x in heap ==> Leq(x, c)
  {
    assert Support(heap) != {} by { var c :| c in heap; assert c in Support(heap); }
    assert forall x :: x in heap ==> x in Support(heap);
    Greatest(Support(heap))
  }

  /** `heap` holds the min(k, |seen|) best entries of `seen`. */
  ghost predicate IsBest(heap: multiset<Cand>, seen: multiset<Cand>, k: nat) {
    && heap <= seen
    && |heap| == Min(k, |seen|)
    && forall a, b {:trigger Leq(a, b)} :: a in heap && b in seen - heap ==> Leq(a, b)
  }

  lemma LeqTransitive(a: Cand, b: Cand, c: Cand)
    requires Leq(a, b) && Leq(b, c)
    ensures Leq(a, c)
  {
  }

  /** Lines 104-106 of ivfflat.cpp. */
  method Push(heap: multiset<Cand>, ghost seen: multiset<Cand>, c: Cand, k: nat) returns (heap': multiset<Cand>)
    requires IsBest(heap, seen, k)
    ensures IsBest(heap', seen + multiset{c}, k)
  {
    heap' := heap + multiset{c};
    if |heap'| > k {
      PushFull(heap, seen, c, k, Top(heap'));
      heap' := heap' - multiset{Top(heap')};
    } else {
      PushRoom(heap, seen, c, k);
    }
  }

  lemma PushRoom(heap: multiset<Cand>, seen: multiset<Cand>, c: Cand, k: nat)
    requires IsBest(heap, seen, k) && |heap| < k
    ensures IsBest(heap + multiset{c}, seen + multiset{c}, k)
  {
    assert seen == heap + (seen - heap);
    assert |seen - heap| == 0;
    assert heap == seen;
  }

  lemma PushFull(heap: multiset<Cand>, seen: multiset<Cand>, c: Cand, k: nat, top: Cand)
    requires IsBest(heap, seen, k) && |heap| == k
    requires top in heap + multiset{c} && forall x :: x in heap + multiset{c} ==> Leq(x, top)
    ensures IsBest(heap + multiset{c} - multiset{top}, seen + multiset{c}, k)
  {
    var heap' := heap + multiset{c} - multiset{top};
    var rest := seen - heap;
    assert (seen + multiset{c}) - heap' == rest + multiset{top} by {
      assert seen == heap + rest;
    }
    forall a, b | a in heap' && b in (seen + multiset{c}) - heap' ensures Leq(a, b) {
      assert a in heap + multiset{c};
      if b != top {
        assert b in rest;
        if a in heap {
          assert Leq(a, b);
        } else {
          assert a == c && top in heap;
          LeqTransitive(a, top, b);
        }
      }
    }
  }

  /** The best entries are the first ones of the ascending enumeration. */
  lemma BestIsTopK(heap: multiset<Cand>, seen: multiset<Cand>, k: nat)
    requires IsBest(heap, seen, k)
    ensures Ascending(heap) == TopK(seen, k)
  {
    assert heap + (seen - heap) == seen;
    LowFirst(heap, seen - heap);
  }

  lemma LowFirst(low: multiset<Cand>, high: multiset<Cand>)
    requires forall a, b {:trigger Leq(a, b)} :: a in low && b in high ==> Leq(a, b)
    ensures Ascending(low) == TopK(low + high, |low|)
  {
    LowBelowHigh(low, high);
    SortedConcat(Ascending(low), Ascending(high));
    TopKIsPrefix(Ascending(low), Ascending(high));
  }

  lemma LowBelowHigh(low: multiset<Cand>, high: multiset<Cand>)
    requires forall a, b {:trigger Leq(a, b)} :: a in low && b in high ==> Leq(a, b)
    ensures forall i, j :: 0 <= i < |Ascending(low)| && 0 <= j < |Ascending(high)| ==>
      Leq(Ascending(low)[i], Ascending(high)[j])
  {
    var s, t := Ascending(low), Ascending(high);
    forall i, j | 0 <= i < |s| && 0 <= j < |t| ensures Leq(s[i], t[j]) {
      assert s[i] in multiset(s) && t[j] in multiset(t);
    }
  }

  function Reversed(s: seq<Cand>): (r: seq<Cand>)
    ensures |r| == |s|
    ensures forall i :: 0 <= i < |s| ==> r[i] == s[|s| - 1 - i]
  {
    if s == [] then [] else [s[|s| - 1]] + Reversed(s[..|s| - 1])
  }

  /** Lines 111-117: pop the worst entries first, then reverse. */
  method Drain(heap0: multiset<Cand>) returns (results: seq<Cand>)
    ensures results == Ascending(heap0)
  {
    results := [];
    var heap := heap0;
    while heap != multiset{}
      invariant Ascending(heap0) == Ascending(heap) + Reversed(results)
      decreases |heap|
    {
      var top := Top(heap);
      PopStep(heap, results, top);
      results, heap := results + [top], heap - multiset{top};
    }
    results := Reversed(results);
  }

  lemma TopIsLast(heap: multiset<Cand>, top: Cand)
    requires top in heap && forall x :: x in heap ==> Leq(x, top)
    ensures Ascending(heap) == Ascending(heap - multiset{top}) + [top]
  {
    var low := Ascending(heap - multiset{top});
    AppendGreatest(heap, top, low);
    SortedIsAscending(low + [top]);
  }

  lemma AppendGreatest(heap: multiset<Cand>, top: Cand, low: seq<Cand>)
    requires top in heap && forall x :: x in heap ==> Leq(x, top)
    requires multiset(low) == heap - multiset{top} && Sorted(low)
    ensures multiset(low + [top]) == heap && Sorted(low + [top])
  {
  }

  lemma ReversedAppend(results: seq<Cand>, top: Cand)
    ensures Reversed(results + [top]) == [top] + Reversed(results)
  {
  }

  lemma PopStep(heap: multiset<Cand>, results: seq<Cand>, top: Cand)
    requires top in heap && forall x :: x in heap ==> Leq(x, top)
    ensures Ascending(heap) + Reversed(results) == Ascending(heap - multiset{top}) + Reversed(results + [top])
  {
    TopIsLast(heap, top);
    ReversedAppend(results, top);
    Reassociate(Ascending(heap - multiset{top}), top, Reversed(results));
  }

  lemma Reassociate(low: seq<Cand>, c: Cand, high: seq<Cand>)
    ensures (low + [c]) + high == low + ([c] + high)
  {
  }

  // ----- Searching more never answers worse -----

  lemma SubmultisetSize<T>(a: multiset<T>, b: multiset<T>)
    requires a <= b
    ensures |a| <= |b|
  {
    assert b == a + (b - a);
  }

  /** The i-th best of a larger collection is no worse. */
  lemma SortedMonotone(s: seq<Cand>, t: seq<Cand>, i: nat)
    requires Sorted(s) && Sorted(t) && multiset(s) <= multiset(t) && i < |s| && i < |t|
    ensures Leq(t[i], s[i])
  {
    var low, below, above := multiset(s[..i + 1]), multiset(t[..i]), multiset(t[i..]);
    SplitMultiset(s, i + 1);
    SplitMultiset(t, i);
    if !Leq(t[i], s[i]) {
      forall x ensures low[x] <= below[x] {
        if x in low {
          NotAbove(s, t, i, x);
          assert multiset(s)[x] <= multiset(t)[x];
        }
      }
      SubmultisetSize(low, below);
    }
  }

  lemma NotAbove(s: seq<Cand>, t: seq<Cand>, i: nat, x: Cand)
    requires Sorted(s) && Sorted(t) && i < |s| && i < |t| && !Leq(t[i], s[i])
    requires x in multiset(s[..i + 1])
    ensures x !in multiset(t[i..])
  {
  }

  lemma TopKMonotone(small: multiset<Cand>, big: multiset<Cand>, k: nat)
    requires small <= big
    ensures |TopK(small, k)| <= |TopK(big, k)|
    ensures forall i :: 0 <= i < |TopK(small, k)| ==> Leq(TopK(big, k)[i], TopK(small, k)[i])
  {
    SubmultisetSize(small, big);
    forall i | 0 <= i < |TopK(small, k)| ensures Leq(TopK(big, k)[i], TopK(small, k)[i]) {
      SortedMonotone(Ascending(small), Ascending(big), i);
    }
  }
}
