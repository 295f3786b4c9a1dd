/**
 Scored entries and the one order in which every index ranks them: by distance,
 and by id between equal distances. `std::set`, `std::partial_sort` and the heaps
 of the program all compare (distance, id) pairs this way.
*/
module Ranking {

  type Id = nat

  /** A distance together with the id (or the cluster position) it belongs to. */
  datatype Cand = Cand(dist: real, id: Id)

  predicate Less(a: Cand, b: Cand) {
    a.dist < b.dist || (a.dist == b.dist && a.id < b.id)
  }

  predicate Leq(a: Cand, b: Cand) {
    a.dist < b.dist || (a.dist == b.dist && a.id <= b.id)
  }

  function Min(a: int, b: int): int {
    if a < b then a else b
  }

  function Max(a: int, b: int): int {
    if a < b then b else a
  }

  /** `*s.begin()` of an ordered set. */
  function Least(s: set<Cand>): (m: Cand)
    requires s != {}
    ensures m in s && forall c :: c in s ==> Leq(m, c)
  {
    LeastExists(s);
    var m :| m in s && forall c :: c in s ==> Leq(m, c);
    m
  }

  /** `*s.rbegin()` of an ordered set. */
  function Greatest(s: set<Cand>): (m: Cand)
    requires s != {}
    ensures m in s && forall c :: c in s ==> Leq(c, m)
  {
    GreatestExists(s);
    var m :| m in s && forall c :: c in s ==> Leq(c, m);
    m
  }

  lemma {:induction false} LeastExists(s: set<Cand>)
    requires s != {}
    ensures exists m :: m in s && forall c :: c in s ==> Leq(m, c)
  {
    var x :| x in s;
    if s != {x} {
      LeastExists(s - {x});
      var m :| m in s - {x} && forall c :: c in s - {x} ==> Leq(m, c);
      var best := if Less(x, m) then x else m;
      assert best in s && forall c :: c in s ==> Leq(best, c) by {
        assert forall c :: c in s ==> c == x || c in s - {x};
      }
    } else {
      assert x in s && forall c :: c in s ==> Leq(x, c);
    }
  }

  lemma {:induction false} GreatestExists(s: set<Cand>)
    requires s != {}
    ensures exists m :: m in s && forall c :: c in s ==> Leq(c, m)
  {
    var x :| x in s;
    if s != {x} {
      GreatestExists(s - {x});
      var m :| m in s - {x} && forall c :: c in s - {x} ==> Leq(c, m);
      var best := if Less(m, x) then x else m;
      assert best in s && forall c :: c in s ==> Leq(c, best) by {
        assert forall c :: c in s ==> c == x || c in s - {x};
      }
    } else {
      assert x in s && forall c :: c in s ==> Leq(c, x);
    }
  }

  // ----- Ascending enumerations -----

  ghost predicate Sorted(s: seq<Cand>) {
    forall i, j :: 0 <= i < j < |s| ==> Leq(s[i], s[j])
  }

  function Support(m: multiset<Cand>): set<Cand> {
    set c | c in m
  }

  /** The elements of `m`, repetitions included, in ascending order. */
  function Ascending(m: multiset<Cand>): (s: seq<Cand>)
    ensures multiset(s) == m
    ensures |s| == |m|
    ensures Sorted(s)
    decreases |m|
  {
    if m == multiset{} then []
    else
      var c := LeastOf(m);
      var rest := Ascending(m - multiset{c});
      PrependLeast(m, c, rest);
      [c] + rest
  }

  /** The first element of a non-empty ordered multiset. */
  function LeastOf(m: multiset<Cand>): (c: Cand)
    requires m != multiset{}
    ensures c in m && forall x :: x in m ==> Leq(c, x)
  {
    assert Support(m) != {} by { var c :| c in m; assert c in Support(m); }
    assert forall x :: x in m ==> x in Support(m);
    Least(Support(m))
  }

  lemma PrependLeast(m: multiset<Cand>, c: Cand, rest: seq<Cand>)
    requires c in m && forall x :: x in m ==> Leq(c, x)
    requires multiset(rest) == m - multiset{c} && Sorted(rest)
    ensures multiset([c] + rest) == m && Sorted([c] + rest)
  {
  }

  /** The answer of an exact search: the min(k, |m|) best entries, best first. */
  function TopK(m: multiset<Cand>, k: nat): (s: seq<Cand>)
    ensures |s| == Min(k, |m|)
    ensures s <= Ascending(m)
  {
    Ascending(m)[..Min(k, |m|)]
  }

  /** Ascending order fixes the sequence: a sorted arrangement is the only one. */
  lemma {:induction false} SortedIsAscending(s: seq<Cand>)
    requires Sorted(s)
    ensures s == Ascending(multiset(s))
    decreases |s|
  {
    var m := multiset(s);
    if s == [] {
      assert m == multiset{};
    } else {
      assert s[0] in m;
      assert s == [s[0]] + s[1..];
      var c := LeastOf(m);
      assert c in m && c in s;
      var i :| 0 <= i < |s| && s[i] == c;
      assert s[0] in m;
      assert c == s[0];
      assert m - multiset{c} == multiset(s[1..]);
      SortedIsAscending(s[1..]);
    }
  }

  lemma SortedConcat(s: seq<Cand>, t: seq<Cand>)
    requires Sorted(s) && Sorted(t)
    requires forall i, j :: 0 <= i < |s| && 0 <= j < |t| ==> Leq(s[i], t[j])
    ensures Sorted(s + t)
  {
  }

  lemma SplitMultiset(s: seq<Cand>, k: nat)
    requires k <= |s|
    ensures multiset(s[..k]) + multiset(s[k..]) == multiset(s)
  {
    assert s == s[..k] + s[k..];
  }

  lemma TopKIsPrefix(s: seq<Cand>, t: seq<Cand>)
    requires Sorted(s + t)
    ensures s == TopK(multiset(s) + multiset(t), |s|)
  {
    SortedIsAscending(s + t);
    assert (s + t)[..|s|] == s;
  }

  lemma SameSize<T>(small: set<T>, big: set<T>)
    requires small <= big && |small| >= |big|
    ensures small == big
  {
    assert big == small + (big - small);
  }

  /** Enumerating an ordered set starts with its least element. */
  lemma AscendingSet(s: set<Cand>)
    requires s != {}
    ensures Ascending(multiset(s)) == [Least(s)] + Ascending(multiset(s - {Least(s)}))
  {
    var c := Least(s);
    var rest := Ascending(multiset(s - {c}));
    assert multiset(s) == multiset(s - {c}) + multiset{c};
    PrependLeast(multiset(s), c, rest);
    SortedIsAscending([c] + rest);
  }

  lemma SubsetSize<T>(small: set<T>, big: set<T>)
    requires small <= big
    ensures |small| <= |big|
  {
    assert big == small + (big - small);
  }
}
