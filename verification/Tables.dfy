/**
 Counted tables: the entries of a hash map written one after the other in the order
 of its iteration, and read back one by one.
*/
module Tables {
  import opened Batches
  import opened Bytes

  // ----- Lists -----

  function EncodeList<T>(enc: T -> Data, xs: seq<T>): Data {
    if xs == [] then [] else enc(xs[0]) + EncodeList(enc, xs[1..])
  }

  function ParseList<T>(one: Data -> Parsed<T>, n: nat, acc: seq<T>, bs: Data): Parsed<seq<T>>
    decreases n
  {
    if n == 0 then Parsed(acc, bs)
    else
      var (x, rest) :- one(bs);
      ParseList(one, n - 1, acc + [x], rest)
  }

  lemma {:induction false} ListRoundTrip<T>(one: Data -> Parsed<T>, enc: T -> Data, xs: seq<T>, acc: seq<T>, rest: Data)
    requires forall i, r {:trigger one(enc(xs[i]) + r)} :: 0 <= i < |xs| ==> one(enc(xs[i]) + r) == Parsed(xs[i], r)
    ensures ParseList(one, |xs|, acc, EncodeList(enc, xs) + rest) == Parsed(acc + xs, rest)
    decreases |xs|
  {
    if xs == [] {
      assert acc + xs == acc;
    } else {
      var tail := EncodeList(enc, xs[1..]);
      Assoc(enc(xs[0]), tail, rest);
      assert one(enc(xs[0]) + (tail + rest)) == Parsed(xs[0], tail + rest);
      ListRoundTrip(one, enc, xs[1..], acc + [xs[0]], rest);
      assert acc + [xs[0]] + xs[1..] == acc + xs;
    }
  }

  // ----- Tables -----

  ghost predicate Within<K>(order: seq<K>, keys: set<K>) {
    forall i :: 0 <= i < |order| ==> order[i] in keys
  }

  /** A hash map is written in the order of its iteration, some arrangement of its keys. */
  ghost predicate IsOrder<K(!new)>(order: seq<K>, keys: set<K>) {
    |order| == |keys| && Distinct(order) && forall k :: k in order <==> k in keys
  }

  /** Every set can be iterated. */
  lemma {:induction false} OrderExists<K(!new)>(keys: set<K>) returns (order: seq<K>)
    ensures IsOrder(order, keys) && Within(order, keys)
  {
    if keys == {} {
      order := [];
    } else {
      var k :| k in keys;
      var rest := OrderExists(keys - {k});
      order := rest + [k];
      OrderGrows(rest, keys - {k}, k);
      assert keys - {k} + {k} == keys;
    }
  }

  lemma OrderGrows<K(!new)>(order: seq<K>, done: set<K>, k: K)
    requires IsOrder(order, done) && Within(order, done) && k !in done
    ensures IsOrder(order + [k], done + {k}) && Within(order + [k], done + {k})
  {
  }

  function EncodeTable<K, V>(enc: (K, V) -> Data, order: seq<K>, m: map<K, V>): Data
    requires Within(order, m.Keys)
  {
    if order == [] then [] else enc(order[0], m[order[0]]) + EncodeTable(enc, order[1..], m)
  }

  /**
   Reads `n` entries into `acc`. An entry that is not recognised is skipped; an
   entry whose key is there already replaces the old one only if `overwrite`.
  */
  function ParseTable<K, V>(one: Data -> Parsed<Option<(K, V)>>, overwrite: bool, n: nat, acc: map<K, V>, bs: Data)
    : Parsed<map<K, V>>
    decreases n
  {
    if n == 0 then Parsed(acc, bs)
    else
      var (entry, rest) :- one(bs);
      ParseTable(one, overwrite, n - 1, Put(acc, entry, overwrite), rest)
  }

  function Put<K, V>(acc: map<K, V>, entry: Option<(K, V)>, overwrite: bool): map<K, V> {
    match entry
    case None => acc
    case Some(e) => if e.0 in acc && !overwrite then acc else acc[e.0 := e.1]
  }

  /** Whatever follows it, the written entry reads back as itself. */
  ghost predicate ReadsBack<K, V>(one: Data -> Parsed<Option<(K, V)>>, enc: (K, V) -> Data, k: K, v: V) {
    forall rest {:trigger one(enc(k, v) + rest)} :: one(enc(k, v) + rest) == Parsed(Some((k, v)), rest)
  }

  lemma TableStep<K, V>(one: Data -> Parsed<Option<(K, V)>>, enc: (K, V) -> Data, overwrite: bool, n: nat,
                        order: seq<K>, m: map<K, V>, acc: map<K, V>, rest: Data)
    requires n > 0 && order != [] && Within(order, m.Keys) && order[0] !in acc
    requires ReadsBack(one, enc, order[0], m[order[0]])
    ensures ParseTable(one, overwrite, n, acc, EncodeTable(enc, order, m) + rest) ==
      ParseTable(one, overwrite, n - 1, acc[order[0] := m[order[0]]], EncodeTable(enc, order[1..], m) + rest)
  {
    var first, tail := enc(order[0], m[order[0]]), EncodeTable(enc, order[1..], m);
    Assoc(first, tail, rest);
    assert one(first + (tail + rest)) == Parsed(Some((order[0], m[order[0]])), tail + rest);
  }

  function Only<K, V>(order: seq<K>, m: map<K, V>): map<K, V>
    requires Within(order, m.Keys)
  {
    map k | k in order :: m[k]
  }

  lemma OnlyNext<K, V>(order: seq<K>, m: map<K, V>, acc: map<K, V>)
    requires order != [] && Within(order, m.Keys)
    ensures acc[order[0] := m[order[0]]] + Only(order[1..], m) == acc + Only(order, m)
  {
  }

  lemma OnlyLast<K, V>(order: seq<K>, m: map<K, V>, acc: map<K, V>)
    requires order != [] && Within(order, m.Keys)
    ensures var last := order[|order| - 1];
      (acc + Only(order[..|order| - 1], m))[last := m[last]] == acc + Only(order, m)
  {
  }

  lemma OnlyAll<K(!new), V>(order: seq<K>, m: map<K, V>)
    requires IsOrder(order, m.Keys)
    ensures Within(order, m.Keys) && map[] + Only(order, m) == m
  {
  }

  lemma OnlyOver<K(!new), V>(order: seq<K>, m: map<K, V>, acc: map<K, V>)
    requires IsOrder(order, m.Keys)
    ensures Within(order, m.Keys) && acc + Only(order, m) == acc + m
  {
    OnlyAll(order, m);
    assert Only(order, m) == map[] + Only(order, m);
  }

  lemma {:induction false} TableRoundTrip<K, V>(one: Data -> Parsed<Option<(K, V)>>, enc: (K, V) -> Data,
                                                overwrite: bool, order: seq<K>, m: map<K, V>, acc: map<K, V>,
                                                rest: Data)
    requires Within(order, m.Keys) && Distinct(order)
    requires forall i :: 0 <= i < |order| ==> order[i] !in acc
    requires forall i :: 0 <= i < |order| ==> ReadsBack(one, enc, order[i], m[order[i]])
    ensures ParseTable(one, overwrite, |order|, acc, EncodeTable(enc, order, m) + rest) ==
      Parsed(acc + Only(order, m), rest)
    decreases |order|
  {
    if order == [] {
      assert acc + Only(order, m) == acc;
    } else {
      TableStep(one, enc, overwrite, |order|, order, m, acc, rest);
      TableRoundTrip(one, enc, overwrite, order[1..], m, acc[order[0] := m[order[0]]], rest);
      OnlyNext(order, m, acc);
    }
  }

  /** How many entries are written at all: some are encoded as nothing. */
  ghost function Written<K, V>(enc: (K, V) -> Data, order: seq<K>, m: map<K, V>): nat
    requires Within(order, m.Keys)
  {
    if order == [] then 0 else (if enc(order[0], m[order[0]]) == [] then 0 else 1) + Written(enc, order[1..], m)
  }

  lemma {:induction false} WrittenBound<K, V>(enc: (K, V) -> Data, order: seq<K>, m: map<K, V>)
    requires Within(order, m.Keys)
    ensures Written(enc, order, m) <= |order|
    ensures Written(enc, order, m) == |order| <==> forall i :: 0 <= i < |order| ==> enc(order[i], m[order[i]]) != []
    decreases |order|
  {
    if order != [] {
      WrittenBound(enc, order[1..], m);
      assert forall i :: 0 < i < |order| ==> order[i] == order[1..][i - 1];
    }
  }

  /** A count above the number of entries written runs off the end of the file. */
  lemma {:induction false} MissingEntries<K, V>(one: Data -> Parsed<Option<(K, V)>>, enc: (K, V) -> Data,
                                                overwrite: bool, n: nat, order: seq<K>, m: map<K, V>, acc: map<K, V>)
    requires Within(order, m.Keys) && Distinct(order) && one([]) == Short
    requires forall i :: 0 <= i < |order| ==> order[i] !in acc
    requires forall i :: 0 <= i < |order| && enc(order[i], m[order[i]]) != [] ==>
      ReadsBack(one, enc, order[i], m[order[i]])
    requires n > Written(enc, order, m)
    ensures ParseTable(one, overwrite, n, acc, EncodeTable(enc, order, m) + []) == Short
    decreases |order|
  {
    if order != [] {
      if enc(order[0], m[order[0]]) == [] {
        MissingEntries(one, enc, overwrite, n, order[1..], m, acc);
        assert EncodeTable(enc, order, m) == EncodeTable(enc, order[1..], m);
      } else {
        TableStep(one, enc, overwrite, n, order, m, acc, []);
        MissingEntries(one, enc, overwrite, n - 1, order[1..], m, acc[order[0] := m[order[0]]]);
      }
    }
  }

  /** What holds of every entry read holds of the whole table. */
  lemma {:induction false} TableValues<K, V>(one: Data -> Parsed<Option<(K, V)>>, overwrite: bool, n: nat,
                                             acc: map<K, V>, bs: Data, good: V -> bool)
    requires forall b {:trigger one(b)} :: one(b).Parsed? && one(b).value.Some? ==> good(one(b).value.value.1)
    requires forall k :: k in acc ==> good(acc[k])
    ensures var r := ParseTable(one, overwrite, n, acc, bs);
      r.Parsed? ==> forall k :: k in r.value ==> good(r.value[k])
    decreases n
  {
    if n > 0 && one(bs).Parsed? {
      var entry, rest := one(bs).value, one(bs).rest;
      var acc' := Put(acc, entry, overwrite);
      forall k | k in acc' ensures good(acc'[k]) {
        if entry.Some? { assert good(entry.value.1); }
      }
      TableValues(one, overwrite, n - 1, acc', rest, good);
      assert ParseTable(one, overwrite, n, acc, bs) == ParseTable(one, overwrite, n - 1, acc', rest);
    }
  }
}
