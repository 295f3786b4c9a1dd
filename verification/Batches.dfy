/** What `collection::add_vectors` and `collection::remove_vectors` do to the map of vectors. */
module Batches {

  ghost predicate Distinct<T>(xs: seq<T>) {
    forall i, j :: 0 <= i < j < |xs| ==> xs[i] != xs[j]
  }

  function Elements<T>(xs: seq<T>): set<T> {
    set x | x in xs
  }

  /** Lines 26-40 of collection.cpp: entries are written in order, so a later one wins. */
  function Upserted<K, V>(vectors: map<K, V>, batch: seq<(K, V)>): map<K, V>
    decreases |batch|
  {
    if batch == [] then vectors else Upserted(vectors[batch[0].0 := batch[0].1], batch[1..])
  }

  function BatchIds<K, V>(batch: seq<(K, V)>): seq<K> {
    seq(|batch|, i requires 0 <= i < |batch| => batch[i].0)
  }

  /** The ids that `remove_vectors` really erases, in order: lines 67-75. */
  function Present<K(==)>(keys: set<K>, ids: seq<K>): seq<K>
    decreases |ids|
  {
    if ids == [] then []
    else if ids[0] in keys then [ids[0]] + Present(keys - {ids[0]}, ids[1..])
    else Present(keys, ids[1..])
  }

  /** Exactly the ids of the batch are touched. */
  lemma {:induction false} UpsertedFacts<K(!new), V>(vectors: map<K, V>, batch: seq<(K, V)>)
    ensures Upserted(vectors, batch).Keys == vectors.Keys + Elements(BatchIds(batch))
    ensures forall id :: id in vectors && id !in BatchIds(batch) ==> Upserted(vectors, batch)[id] == vectors[id]
    ensures forall id :: id in BatchIds(batch) ==>
      exists i :: 0 <= i < |batch| && batch[i] == (id, Upserted(vectors, batch)[id])
    decreases |batch|
  {
    if batch != [] {
      var first, rest := batch[0], batch[1..];
      UpsertedFacts(vectors[first.0 := first.1], rest);
      assert BatchIds(batch) == [first.0] + BatchIds(rest);
      forall id | id in BatchIds(batch)
        ensures exists i :: 0 <= i < |batch| && batch[i] == (id, Upserted(vectors, batch)[id])
      {
        if id in BatchIds(rest) {
          var i :| 0 <= i < |rest| && rest[i] == (id, Upserted(vectors, batch)[id]);
          assert batch[i + 1] == rest[i];
        } else {
          assert batch[0] == (id, Upserted(vectors, batch)[id]);
        }
      }
    }
  }

  /** Of several entries for one id, the last one stays. */
  lemma {:induction false} LastEntryStays<K(!new), V>(vectors: map<K, V>, batch: seq<(K, V)>, i: nat)
    requires i < |batch| && batch[i].0 !in BatchIds(batch[i + 1..])
    ensures batch[i].0 in Upserted(vectors, batch) && Upserted(vectors, batch)[batch[i].0] == batch[i].1
    decreases |batch|
  {
    var next := vectors[batch[0].0 := batch[0].1];
    if i == 0 {
      UpsertedFacts(next, batch[1..]);
    } else {
      assert batch[1..][i..] == batch[i + 1..];
      LastEntryStays(next, batch[1..], i - 1);
    }
  }

  /** The erased ids are the stored ones among `ids`, each once. */
  lemma {:induction false} PresentFacts<K(!new)>(keys: set<K>, ids: seq<K>)
    ensures forall i :: i in Present(keys, ids) <==> i in ids && i in keys
    ensures Distinct(Present(keys, ids))
    decreases |ids|
  {
    if ids != [] {
      assert ids == [ids[0]] + ids[1..];
      PresentFacts(keys - {ids[0]}, ids[1..]);
      PresentFacts(keys, ids[1..]);
    }
  }

  lemma NextEntry<K(!new), V>(vectors: map<K, V>, batch: seq<(K, V)>, i: nat)
    requires i < |batch|
    ensures Upserted(vectors, batch[i..]) == Upserted(vectors[batch[i].0 := batch[i].1], batch[i + 1..])
    ensures vectors[batch[i].0 := batch[i].1].Keys == vectors.Keys + {batch[i].0}
  {
  }

  lemma NextId<K(!new), V>(batch: seq<(K, V)>, i: nat)
    requires i < |batch|
    ensures BatchIds(batch[..i + 1]) == BatchIds(batch[..i]) + [batch[i].0]
  {
  }

  lemma KeyAdded<K(!new)>(before: set<K>, now: set<K>, id: K)
    requires before <= now
    ensures |now + {id} - before| == |now - before| + (if id in now then 0 else 1)
  {
  }

  /** The first `i` entries of the batch are written. */
  ghost predicate Upserting<K(!new), V>(vectors: map<K, V>, batch: seq<(K, V)>, i: nat, vectors': map<K, V>,
                                        ids: seq<K>, added: int, updated: int)
    requires i <= |batch|
  {
    && Upserted(vectors', batch[i..]) == Upserted(vectors, batch)
    && ids == BatchIds(batch[..i]) && vectors.Keys <= vectors'.Keys
    && added + updated == i && added == |vectors'.Keys - vectors.Keys|
  }

  lemma UpsertingNext<K(!new), V>(vectors: map<K, V>, batch: seq<(K, V)>, i: nat, vectors': map<K, V>, ids: seq<K>,
                                  added: int, updated: int)
    requires i < |batch| && Upserting(vectors, batch, i, vectors', ids, added, updated)
    ensures var (id, v) := batch[i];
      var fresh' := if id in vectors' then 0 else 1;
      Upserting(vectors, batch, i + 1, vectors'[id := v], ids + [id], added + fresh', updated + 1 - fresh')
  {
    NextEntry(vectors', batch, i);
    NextId(batch, i);
    KeyAdded(vectors.Keys, vectors'.Keys, batch[i].0);
  }

  /** Lines 26-40 as they run. */
  method UpsertAll<K(==,!new), V>(vectors: map<K, V>, batch: seq<(K, V)>)
    returns (vectors': map<K, V>, ids: seq<K>, added: nat, updated: nat)
    ensures vectors' == Upserted(vectors, batch) && ids == BatchIds(batch)
    ensures added + updated == |batch| && added == |vectors'.Keys - vectors.Keys|
  {
    vectors', ids, added, updated := vectors, [], 0, 0;
    assert vectors.Keys - vectors.Keys == {};
    for i := 0 to |batch|
      invariant Upserting(vectors, batch, i, vectors', ids, added, updated)
    {
      UpsertingNext(vectors, batch, i, vectors', ids, added, updated);
      var (id, v) := batch[i];
      ids := ids + [id];
      if id in vectors' {
        updated := updated + 1;
      } else {
        added := added + 1;
      }
      vectors' := vectors'[id := v];
    }
    assert batch[..|batch|] == batch;
  }

  lemma {:induction false} DistinctSize<K(!new)>(ids: seq<K>)
    requires Distinct(ids)
    ensures |Elements(ids)| == |ids|
    decreases |ids|
  {
    if ids != [] {
      DistinctSize(ids[1..]);
      assert ids == [ids[0]] + ids[1..];
      assert Elements(ids) == {ids[0]} + Elements(ids[1..]);
    }
  }

  /** What is erased is what was asked for, and the list of the erased counts it. */
  lemma ErasedCount<K(!new)>(keys: set<K>, ids: seq<K>)
    ensures var removed := Present(keys, ids);
      && keys - Elements(removed) == keys - Elements(ids)
      && |removed| == |keys - (keys - Elements(removed))|
  {
    PresentFacts(keys, ids);
    var removed := Present(keys, ids);
    DistinctSize(removed);
    var gone := Elements(removed);
    assert forall x :: x in gone ==> x in keys;
    assert keys - (keys - gone) == gone;
  }

  lemma ErasedKeys<K(!new), V>(vectors: map<K, V>, gone: set<K>, gone': set<K>)
    requires vectors.Keys - gone == vectors.Keys - gone'
    ensures vectors - gone == vectors - gone' && (vectors - gone).Keys == vectors.Keys - gone
  {
  }

  lemma NextPresent<K(!new)>(keys: set<K>, ids: seq<K>, i: nat)
    requires i < |ids|
    ensures Present(keys, ids[i..]) ==
      if ids[i] in keys then [ids[i]] + Present(keys - {ids[i]}, ids[i + 1..]) else Present(keys, ids[i + 1..])
  {
  }

  lemma OneErased<K(!new), V>(vectors: map<K, V>, removed: seq<K>, id: K)
    ensures var left := vectors - Elements(removed);
      && left - {id} == vectors - Elements(removed + [id])
      && (left - {id}).Keys == left.Keys - {id}
  {
  }

  /** Lines 67-75 as they run. */
  method EraseAll<K(==,!new), V>(vectors: map<K, V>, ids: seq<K>) returns (vectors': map<K, V>, removed: seq<K>)
    ensures removed == Present(vectors.Keys, ids)
    ensures vectors' == vectors - Elements(removed) && vectors' == vectors - Elements(ids)
    ensures |removed| == |vectors.Keys - vectors'.Keys|
  {
    vectors', removed := vectors, [];
    assert vectors.Keys - {} == vectors.Keys;
    for i := 0 to |ids|
      invariant vectors' == vectors - Elements(removed)
      invariant removed + Present(vectors'.Keys, ids[i..]) == Present(vectors.Keys, ids)
    {
      NextPresent(vectors'.Keys, ids, i);
      if ids[i] in vectors' {
        OneErased(vectors, removed, ids[i]);
        removed := removed + [ids[i]];
        vectors' := vectors' - {ids[i]};
      }
    }
    ErasedCount(vectors.Keys, ids);
    ErasedKeys(vectors, Elements(removed), Elements(ids));
  }
}
