/**
 * java.util.LinkedHashMap as far as the core uses it: `put`, which replaces
 * the value of a key already present without moving it and appends a new
 * key at the end, and iteration in insertion order.
 */
module LinkedMaps {

  /** The keys in insertion order and the value of each. */
  datatype LinkedMap<K(==, !new), V> = LinkedMap(keys: seq<K>, values: map<K, V>) {

    /** Every key once, and exactly the keys that have a value. */
    ghost predicate Valid() {
      (forall i, j :: 0 <= i < j < |keys| ==> keys[i] != keys[j])
      && (forall k :: k in values <==> k in keys)
    }

    /** `put(k, v)` */
    function Put(k: K, v: V): (r: LinkedMap<K, V>)
      ensures r.values == values[k := v]
      ensures keys <= r.keys && |r.keys| <= |keys| + 1
      ensures k in r.keys && forall x :: x in r.keys ==> x in keys || x == k
    {
      LinkedMap(if k in keys then keys else keys + [k], values[k := v])
    }
  }

  /** `put` keeps the map well formed: a new key is not among the keys already there. */
  lemma {:induction false} PutValid<K(!new), V>(m: LinkedMap<K, V>, k: K, v: V)
    requires m.Valid()
    ensures m.Put(k, v).Valid()
  {
    if k !in m.keys {
      var keys := m.keys + [k];
      forall i, j | 0 <= i < j < |keys|
        ensures keys[i] != keys[j]
      {
        if j == |m.keys| {
          assert keys[i] == m.keys[i];
        }
      }
    }
  }

  function Empty<K(==, !new), V>(): (r: LinkedMap<K, V>)
    ensures r.Valid() && r.keys == [] && r.values == map[]
  {
    LinkedMap([], map[])
  }

  /** The entries `put` one after the other. */
  function PutAll<K(==, !new), V>(m: LinkedMap<K, V>, entries: seq<(K, V)>): LinkedMap<K, V>
    decreases |entries|
  {
    if entries == [] then m else PutAll(m.Put(entries[0].0, entries[0].1), entries[1..])
  }

  /** Putting a concatenation is putting one part, then the other. */
  lemma {:induction false} PutAllAppend<K(!new), V>(m: LinkedMap<K, V>, a: seq<(K, V)>, b: seq<(K, V)>)
    ensures PutAll(m, a + b) == PutAll(PutAll(m, a), b)
    decreases |a|
  {
    if a == [] {
      assert a + b == b;
    } else {
      assert (a + b)[0] == a[0];
      assert (a + b)[1..] == a[1..] + b;
      PutAllAppend(m.Put(a[0].0, a[0].1), a[1..], b);
    }
  }

  /** Putting one entry is one `put`. */
  lemma {:induction false} PutAllOne<K(!new), V>(m: LinkedMap<K, V>, k: K, v: V)
    ensures PutAll(m, [(k, v)]) == m.Put(k, v)
  {
    assert [(k, v)][1..] == [];
  }

  /** Whether some entry has key `k`. */
  predicate HasKey<K(==, !new), V>(entries: seq<(K, V)>, k: K) {
    exists i :: 0 <= i < |entries| && entries[i].0 == k
  }

  /** `put`ting keeps the map well formed, and the keys already present keep their places at the front. */
  lemma {:induction false} PutAllValid<K(!new), V>(m: LinkedMap<K, V>, entries: seq<(K, V)>)
    requires m.Valid()
    ensures PutAll(m, entries).Valid() && m.keys <= PutAll(m, entries).keys
    decreases |entries|
  {
    if entries != [] {
      PutValid(m, entries[0].0, entries[0].1);
      PutAllValid(m.Put(entries[0].0, entries[0].1), entries[1..]);
    }
  }

  /** A key is present afterwards when it was before, or when some entry has it. */
  lemma {:induction false} PutAllKeys<K(!new), V>(m: LinkedMap<K, V>, entries: seq<(K, V)>, k: K)
    ensures k in PutAll(m, entries).keys <==> k in m.keys || HasKey(entries, k)
    decreases |entries|
  {
    if entries != [] {
      var tail := entries[1..];
      PutAllKeys(m.Put(entries[0].0, entries[0].1), tail, k);
      if HasKey(tail, k) {
        var i :| 0 <= i < |tail| && tail[i].0 == k;
        assert entries[i + 1].0 == k;
      }
      if HasKey(entries, k) && k != entries[0].0 {
        var i :| 0 <= i < |entries| && entries[i].0 == k;
        assert tail[i - 1].0 == k;
      }
    }
  }

  /** The value of a key is that of the LAST entry with that key: a later `put` wins. */
  lemma {:induction false} PutAllLastWins<K(!new), V>(m: LinkedMap<K, V>, entries: seq<(K, V)>, i: nat)
    requires i < |entries| && forall j :: i < j < |entries| ==> entries[j].0 != entries[i].0
    ensures entries[i].0 in PutAll(m, entries).values
    ensures PutAll(m, entries).values[entries[i].0] == entries[i].1
    decreases |entries|
  {
    var tail := entries[1..];
    var m' := m.Put(entries[0].0, entries[0].1);
    if i == 0 {
      assert !HasKey(tail, entries[0].0) by {
        forall j | 0 <= j < |tail|
          ensures tail[j].0 != entries[0].0
        {
          assert tail[j] == entries[j + 1];
        }
      }
      PutAllUntouched(m', tail, entries[0].0);
    } else {
      assert tail[i - 1] == entries[i];
      assert forall j :: i - 1 < j < |tail| ==> tail[j] == entries[j + 1];
      PutAllLastWins(m', tail, i - 1);
    }
  }

  /** A key no entry has keeps its value. */
  lemma {:induction false} PutAllUntouched<K(!new), V>(m: LinkedMap<K, V>, entries: seq<(K, V)>, k: K)
    requires k in m.values && !HasKey(entries, k)
    ensures k in PutAll(m, entries).values && PutAll(m, entries).values[k] == m.values[k]
    decreases |entries|
  {
    if entries != [] {
      var tail := entries[1..];
      assert entries[0].0 != k;
      assert !HasKey(tail, k) by {
        forall j | 0 <= j < |tail|
          ensures tail[j].0 != k
        {
          assert tail[j] == entries[j + 1];
        }
      }
      PutAllUntouched(m.Put(entries[0].0, entries[0].1), tail, k);
    }
  }
}
