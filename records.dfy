/**
 * A JavaScript object used as a dictionary (`Record<string, Aircraft>`):
 * its entries together with the order in which its keys were inserted,
 * which is the order `Object.values` and `Object.keys` report them in.
 * Assigning to an existing key keeps its place; a new key goes last;
 * `delete` removes the key from the order.
 */
module Records {

  datatype Record<K(==, !new), V> = Record(keys: seq<K>, entries: map<K, V>)

  predicate Distinct<K(==, !new)>(s: seq<K>) {
    forall i, j | 0 <= i < j < |s| :: s[i] != s[j]
  }

  /** The key order lists every key of the dictionary exactly once. */
  ghost predicate Valid<K(!new), V>(r: Record<K, V>) {
    Distinct(r.keys) && forall k :: k in r.keys <==> k in r.entries
  }

  /** `obj[k] = v` */
  function Put<K(==, !new), V>(r: Record<K, V>, k: K, v: V): (r': Record<K, V>)
    ensures Valid(r) ==> Valid(r')
    ensures r'.entries == r.entries[k := v]
    ensures k in r.entries ==> r'.keys == r.keys
    ensures k !in r.entries ==> r'.keys == r.keys + [k]
  {
    Record(if k in r.entries then r.keys else r.keys + [k], r.entries[k := v])
  }

  /** Writing a key twice, the second time with its original value, gives back the dictionary. */
  lemma PutBack<K(!new), V>(r: Record<K, V>, k: K, v: V)
    requires k in r.entries
    ensures Put(Put(r, k, v), k, r.entries[k]) == r
  {
    assert r.entries[k := v][k := r.entries[k]] == r.entries;
  }

  /** A second write to the same key overrides the first. */
  lemma PutTwice<K(!new), V>(r: Record<K, V>, k: K, v: V, w: V)
    ensures Put(Put(r, k, v), k, w) == Put(r, k, w)
  {
    assert r.entries[k := v][k := w] == r.entries[k := w];
  }

  /** The key order with `k` taken out, everything else in place. */
  function Drop<K(==, !new)>(keys: seq<K>, k: K): (r: seq<K>)
    ensures forall x :: x in r <==> x in keys && x != k
    ensures Distinct(keys) ==> Distinct(r)
    ensures |r| <= |keys|
  {
    if keys == [] then []
    else
      var rest := Drop(keys[1..], k);
      assert Distinct(keys) ==> keys[0] !in keys[1..];
      if keys[0] == k then rest else [keys[0]] + rest
  }

  /** `delete obj[k]` */
  function Remove<K(==, !new), V>(r: Record<K, V>, k: K): (r': Record<K, V>)
    ensures Valid(r) ==> Valid(r')
    ensures r'.entries == r.entries - {k}
  {
    Record(Drop(r.keys, k), r.entries - {k})
  }

  /** Dropping a key that is not there changes nothing. */
  lemma {:induction false} DropAbsent<K(!new)>(keys: seq<K>, k: K)
    requires k !in keys
    ensures Drop(keys, k) == keys
  {
    if keys != [] {
      DropAbsent(keys[1..], k);
    }
  }

  /** Dropping the key that was appended last gives back the order before the append. */
  lemma DropLastAppended<K(!new)>(keys: seq<K>, k: K)
    requires k !in keys
    ensures Drop(keys + [k], k) == keys
  {
    DropAppend(keys, [k], k);
    DropAbsent(keys, k);
  }

  lemma {:induction false} DropAppend<K(!new)>(a: seq<K>, b: seq<K>, k: K)
    ensures Drop(a + b, k) == Drop(a, k) + Drop(b, k)
  {
    if a == [] {
      assert a + b == b;
    } else {
      assert (a + b)[1..] == a[1..] + b;
      DropAppend(a[1..], b, k);
    }
  }
}
