/** Insertion-ordered dictionaries, the way Python's `dict` behaves: assigning
    to an existing key keeps its position and replaces its value, assigning to
    a new key appends it. */
module Dict {
  import opened Wrappers

  type Dict<K, V> = seq<(K, V)>

  /** The keys present in `d`. */
  function KeySet<K, V>(d: Dict<K, V>): set<K> {
    if d == [] then {} else {d[0].0} + KeySet(d[1..])
  }

  /** No key occurs twice. */
  predicate DistinctKeys<K(==), V>(d: Dict<K, V>) {
    d == [] || (d[0].0 !in KeySet(d[1..]) && DistinctKeys(d[1..]))
  }

  /** `d.get(k)`: the value stored under `k`, if any. */
  function Get<K(==), V>(d: Dict<K, V>, k: K): (r: Option<V>)
    ensures r.Some? <==> k in KeySet(d)
  {
    if d == [] then None
    else if d[0].0 == k then Some(d[0].1)
    else Get(d[1..], k)
  }

  /** `d[k] = v`. */
  function Put<K(==,!new), V>(d: Dict<K, V>, k: K, v: V): (r: Dict<K, V>)
    ensures Get(r, k) == Some(v)
    ensures forall k' :: k' != k ==> Get(r, k') == Get(d, k')
    ensures KeySet(r) == KeySet(d) + {k}
    ensures k !in KeySet(d) ==> r == d + [(k, v)]
    ensures DistinctKeys(d) ==> DistinctKeys(r)
    ensures DistinctKeys(d) && k in KeySet(d) ==>
      && |r| == |d|
      && forall i :: 0 <= i < |d| ==> r[i] == (if d[i].0 == k then (k, v) else d[i])
  {
    if d == [] then [(k, v)]
    else if d[0].0 == k then
      assert forall i :: 0 < i < |d| ==> d[i].0 in KeySet(d[1..]) by {
        forall i | 0 < i < |d| ensures d[i].0 in KeySet(d[1..]) {
          KeyAt(d[1..], i - 1);
        }
      }
      [(k, v)] + d[1..]
    else
      var rest := Put(d[1..], k, v);
      assert ([d[0]] + rest)[1..] == rest;
      [d[0]] + rest
  }

  /** Every entry's key is one of the dictionary's keys. */
  lemma {:induction false} KeyAt<K, V>(d: Dict<K, V>, i: int)
    requires 0 <= i < |d|
    ensures d[i].0 in KeySet(d)
  {
    if i > 0 {
      assert d[1..][i - 1] == d[i];
      KeyAt(d[1..], i - 1);
    }
  }

  /** In a dictionary with distinct keys, `Get` finds the one entry with that key. */
  lemma {:induction false} GetAt<K, V>(d: Dict<K, V>, i: int)
    requires DistinctKeys(d)
    requires 0 <= i < |d|
    ensures Get(d, d[i].0) == Some(d[i].1)
  {
    if i > 0 {
      assert d[1..][i - 1] == d[i];
      GetAt(d[1..], i - 1);
    }
  }
}
