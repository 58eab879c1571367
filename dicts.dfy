/**
 * Python dictionaries keyed by strings. A dictionary remembers insertion order,
 * so it is modelled as a sequence of (key, value) pairs with distinct keys.
 */
module Dicts {
  import opened Wrappers

  type Dict<V> = seq<(string, V)>

  /** The keys in insertion order (`list(d)`). */
  function Keys<V>(d: Dict<V>): seq<string>
  {
    seq(|d|, i requires 0 <= i < |d| => d[i].0)
  }

  /** Every key occurs once: the invariant of every Python dictionary. */
  predicate DistinctKeys<V>(d: Dict<V>)
  {
    forall i, j :: 0 <= i < j < |d| ==> d[i].0 != d[j].0
  }

  /** `d.get(k)`: the value stored under `k`, if any. */
  function Get<V>(d: Dict<V>, k: string): (r: Option<V>)
    ensures r.Some? <==> k in Keys(d)
    ensures r.Some? ==> exists i :: 0 <= i < |d| && d[i] == (k, r.value)
    ensures DistinctKeys(d) ==> forall i :: 0 <= i < |d| && d[i].0 == k ==> r == Some(d[i].1)
  {
    if d == [] then None
    else if d[0].0 == k then
      assert Keys(d)[0] == k;
      Some(d[0].1)
    else
      var r := Get(d[1..], k);
      assert Keys(d) == [d[0].0] + Keys(d[1..]);
      r
  }

  /**
   * `d[k] = v`: an existing key keeps its position and gets the new value,
   * a new key is appended at the end.
   */
  function Store<V>(d: Dict<V>, k: string, v: V): (r: Dict<V>)
    requires DistinctKeys(d)
    ensures DistinctKeys(r)
    ensures k !in Keys(d) ==> r == d + [(k, v)]
    ensures k in Keys(d) ==> |r| == |d| && forall i :: 0 <= i < |d| ==> r[i] == if d[i].0 == k then (k, v) else d[i]
  {
    if d == [] then [(k, v)]
    else if d[0].0 == k then
      assert Keys(d)[0] == k;
      assert forall i :: 0 < i < |d| ==> d[i].0 != k;
      assert Keys([(k, v)] + d[1..]) == Keys(d);
      [(k, v)] + d[1..]
    else
      var r := Store(d[1..], k, v);
      assert Keys(d) == [d[0].0] + Keys(d[1..]);
      [d[0]] + r
  }

  /** After `d[k] = v`, `k` maps to `v` and every other key keeps its value. */
  lemma StoreGet<V>(d: Dict<V>, k: string, v: V)
    requires DistinctKeys(d)
    ensures Get(Store(d, k, v), k) == Some(v)
    ensures forall k' :: k' != k ==> Get(Store(d, k, v), k') == Get(d, k')
  {
    var r := Store(d, k, v);
    if k !in Keys(d) {
      assert r[|d|] == (k, v);
      forall k' | k' != k ensures Get(r, k') == Get(d, k') {
        if k' in Keys(d) {
          var i :| 0 <= i < |d| && Keys(d)[i] == k';
          assert r[i] == d[i];
        } else {
          forall i | 0 <= i < |r| ensures Keys(r)[i] != k' {
            if i < |d| { assert r[i] == d[i] && Keys(d)[i] == d[i].0; }
          }
        }
      }
    } else {
      var i :| 0 <= i < |d| && Keys(d)[i] == k;
      assert r[i] == (k, v);
      forall k' | k' != k ensures Get(r, k') == Get(d, k') {
        assert forall j :: 0 <= j < |d| ==> r[j].0 == d[j].0;
        assert Keys(r) == Keys(d);
        if k' in Keys(d) {
          var j :| 0 <= j < |d| && Keys(d)[j] == k';
          assert r[j] == d[j];
        }
      }
    }
  }
}
