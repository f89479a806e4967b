/**
 * A JavaScript plain object with string keys, as the services use it for dictionaries:
 * the entries in insertion order, `Object.keys` and `Object.entries` list them in that
 * order, and assigning to a key that is already present changes its value but keeps its
 * place.
 */
module OrderedDict {
  import opened Wrappers

  type Dict<V> = seq<(string, V)>

  function Keys<V>(d: Dict<V>): (ks: seq<string>)
    ensures |ks| == |d|
    ensures forall i :: 0 <= i < |d| ==> ks[i] == d[i].0
  {
    seq(|d|, i requires 0 <= i < |d| => d[i].0)
  }

  /** No key is listed twice, which every JavaScript object satisfies. */
  predicate DistinctKeys<V>(d: Dict<V>)
  {
    forall i, j :: 0 <= i < j < |d| ==> d[i].0 != d[j].0
  }

  /** The position of `k`, or -1 when `k` is not a key. */
  function IndexOf<V>(d: Dict<V>, k: string): (r: int)
    ensures -1 <= r < |d|
    ensures r == -1 <==> forall i :: 0 <= i < |d| ==> d[i].0 != k
    ensures r >= 0 ==> d[r].0 == k && forall i :: 0 <= i < r ==> d[i].0 != k
    decreases |d|
  {
    if |d| == 0 then -1
    else if d[0].0 == k then 0
    else
      var r := IndexOf(d[1..], k);
      if r == -1 then -1 else r + 1
  }

  /** `d[k]`: the value stored under `k`, `None` for `undefined`. */
  function Get<V>(d: Dict<V>, k: string): (r: Option<V>)
    ensures r.Some? <==> k in Keys(d)
  {
    var i := IndexOf(d, k);
    if i < 0 then None else Some(d[i].1)
  }

  /** `d[k] = v`: a new key goes last, a present key keeps its position. */
  function Put<V>(d: Dict<V>, k: string, v: V): (r: Dict<V>)
    requires DistinctKeys(d)
    ensures DistinctKeys(r)
    ensures Get(r, k) == Some(v)
    ensures forall k' :: k' != k ==> Get(r, k') == Get(d, k')
    ensures k in Keys(d) ==> Keys(r) == Keys(d)
    ensures k !in Keys(d) ==> Keys(r) == Keys(d) + [k]
  {
    var i := IndexOf(d, k);
    if i < 0 then
      var r := d + [(k, v)];
      assert Keys(r) == Keys(d) + [k];
      forall k' | k' != k ensures Get(r, k') == Get(d, k') {
        DistinctLookup(r, k', |d|);
        if k' in Keys(d) {
          var j := IndexOf(d, k');
          DistinctLookup(r, k', j);
        }
      }
      r
    else
      var r := d[i := (k, v)];
      assert Keys(r) == Keys(d);
      DistinctLookup(r, k, i);
      forall k' | k' != k ensures Get(r, k') == Get(d, k') {
        if k' in Keys(d) {
          var j := IndexOf(d, k');
          DistinctLookup(r, k', j);
        }
      }
      r
  }

  /** In a dictionary without repeated keys the entry found for a key is its only entry. */
  lemma DistinctLookup<V>(d: Dict<V>, k: string, i: int)
    requires DistinctKeys(d)
    requires 0 <= i < |d|
    ensures d[i].0 == k ==> IndexOf(d, k) == i && Get(d, k) == Some(d[i].1)
    ensures d[i].0 != k && IndexOf(d, k) >= 0 ==> IndexOf(d, k) != i
  {
  }

  /** Assigning a key that is not present appends its entry. */
  lemma PutNew<V>(d: Dict<V>, k: string, v: V)
    requires DistinctKeys(d) && k !in Keys(d)
    ensures Put(d, k, v) == d + [(k, v)]
  {
    assert forall i :: 0 <= i < |d| ==> d[i].0 != k by {
      forall i | 0 <= i < |d| ensures d[i].0 != k {
        assert Keys(d)[i] == d[i].0;
      }
    }
  }

  /** Assigning a key twice leaves what the second assignment would have left alone. */
  lemma PutTwice<V>(d: Dict<V>, k: string, v1: V, v2: V)
    requires DistinctKeys(d)
    ensures Put(Put(d, k, v1), k, v2) == Put(d, k, v2)
  {
    var i := IndexOf(d, k);
    var once := Put(d, k, v1);
    if i < 0 {
      assert once == d + [(k, v1)];
      DistinctLookup(once, k, |d|);
      assert once[|d| := (k, v2)] == d + [(k, v2)];
    } else {
      assert once == d[i := (k, v1)];
      DistinctLookup(once, k, i);
      assert once[i := (k, v2)] == d[i := (k, v2)];
    }
  }
}
