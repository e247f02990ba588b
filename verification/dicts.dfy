/**
 Python dictionaries keep their keys in insertion order, and the dashboard
 depends on that order (filters are applied in it, SQL column lists are
 written in it). A dictionary is modelled as a sequence of key/value pairs.
 */
module Dicts {
  import opened Wrappers

  type Dict<K, V> = seq<(K, V)>

  function Keys<K, V>(d: Dict<K, V>): (ks: seq<K>)
    ensures |ks| == |d|
    ensures forall i :: 0 <= i < |d| ==> ks[i] == d[i].0
  {
    if |d| == 0 then [] else [d[0].0] + Keys(d[1..])
  }

  function Values<K, V>(d: Dict<K, V>): (vs: seq<V>)
    ensures |vs| == |d|
    ensures forall i :: 0 <= i < |d| ==> vs[i] == d[i].1
  {
    seq(|d|, i requires 0 <= i < |d| => d[i].1)
  }

  /** No key occurs twice: the shape every real Python dict has. */
  predicate DistinctKeys<K(==), V>(d: Dict<K, V>) {
    forall i, j :: 0 <= i < j < |d| ==> d[i].0 != d[j].0
  }

  /** `d.get(k)`: the value stored under the first occurrence of `k`. */
  function Get<K(==), V>(d: Dict<K, V>, k: K): (r: Option<V>)
    ensures r.None? <==> k !in Keys(d)
  {
    if |d| == 0 then None
    else if d[0].0 == k then Some(d[0].1)
    else Get(d[1..], k)
  }

  /** In a dict with distinct keys, looking up the key of any entry finds that entry's value. */
  lemma {:induction false} GetAt<K, V>(d: Dict<K, V>, i: nat)
    requires DistinctKeys(d) && i < |d|
    ensures Get(d, d[i].0) == Some(d[i].1)
    decreases i
  {
    if i > 0 {
      assert d[0].0 != d[i].0;
      assert d[1..][i - 1] == d[i];
      GetAt(d[1..], i - 1);
    }
  }

  /**
   `d[k] = v`: an existing key keeps its position and takes the new value;
   a new key is appended at the end.
   */
  function Put<K(==), V>(d: Dict<K, V>, k: K, v: V): (r: Dict<K, V>)
    ensures Keys(r) == if k in Keys(d) then Keys(d) else Keys(d) + [k]
    ensures Get(r, k) == Some(v)
  {
    if |d| == 0 then [(k, v)]
    else if d[0].0 == k then
      var r := [(k, v)] + d[1..];
      assert r[1..] == d[1..];
      r
    else
      var rest := Put(d[1..], k, v);
      var r := [d[0]] + rest;
      assert r[1..] == rest;
      assert Keys(r) == [d[0].0] + Keys(rest);
      r
  }

  /** Writing one key leaves every other key's lookup as it was. */
  lemma {:induction false} PutOthers<K, V>(d: Dict<K, V>, k: K, v: V, k': K)
    requires k' != k
    ensures Get(Put(d, k, v), k') == Get(d, k')
    decreases |d|
  {
    if |d| > 0 && d[0].0 != k {
      PutOthers(d[1..], k, v, k');
    }
  }

  /** Writing a key never creates a duplicate key. */
  lemma {:induction false} PutDistinct<K, V>(d: Dict<K, V>, k: K, v: V)
    requires DistinctKeys(d)
    ensures DistinctKeys(Put(d, k, v))
    decreases |d|
  {
  }

  /** `{k: v for k, v in d.items() if keep(v)}`. */
  function Where<K(==), V>(d: Dict<K, V>, keep: V -> bool): (r: Dict<K, V>)
    ensures |r| <= |d|
    ensures forall i :: 0 <= i < |r| ==> r[i] in d && keep(r[i].1)
    ensures DistinctKeys(d) ==> DistinctKeys(r)
  {
    if |d| == 0 then []
    else if keep(d[0].1) then [d[0]] + Where(d[1..], keep)
    else Where(d[1..], keep)
  }

  /**
   On a dict with distinct keys, the comprehension keeps exactly the
   entries whose value passes the test, each with its value unchanged.
   */
  lemma {:induction false} GetWhere<K, V>(d: Dict<K, V>, keep: V -> bool, k: K)
    requires DistinctKeys(d)
    ensures Get(Where(d, keep), k) == (if Get(d, k).Some? && keep(Get(d, k).value) then Get(d, k) else None)
    decreases |d|
  {
    if |d| > 0 {
      assert DistinctKeys(d[1..]);
      GetWhere(d[1..], keep, k);
      var tail := Where(d[1..], keep);
      if d[0].0 == k {
        assert k !in Keys(d[1..]);
        assert Get(d[1..], k) == None;
        assert Get(d, k) == Some(d[0].1);
      } else {
        assert Get(d, k) == Get(d[1..], k);
      }
      if keep(d[0].1) {
        var r := [d[0]] + tail;
        assert Where(d, keep) == r;
        assert r[1..] == tail;
      } else {
        assert Where(d, keep) == tail;
      }
    }
  }
}
