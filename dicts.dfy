/**
 * Python dictionaries: a sequence of key/value entries in insertion order.
 * Replacing the value of a key keeps the key's position, as CPython does.
 */
module Dicts {

  datatype Entry<K, V> = Entry(key: K, value: V)

  type Dict<K, V> = seq<Entry<K, V>>

  function Keys<K, V>(d: Dict<K, V>): (r: seq<K>)
    ensures |r| == |d|
    ensures forall i :: 0 <= i < |d| ==> r[i] == d[i].key
  {
    seq(|d|, i requires 0 <= i < |d| => d[i].key)
  }

  /** `k in d`. */
  predicate HasKey<K(==), V>(d: Dict<K, V>, k: K) {
    exists i :: 0 <= i < |d| && d[i].key == k
  }

  predicate DistinctKeys<K(==), V>(d: Dict<K, V>) {
    forall i, j :: 0 <= i < j < |d| ==> d[i].key != d[j].key
  }

  /** The position of `k`: its first entry. */
  function IndexOf<K(==), V>(d: Dict<K, V>, k: K): (i: nat)
    requires HasKey(d, k)
    ensures i < |d| && d[i].key == k
    ensures forall j :: 0 <= j < i ==> d[j].key != k
    decreases |d|
  {
    if d[0].key == k then 0
    else
      assert HasKey(d[1..], k) by {
        var i :| 0 <= i < |d| && d[i].key == k;
        assert d[1..][i - 1].key == k;
      }
      1 + IndexOf(d[1..], k)
  }

  /** `d[k]`. */
  function Get<K(==), V>(d: Dict<K, V>, k: K): V
    requires HasKey(d, k)
  {
    d[IndexOf(d, k)].value
  }

  /** `d[k] = v`: replaces the value in place when `k` is present, appends an entry otherwise. */
  function Put<K(==), V>(d: Dict<K, V>, k: K, v: V): (r: Dict<K, V>)
    ensures HasKey(r, k) && Get(r, k) == v
    ensures Keys(r) == if HasKey(d, k) then Keys(d) else Keys(d) + [k]
    ensures forall i :: 0 <= i < |d| && d[i].key != k ==> r[i] == d[i]
    ensures DistinctKeys(d) ==> DistinctKeys(r)
    ensures DistinctKeys(d) ==> forall i :: 0 <= i < |r| && r[i].key == k ==> r[i].value == v
  {
    if HasKey(d, k) then
      var i := IndexOf(d, k);
      var r := d[i := Entry(k, v)];
      assert r[i].key == k;
      assert IndexOf(r, k) == i;
      r
    else
      var r := d + [Entry(k, v)];
      assert r[|d|].key == k;
      r
  }

  /** Writing a key that is absent appends its entry. */
  lemma PutAbsent<K, V>(d: Dict<K, V>, k: K, v: V)
    requires !HasKey(d, k)
    ensures Put(d, k, v) == d + [Entry(k, v)]
  {
  }

  /** Writing one key leaves the presence and value of every other key as they were. */
  lemma PutOther<K, V>(d: Dict<K, V>, k: K, v: V, other: K)
    requires other != k
    ensures HasKey(Put(d, k, v), other) <==> HasKey(d, other)
    ensures HasKey(d, other) ==> Get(Put(d, k, v), other) == Get(d, other)
  {
    var r := Put(d, k, v);
    if HasKey(d, other) {
      var i := IndexOf(d, other);
      assert r[i] == d[i];
      assert IndexOf(r, other) == i;
    }
    if HasKey(r, other) {
      var i :| 0 <= i < |r| && r[i].key == other;
      assert Keys(r)[i] == other;
      assert i < |d| && Keys(d)[i] == other;
    }
  }

  /** Writing a key twice keeps only the second value, at the key's first position. */
  lemma PutPut<K, V>(d: Dict<K, V>, k: K, a: V, b: V)
    ensures Put(Put(d, k, a), k, b) == Put(d, k, b)
  {
    if !HasKey(d, k) {
      var r := d + [Entry(k, a)];
      assert r[|d|].key == k;
      assert IndexOf(r, k) == |d|;
    }
  }
  /** `del d[k]`: drops the entry of `k`, keeping the order of the others. */
  function Remove<K(==), V>(d: Dict<K, V>, k: K): (r: Dict<K, V>)
    requires HasKey(d, k)
    ensures |r| == |d| - 1
    ensures Keys(r) == Keys(d)[..IndexOf(d, k)] + Keys(d)[IndexOf(d, k) + 1..]
  {
    var i := IndexOf(d, k);
    d[..i] + d[i + 1..]
  }

  /** The entry at position `j` after deleting `k`. */
  lemma RemoveAt<K, V>(d: Dict<K, V>, k: K, j: nat)
    requires HasKey(d, k) && j < |d| - 1
    ensures Remove(d, k)[j] == d[if j < IndexOf(d, k) then j else j + 1]
  {
    var i := IndexOf(d, k);
    var r := d[..i] + d[i + 1..];
    assert Remove(d, k) == r;
    if j < i {
      assert r[j] == d[..i][j];
    } else {
      assert r[j] == d[i + 1..][j - i];
    }
  }

  /** Deleting one key leaves the presence and value of every other key as they were. */
  lemma RemoveOther<K, V>(d: Dict<K, V>, k: K, other: K)
    requires HasKey(d, k) && other != k
    ensures HasKey(Remove(d, k), other) <==> HasKey(d, other)
    ensures HasKey(d, other) ==> Get(Remove(d, k), other) == Get(d, other)
  {
    var i := IndexOf(d, k);
    var r := Remove(d, k);
    if HasKey(d, other) {
      var j := IndexOf(d, other);
      var m := if j < i then j else j - 1;
      RemoveAt(d, k, m);
      forall p | 0 <= p < m
        ensures r[p].key != other
      {
        RemoveAt(d, k, p);
      }
      assert IndexOf(r, other) == m;
    }
    if HasKey(r, other) {
      var m :| 0 <= m < |r| && r[m].key == other;
      RemoveAt(d, k, m);
    }
  }

  /** With distinct keys, a deleted key is gone and the rest stay distinct. */
  lemma RemoveGone<K, V>(d: Dict<K, V>, k: K)
    requires HasKey(d, k) && DistinctKeys(d)
    ensures !HasKey(Remove(d, k), k) && DistinctKeys(Remove(d, k))
  {
    var r := Remove(d, k);
    forall a, b | 0 <= a < b < |r|
      ensures r[a].key != r[b].key
    {
      RemoveAt(d, k, a);
      RemoveAt(d, k, b);
    }
    if HasKey(r, k) {
      var m :| 0 <= m < |r| && r[m].key == k;
      RemoveAt(d, k, m);
    }
  }
}
