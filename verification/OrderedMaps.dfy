/** Python's OrderedDict, as far as the caches use it: lookup, refresh to the end, pop. */
module OrderedMaps {
  import opened Common

  datatype Entry<K, V> = Entry(key: K, value: V)

  function Find<K(==), V>(s: seq<Entry<K, V>>, k: K): (i: nat)
    ensures i <= |s|
    ensures i < |s| ==> s[i].key == k
    ensures forall j | 0 <= j < i :: s[j].key != k
  {
    FirstWhere(s, (e: Entry<K, V>) => e.key == k)
  }

  function Get<K(==), V>(s: seq<Entry<K, V>>, k: K): Option<V> {
    var i := Find(s, k);
    if i < |s| then Some(s[i].value) else None
  }

  function Without<K(==), V>(s: seq<Entry<K, V>>, k: K): seq<Entry<K, V>> {
    var i := Find(s, k);
    if i < |s| then RemoveAt(s, i) else s
  }

  /** d[k] = v; d.move_to_end(k) */
  function Put<K(==), V>(s: seq<Entry<K, V>>, k: K, v: V): seq<Entry<K, V>> {
    Without(s, k) + [Entry(k, v)]
  }

  predicate Keyed<K(==), V>(s: seq<Entry<K, V>>) {
    forall i, j | 0 <= i < j < |s| :: s[i].key != s[j].key
  }

  lemma WithoutMeaning<K, V>(s: seq<Entry<K, V>>, k: K)
    requires Keyed(s)
    ensures Keyed(Without(s, k))
    ensures forall e | e in Without(s, k) :: e in s && e.key != k
    ensures forall e | e in s && e.key != k :: e in Without(s, k)
    ensures |Without(s, k)| <= |s|
  {
    var i := Find(s, k);
    var r := Without(s, k);
    if i < |s| {
      forall e | e in s && e.key != k ensures e in r {
        var j :| 0 <= j < |s| && s[j] == e;
        assert r[if j < i then j else j - 1] == e;
      }
    }
  }

  lemma GetMeaning<K, V>(s: seq<Entry<K, V>>, k: K, v: V)
    requires Keyed(s)
    ensures Get(s, k) == Some(v) <==> Entry(k, v) in s
  {
    var i := Find(s, k);
    if Entry(k, v) in s {
      var j :| 0 <= j < |s| && s[j] == Entry(k, v);
      assert i == j;
    }
  }

  lemma PutKeyed<K, V>(s: seq<Entry<K, V>>, k: K, v: V)
    requires Keyed(s)
    ensures Keyed(Put(s, k, v)) && |Put(s, k, v)| <= |s| + 1
    ensures forall e | e in Put(s, k, v) :: e == Entry(k, v) || (e in s && e.key != k)
  {
    WithoutMeaning(s, k);
    forall i | 0 <= i < |Without(s, k)| ensures Without(s, k)[i].key != k {
      assert Without(s, k)[i] in Without(s, k);
    }
  }
}
