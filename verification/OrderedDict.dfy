/** A dictionary that keeps its keys in the order of insertion, as Python's do. */
module OrderedDict {

  type Dict<K, V> = seq<(K, V)>

  predicate DistinctKeys<K(==), V>(d: Dict<K, V>) {
    forall i, j :: 0 <= i < j < |d| ==> d[i].0 != d[j].0
  }

  /** The position of the key, or the length of the dictionary. */
  function Find<K(==), V>(d: Dict<K, V>, k: K): (i: nat)
    ensures i <= |d| && (i < |d| ==> d[i].0 == k)
    ensures forall j :: 0 <= j < i ==> d[j].0 != k
  {
    if d == [] then 0
    else
      var i := Find(d[..|d| - 1], k);
      if i < |d| - 1 || d[|d| - 1].0 == k then i else |d|
  }

  predicate Has<K(==), V>(d: Dict<K, V>, k: K) {
    Find(d, k) < |d|
  }

  function GetOr<K(==), V>(d: Dict<K, V>, k: K, default: V): V {
    if Has(d, k) then d[Find(d, k)].1 else default
  }

  function Put<K(==), V>(d: Dict<K, V>, k: K, v: V): Dict<K, V> {
    if Has(d, k) then d[Find(d, k) := (k, v)] else d + [(k, v)]
  }

  lemma FindIs<K, V>(d: Dict<K, V>, i: nat)
    requires DistinctKeys(d) && i < |d|
    ensures Find(d, d[i].0) == i
  {
  }

  lemma PutKeepsDistinct<K, V>(d: Dict<K, V>, k: K, v: V)
    requires DistinctKeys(d)
    ensures DistinctKeys(Put(d, k, v))
  {
  }

  lemma GetAfterPut<K, V>(d: Dict<K, V>, k: K, v: V, q: K, default: V)
    requires DistinctKeys(d)
    ensures Has(Put(d, k, v), q) <==> Has(d, q) || q == k
    ensures GetOr(Put(d, k, v), q, default) == if q == k then v else GetOr(d, q, default)
  {
    var d' := Put(d, k, v);
    PutKeepsDistinct(d, k, v);
    if q == k {
      FindIs(d', Find(d, k));
    } else if Has(d, q) {
      assert d'[Find(d, q)] == d[Find(d, q)];
      FindIs(d', Find(d, q));
    } else {
      assert forall j :: 0 <= j < |d| ==> d[j].0 != q;
      assert forall j :: 0 <= j < |d'| ==> d'[j].0 != q;
    }
  }
}
