/** A Python 3.7+ dict: a map from keys to values plus the order in which
    the keys were first inserted. Assigning to a key that is already present
    replaces its value and keeps its place; a new key goes to the end;
    `popitem` takes the most recently inserted key. */
module OrderedDict {
  import opened Wrappers

  datatype Dict<K(==), V> = Dict(order: seq<K>, entries: map<K, V>)

  /** No element listed twice. */
  predicate Distinct<K(==)>(s: seq<K>)
  {
    forall i, j :: 0 <= i < j < |s| ==> s[i] != s[j]
  }

  /** What every real dict satisfies: each key is listed once, and the
      listed keys are exactly the stored ones. */
  ghost predicate Valid<K(!new), V>(d: Dict<K, V>)
  {
    && Distinct(d.order)
    && (forall k :: k in d.entries <==> k in d.order)
  }

  /** `{}`. */
  function EmptyDict<K(==, !new), V>(): (d: Dict<K, V>)
    ensures Valid(d) && d.order == [] && d.entries == map[]
  {
    Dict([], map[])
  }

  /** `d.get(k)`: the value stored under `k`, or None where `d[k]` would
      raise KeyError. */
  function Get<K(==, !new), V>(d: Dict<K, V>, k: K): (r: Option<V>)
    ensures r.None? <==> k !in d.entries
    ensures Valid(d) ==> (r.None? <==> k !in d.order)
  {
    if k in d.entries then Some(d.entries[k]) else None
  }

  /** `d[k] = v`: `k` now holds `v`, every other key keeps its value, a
      present key keeps its place and a new key is appended. */
  function Put<K(==, !new), V>(d: Dict<K, V>, k: K, v: V): (r: Dict<K, V>)
    ensures Get(r, k) == Some(v)
    ensures forall k' :: k' != k ==> Get(r, k') == Get(d, k')
    ensures k in d.entries ==> r.order == d.order
    ensures k !in d.entries ==> r.order == d.order + [k]
    ensures Valid(d) ==> Valid(r)
  {
    if k in d.entries then Dict(d.order, d.entries[k := v])
    else Dict(d.order + [k], d.entries[k := v])
  }

  /** The order without `k`. */
  function Without<K(==, !new)>(s: seq<K>, k: K): (r: seq<K>)
    ensures forall x :: x in r <==> x in s && x != k
    ensures |r| <= |s|
    ensures Distinct(s) ==> Distinct(r)
  {
    if s == [] then []
    else
      var rest := Without(s[1..], k);
      assert Distinct(s) ==> Distinct(s[1..]) && s[0] !in s[1..] by {
        if Distinct(s) {
          assert forall i, j :: 0 <= i < j < |s| - 1 ==> s[1..][i] == s[i + 1] && s[1..][j] == s[j + 1];
        }
      }
      if s[0] == k then rest
      else
        assert forall x :: x in [s[0]] + rest <==> x == s[0] || x in rest;
        [s[0]] + rest
  }

  /** `del d[k]`; a dict without `k` is returned as it is. */
  function Delete<K(==, !new), V>(d: Dict<K, V>, k: K): (r: Dict<K, V>)
    ensures Get(r, k) == None
    ensures forall k' :: k' != k ==> Get(r, k') == Get(d, k')
    ensures forall x :: x in r.order <==> x in d.order && x != k
    ensures Valid(d) ==> Valid(r)
  {
    Dict(Without(d.order, k), d.entries - {k})
  }

  /** `d.popitem()` on a non-empty dict: the last inserted key goes, and
      every other key keeps its value and its place. */
  function PopItem<K(==, !new), V>(d: Dict<K, V>): (r: Dict<K, V>)
    requires |d.order| > 0
    ensures r.order == d.order[..|d.order| - 1]
    ensures Get(r, d.order[|d.order| - 1]) == None
    ensures forall k :: k != d.order[|d.order| - 1] ==> Get(r, k) == Get(d, k)
    ensures Valid(d) ==> Valid(r)
  {
    var last := d.order[|d.order| - 1];
    var r := Dict(d.order[..|d.order| - 1], d.entries - {last});
    assert Valid(d) ==> last !in r.order;
    r
  }

  /** `popitem` undoes the insertion of a new key. */
  lemma PutPopItem<K(!new), V>(d: Dict<K, V>, k: K, v: V)
    requires k !in d.entries
    ensures PopItem(Put(d, k, v)) == d
  {
    assert (d.order + [k])[..|d.order|] == d.order;
    assert d.entries[k := v] - {k} == d.entries;
  }
}
