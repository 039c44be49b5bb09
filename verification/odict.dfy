/**
 * A Python dict whose insertion order is observable: its `repr` (which
 * `ctags_entry.__eq__` compares) and its `items()` iteration (which
 * `_dict_to_args` turns into a command line) both follow it. Assigning to a
 * present key keeps its place; a new key goes to the end.
 */
module OrderedDict {

  type Dict<K, V> = seq<(K, V)>

  function Keys<K, V>(d: Dict<K, V>): (ks: seq<K>)
    ensures |ks| == |d|
  {
    if d == [] then [] else [d[0].0] + Keys(d[1..])
  }

  lemma KeysAt<K, V>(d: Dict<K, V>, i: nat)
    requires i < |d|
    ensures Keys(d)[i] == d[i].0
  {
    if i > 0 {
      KeysAt(d[1..], i - 1);
    }
  }

  lemma KeysAppend<K, V>(d: Dict<K, V>, e: Dict<K, V>)
    ensures Keys(d + e) == Keys(d) + Keys(e)
  {
    if d == [] {
      assert d + e == e;
    } else {
      assert (d + e)[0] == d[0];
      assert (d + e)[1..] == d[1..] + e;
      KeysAppend(d[1..], e);
    }
  }

  /** `d[k]` for a present key. */
  function Get<K(==), V>(d: Dict<K, V>, k: K): V
    requires k in Keys(d)
  {
    if d[0].0 == k then d[0].1 else Get(d[1..], k)
  }

  /** `d[k] = v`. */
  function Put<K(==), V>(d: Dict<K, V>, k: K, v: V): (r: Dict<K, V>)
    ensures k in Keys(r) && Get(r, k) == v
    ensures forall j :: j in Keys(d) && j != k ==> j in Keys(r) && Get(r, j) == Get(d, j)
    ensures Keys(r) == if k in Keys(d) then Keys(d) else Keys(d) + [k]
  {
    if d == [] then [(k, v)]
    else if d[0].0 == k then [(k, v)] + d[1..]
    else
      var r := [d[0]] + Put(d[1..], k, v);
      assert r[1..] == Put(d[1..], k, v);
      r
  }

  /** The first entry with a key is what looking the key up finds. */
  lemma GetAt<K, V>(d: Dict<K, V>, i: nat)
    requires i < |d| && forall j :: 0 <= j < i ==> d[j].0 != d[i].0
    ensures d[i].0 in Keys(d) && Get(d, d[i].0) == d[i].1
  {
    KeysAt(d, i);
    if i > 0 {
      GetAt(d[1..], i - 1);
    }
  }

  /** Appending entries does not change what an earlier key looks up. */
  lemma GetAppend<K, V>(d: Dict<K, V>, e: Dict<K, V>, k: K)
    requires k in Keys(d)
    ensures k in Keys(d + e) && Get(d + e, k) == Get(d, k)
  {
    KeysAppend(d, e);
    if d[0].0 != k {
      assert (d + e)[1..] == d[1..] + e;
      GetAppend(d[1..], e, k);
    }
  }

  /** `d.update(e)`: the entries of `e` assigned in `e`'s order. */
  function Update<K(==), V>(d: Dict<K, V>, e: Dict<K, V>): Dict<K, V>
    decreases |e|
  {
    if e == [] then d else Update(Put(d, e[0].0, e[0].1), e[1..])
  }

  predicate DistinctKeys<K(==), V>(d: Dict<K, V>) {
    forall i, j :: 0 <= i < j < |d| ==> d[i].0 != d[j].0
  }

  /**
   * After `d.update(e)`, with `e` a real dict (no repeated key), a key of `e`
   * has `e`'s value, every other key keeps `d`'s, and no key is invented.
   */
  lemma {:induction false} UpdateGet<K, V>(d: Dict<K, V>, e: Dict<K, V>, k: K)
    requires DistinctKeys(e)
    ensures k in Keys(Update(d, e)) <==> k in Keys(d) || k in Keys(e)
    ensures k in Keys(e) ==> Get(Update(d, e), k) == Get(e, k)
    ensures k in Keys(d) && k !in Keys(e) ==> Get(Update(d, e), k) == Get(d, k)
    decreases |e|
  {
    if e != [] {
      var d' := Put(d, e[0].0, e[0].1);
      var e' := e[1..];
      assert DistinctKeys(e');
      forall i | 0 <= i < |e'| ensures Keys(e')[i] != e[0].0 {
        KeysAt(e', i);
      }
      assert e[0].0 !in Keys(e');
      UpdateGet(d', e', k);
    }
  }
}
