/** Python dictionaries as the model sees them: the entries in insertion order.
    Iterating `.keys()` or `.values()` follows that order, assigning to an existing
    key keeps its position, and a dict comprehension lets a later entry win. */
module Dicts {
  import opened Wrappers

  type Dict<K(==, !new), V> = seq<(K, V)>

  predicate KeysUnique<K(==, !new), V>(d: Dict<K, V>) {
    forall i, j :: 0 <= i < j < |d| ==> d[i].0 != d[j].0
  }

  function Keys<K(==, !new), V>(d: Dict<K, V>): (ks: seq<K>)
    ensures |ks| == |d| && forall i :: 0 <= i < |d| ==> ks[i] == d[i].0
  {
    if d == [] then [] else [d[0].0] + Keys(d[1..])
  }

  function Values<K(==, !new), V>(d: Dict<K, V>): (vs: seq<V>)
    ensures |vs| == |d| && forall i :: 0 <= i < |d| ==> vs[i] == d[i].1
  {
    if d == [] then [] else [d[0].1] + Values(d[1..])
  }

  /** `d[k]` when `k in d`, otherwise `None` (where Python raises `KeyError`). */
  function Get<K(==, !new), V>(d: Dict<K, V>, k: K): (r: Option<V>)
    ensures r.None? <==> forall i :: 0 <= i < |d| ==> d[i].0 != k
    ensures r.Some? ==> exists i :: 0 <= i < |d| && d[i] == (k, r.value)
  {
    if d == [] then None
    else if d[0].0 == k then Some(d[0].1)
    else Get(d[1..], k)
  }

  /** `d[k] = v`: overwrite in place, or append a new entry. */
  function Put<K(==, !new), V>(d: Dict<K, V>, k: K, v: V): (r: Dict<K, V>)
    requires KeysUnique(d)
    ensures KeysUnique(r)
    ensures forall k' :: Get(r, k') == if k' == k then Some(v) else Get(d, k')
    ensures |r| == if Get(d, k).Some? then |d| else |d| + 1
    ensures forall i :: 0 <= i < |r| ==> r[i].0 == k || Get(d, r[i].0).Some?
  {
    if d == [] then [(k, v)]
    else if d[0].0 == k then [(k, v)] + d[1..]
    else
      var rest := Put(d[1..], k, v);
      assert forall i :: 0 <= i < |rest| ==> rest[i].0 != d[0].0 by {
        forall i | 0 <= i < |rest| ensures rest[i].0 != d[0].0 {
          if rest[i].0 != k {
            var j :| 0 <= j < |d[1..]| && d[1..][j].0 == rest[i].0;
            assert d[j + 1].0 == rest[i].0;
          }
        }
      }
      [d[0]] + rest
  }

  /** The value of the last pair whose key is `k`. */
  function LastValue<K(==, !new), V>(pairs: seq<(K, V)>, k: K): Option<V> {
    if pairs == [] then None
    else if pairs[|pairs| - 1].0 == k then Some(pairs[|pairs| - 1].1)
    else LastValue(pairs[..|pairs| - 1], k)
  }

  /** `{k: v for k, v in pairs}`. */
  function FromPairs<K(==, !new), V>(pairs: seq<(K, V)>): (d: Dict<K, V>)
    ensures KeysUnique(d)
  {
    if pairs == [] then []
    else Put(FromPairs(pairs[..|pairs| - 1]), pairs[|pairs| - 1].0, pairs[|pairs| - 1].1)
  }

  /** In a dict built by a comprehension, every key holds the value of its last pair. */
  lemma {:induction false} FromPairsGet<K(!new), V>(pairs: seq<(K, V)>, k: K)
    ensures Get(FromPairs(pairs), k) == LastValue(pairs, k)
  {
    if pairs != [] {
      FromPairsGet(pairs[..|pairs| - 1], k);
    }
  }

  /** A comprehension over pairs with distinct keys keeps them all, in order. */
  lemma {:induction false} FromPairsDistinct<K(!new), V>(pairs: seq<(K, V)>)
    requires KeysUnique(pairs)
    ensures FromPairs(pairs) == pairs
  {
    if pairs != [] {
      var init := pairs[..|pairs| - 1];
      var last := pairs[|pairs| - 1];
      assert KeysUnique(init) by {
        forall i, j | 0 <= i < j < |init| ensures init[i].0 != init[j].0 {
          assert init[i] == pairs[i] && init[j] == pairs[j];
        }
      }
      FromPairsDistinct(init);
      forall i | 0 <= i < |init| ensures init[i].0 != last.0 {
        assert init[i] == pairs[i];
      }
      PutAbsentAppends(init, last.0, last.1);
      assert init + [last] == pairs;
    }
  }

  lemma {:induction false} PutAbsentAppends<K(!new), V>(d: Dict<K, V>, k: K, v: V)
    requires KeysUnique(d) && Get(d, k).None?
    ensures Put(d, k, v) == d + [(k, v)]
  {
    if d != [] {
      PutAbsentAppends(d[1..], k, v);
      assert [d[0]] + (d[1..] + [(k, v)]) == d + [(k, v)];
    }
  }

  /** The last pair with key k gives its value; there is none exactly when
      no pair has key k. */
  lemma {:induction false} LastValueMeans<K(!new), V>(pairs: seq<(K, V)>, k: K)
    ensures LastValue(pairs, k).None? <==> forall j :: 0 <= j < |pairs| ==> pairs[j].0 != k
    ensures LastValue(pairs, k).Some? ==>
      exists j :: 0 <= j < |pairs| && pairs[j] == (k, LastValue(pairs, k).value) &&
                  forall j' :: j < j' < |pairs| ==> pairs[j'].0 != k
  {
    if pairs != [] {
      var init := pairs[..|pairs| - 1];
      LastValueMeans(init, k);
      assert forall j :: 0 <= j < |init| ==> init[j] == pairs[j];
    }
  }
}
