/**
 * PHP arrays are ordered maps. They are modelled here as association lists:
 * a sequence of (key, value) pairs in insertion order. Writing `$a[$k] = $v`
 * keeps the position of an existing key and appends a new one; this module
 * defines that operation and states what lookups see afterwards.
 */
module Assoc {
  import opened Wrappers

  function Keys<K, V>(a: seq<(K, V)>): seq<K> {
    seq(|a|, i requires 0 <= i < |a| => a[i].0)
  }

  function Values<K, V>(a: seq<(K, V)>): seq<V> {
    seq(|a|, i requires 0 <= i < |a| => a[i].1)
  }

  predicate Distinct<T(==)>(s: seq<T>) {
    forall i, j :: 0 <= i < j < |s| ==> s[i] != s[j]
  }

  /** What every PHP array satisfies: no key occurs twice. */
  predicate DistinctKeys<K(==), V>(a: seq<(K, V)>) {
    Distinct(Keys(a))
  }

  predicate HasKey<K(==), V>(a: seq<(K, V)>, k: K) {
    k in Keys(a)
  }

  /** `$a[$k]`, or None when the key is absent (`array_key_exists` is false). */
  function Lookup<K(==), V>(a: seq<(K, V)>, k: K): Option<V> {
    if |a| == 0 then None
    else if a[0].0 == k then Some(a[0].1)
    else Lookup(a[1..], k)
  }

  /** `$a[$k] = $v` */
  function Put<K(==), V>(a: seq<(K, V)>, k: K, v: V): seq<(K, V)> {
    if |a| == 0 then [(k, v)]
    else if a[0].0 == k then [(k, v)] + a[1..]
    else [a[0]] + Put(a[1..], k, v)
  }

  /** `unset($a[$k])` */
  function Remove<K(==), V>(a: seq<(K, V)>, k: K): seq<(K, V)> {
    if |a| == 0 then []
    else if a[0].0 == k then Remove(a[1..], k)
    else [a[0]] + Remove(a[1..], k)
  }

  /** `array_filter($a, $keep, ARRAY_FILTER_USE_KEY)`: keys and order are kept. */
  function FilterKeys<K(==), V>(a: seq<(K, V)>, keep: K -> bool): seq<(K, V)> {
    if |a| == 0 then []
    else if keep(a[0].0) then [a[0]] + FilterKeys(a[1..], keep)
    else FilterKeys(a[1..], keep)
  }

  lemma {:induction false} LookupFound<K, V>(a: seq<(K, V)>, k: K)
    ensures Lookup(a, k).Some? <==> HasKey(a, k)
  {
    if |a| > 0 {
      LookupFound(a[1..], k);
      assert Keys(a) == [a[0].0] + Keys(a[1..]);
    }
  }

  /** Appending an entry for a new key leaves every earlier key's value alone. */
  lemma {:induction false} LookupSnoc<K, V>(a: seq<(K, V)>, k: K, v: V, j: K)
    ensures Lookup(a + [(k, v)], j) == if HasKey(a, j) then Lookup(a, j) else if j == k then Some(v) else None
  {
    if |a| > 0 {
      assert (a + [(k, v)])[1..] == a[1..] + [(k, v)];
      assert Keys(a) == [a[0].0] + Keys(a[1..]);
      LookupSnoc(a[1..], k, v, j);
    }
  }

  /** In a PHP array, the entry at position i is what `$a[key]` finds. */
  lemma {:induction false} LookupAt<K, V>(a: seq<(K, V)>, i: int)
    requires DistinctKeys(a) && 0 <= i < |a|
    ensures Lookup(a, a[i].0) == Some(a[i].1)
  {
    if i > 0 {
      assert Keys(a)[0] != Keys(a)[i];
      assert Keys(a[1..]) == Keys(a)[1..];
      LookupAt(a[1..], i - 1);
    }
  }

  /** After `$a[$k] = $v`, `$a[$k]` is `$v` and every other key reads as before. */
  lemma {:induction false} LookupPut<K, V>(a: seq<(K, V)>, k: K, v: V, j: K)
    ensures Lookup(Put(a, k, v), j) == if j == k then Some(v) else Lookup(a, j)
  {
    if |a| > 0 && a[0].0 != k {
      LookupPut(a[1..], k, v, j);
    }
  }

  /** An existing key keeps its position; a new key is appended. */
  lemma {:induction false} KeysPut<K, V>(a: seq<(K, V)>, k: K, v: V)
    ensures Keys(Put(a, k, v)) == if HasKey(a, k) then Keys(a) else Keys(a) + [k]
  {
    if |a| > 0 {
      assert Keys(a) == [a[0].0] + Keys(a[1..]);
      if a[0].0 != k {
        KeysPut(a[1..], k, v);
        assert Keys(Put(a, k, v)) == [a[0].0] + Keys(Put(a[1..], k, v));
      } else {
        assert Keys(Put(a, k, v)) == [k] + Keys(a[1..]);
      }
    }
  }

  lemma PutDistinct<K, V>(a: seq<(K, V)>, k: K, v: V)
    requires DistinctKeys(a)
    ensures DistinctKeys(Put(a, k, v)) && |Put(a, k, v)| == if HasKey(a, k) then |a| else |a| + 1
  {
    KeysPut(a, k, v);
  }

  /** Writing a key that is not there appends it. */
  lemma {:induction false} PutNew<K, V>(a: seq<(K, V)>, k: K, v: V)
    requires !HasKey(a, k)
    ensures Put(a, k, v) == a + [(k, v)]
  {
    if |a| > 0 {
      assert Keys(a) == [a[0].0] + Keys(a[1..]);
      PutNew(a[1..], k, v);
      assert a + [(k, v)] == [a[0]] + (a[1..] + [(k, v)]);
    }
  }

  /** Writing a key with the value it already holds changes nothing. */
  lemma {:induction false} PutSame<K, V>(a: seq<(K, V)>, k: K, v: V)
    requires Lookup(a, k) == Some(v)
    ensures Put(a, k, v) == a
  {
    if |a| > 0 && a[0].0 != k {
      PutSame(a[1..], k, v);
    }
  }

  /** On a PHP array, writing an existing key replaces its entry in place. */
  lemma {:induction false} PutAt<K, V>(a: seq<(K, V)>, i: int, v: V)
    requires DistinctKeys(a) && 0 <= i < |a|
    ensures Put(a, a[i].0, v) == a[i := (a[i].0, v)]
  {
    if i > 0 {
      assert Keys(a)[0] != Keys(a)[i];
      assert Keys(a[1..]) == Keys(a)[1..];
      PutAt(a[1..], i - 1, v);
      assert a[i := (a[i].0, v)] == [a[0]] + a[1..][i - 1 := (a[i].0, v)];
    }
  }

  lemma {:induction false} LookupRemove<K, V>(a: seq<(K, V)>, k: K, j: K)
    ensures Lookup(Remove(a, k), j) == if j == k then None else Lookup(a, j)
  {
    if |a| > 0 {
      LookupRemove(a[1..], k, j);
    }
  }

  lemma {:induction false} LookupFilterKeys<K, V>(a: seq<(K, V)>, keep: K -> bool, j: K)
    ensures Lookup(FilterKeys(a, keep), j) == if keep(j) then Lookup(a, j) else None
  {
    if |a| > 0 {
      LookupFilterKeys(a[1..], keep, j);
    }
  }

  /** Filtering keeps the surviving keys in their original order. */
  lemma {:induction false} KeysFilterKeys<K, V>(a: seq<(K, V)>, keep: K -> bool)
    ensures forall k :: k in Keys(FilterKeys(a, keep)) <==> k in Keys(a) && keep(k)
    ensures DistinctKeys(a) ==> DistinctKeys(FilterKeys(a, keep))
  {
    if |a| > 0 {
      KeysFilterKeys(a[1..], keep);
      assert Keys(a) == [a[0].0] + Keys(a[1..]);
      if keep(a[0].0) {
        assert Keys(FilterKeys(a, keep)) == [a[0].0] + Keys(FilterKeys(a[1..], keep));
      }
      if DistinctKeys(a) {
        assert Keys(a[1..]) == Keys(a)[1..];
        assert DistinctKeys(a[1..]);
      }
    }
  }

  lemma {:induction false} LookupAppend<K, V>(a: seq<(K, V)>, b: seq<(K, V)>, k: K)
    ensures Lookup(a + b, k) == if HasKey(a, k) then Lookup(a, k) else Lookup(b, k)
  {
    if |a| == 0 {
      assert a + b == b;
    } else {
      assert (a + b)[0] == a[0];
      assert (a + b)[1..] == a[1..] + b;
      LookupAppend(a[1..], b, k);
      assert Keys(a) == [a[0].0] + Keys(a[1..]);
    }
  }

  lemma KeysAppend<K, V>(a: seq<(K, V)>, b: seq<(K, V)>)
    ensures Keys(a + b) == Keys(a) + Keys(b)
  {
  }
}
