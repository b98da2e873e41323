/**
 * A JavaScript `Map`: entries in the order their keys were first set; setting
 * an existing key replaces its value where it stands.
 */
module JsMap {
  import opened Wrappers

  type Entries<K, V> = seq<(K, V)>

  function KeysOf<K, V>(m: Entries<K, V>): (r: seq<K>)
    ensures |r| == |m|
    ensures forall i :: 0 <= i < |m| ==> r[i] == m[i].0
  {
    seq(|m|, i requires 0 <= i < |m| => m[i].0)
  }

  predicate Distinct<K(==, !new)>(ks: seq<K>) {
    forall i, j :: 0 <= i < j < |ks| ==> ks[i] != ks[j]
  }

  /** Position of `k`, if present. */
  function IndexOf<K(==, !new), V>(m: Entries<K, V>, k: K): (r: Option<nat>)
    ensures r.Some? ==> r.value < |m| && m[r.value].0 == k
    ensures r.Some? ==> forall i :: 0 <= i < r.value ==> m[i].0 != k
    ensures r.None? <==> k !in KeysOf(m)
  {
    if m == [] then None
    else if m[0].0 == k then Some(0)
    else match IndexOf(m[1..], k)
      case None => None
      case Some(i) => Some(i + 1)
  }

  /** `map.get(k)` */
  function Get<K(==, !new), V>(m: Entries<K, V>, k: K): Option<V> {
    match IndexOf(m, k)
    case None => None
    case Some(i) => Some(m[i].1)
  }

  /** `map.set(k, v)` */
  function Set<K(==, !new), V>(m: Entries<K, V>, k: K, v: V): (r: Entries<K, V>)
    ensures KeysOf(r) == if k in KeysOf(m) then KeysOf(m) else KeysOf(m) + [k]
    ensures Get(r, k) == Some(v)
    ensures forall x :: x != k ==> Get(r, x) == Get(m, x)
  {
    match IndexOf(m, k)
    case None =>
      var r := m + [(k, v)];
      assert forall x :: x != k ==> IndexOf(r, x) == IndexOf(m, x) by {
        forall x | x != k ensures IndexOf(r, x) == IndexOf(m, x) {
          IndexOfAppend(m, k, v, x);
        }
      }
      r
    case Some(i) =>
      var r := m[i := (k, v)];
      assert KeysOf(r) == KeysOf(m);
      IndexOfSameKeys(m, r, k);
      forall x ensures IndexOf(r, x) == IndexOf(m, x) { IndexOfSameKeys(m, r, x); }
      r
  }

  lemma {:induction false} IndexOfAppend<K(!new), V>(m: Entries<K, V>, k: K, v: V, x: K)
    requires x != k
    ensures IndexOf(m + [(k, v)], x) == IndexOf(m, x)
  {
    if m != [] {
      IndexOfAppend(m[1..], k, v, x);
      assert (m + [(k, v)])[1..] == m[1..] + [(k, v)];
    }
  }

  lemma {:induction false} IndexOfSameKeys<K(!new), V>(m: Entries<K, V>, r: Entries<K, V>, x: K)
    requires KeysOf(m) == KeysOf(r)
    ensures IndexOf(r, x) == IndexOf(m, x)
  {
    if m != [] {
      assert KeysOf(m[1..]) == KeysOf(m)[1..] && KeysOf(r[1..]) == KeysOf(r)[1..];
      IndexOfSameKeys(m[1..], r[1..], x);
    }
  }

  /** `new Map(entries)`: `set` applied to each entry in turn. */
  function FromEntries<K(==, !new), V>(es: seq<(K, V)>): Entries<K, V> {
    if es == [] then [] else Set(FromEntries(es[..|es| - 1]), es[|es| - 1].0, es[|es| - 1].1)
  }

  /** The distinct elements of `ks`, in the order of their first occurrence. */
  function FirstOccurrences<K(==, !new)>(ks: seq<K>): (r: seq<K>)
    ensures Distinct(r)
    ensures forall k :: k in r <==> k in ks
  {
    if ks == [] then []
    else
      var p := FirstOccurrences(ks[..|ks| - 1]);
      assert forall k :: k in ks <==> k in ks[..|ks| - 1] || k == ks[|ks| - 1] by {
        assert ks == ks[..|ks| - 1] + [ks[|ks| - 1]];
      }
      if ks[|ks| - 1] in p then p else p + [ks[|ks| - 1]]
  }

  /** The position of the last occurrence of `k`. */
  function LastIndex<K(==, !new)>(ks: seq<K>, k: K): (r: nat)
    requires k in ks
    ensures r < |ks| && ks[r] == k
    ensures forall j :: r < j < |ks| ==> ks[j] != k
  {
    if ks[|ks| - 1] == k then |ks| - 1
    else
      assert k in ks[..|ks| - 1] by { assert ks == ks[..|ks| - 1] + [ks[|ks| - 1]]; }
      LastIndex(ks[..|ks| - 1], k)
  }

  /** Appending a key makes it the last occurrence of itself and leaves the other keys' last occurrences alone. */
  lemma LastIndexSnoc<K(!new)>(ks: seq<K>, x: K, k: K)
    requires k in ks + [x]
    ensures k != x ==> k in ks
    ensures LastIndex(ks + [x], k) == if k == x then |ks| else LastIndex(ks, k)
  {
    assert (ks + [x])[..|ks|] == ks;
  }

  /**
   * `new Map(entries)` holds one entry per distinct key, in first-occurrence
   * order, with the value of the LAST entry for that key.
   */
  lemma {:induction false} FromEntriesSpec<K(!new), V>(es: seq<(K, V)>)
    ensures KeysOf(FromEntries(es)) == FirstOccurrences(KeysOf(es))
    ensures forall k :: (Get(FromEntries(es), k) ==
      if k in KeysOf(es) then Some(es[LastIndex(KeysOf(es), k)].1) else None)
  {
    if es != [] {
      var n := |es| - 1;
      var p := es[..n];
      FromEntriesSpec(p);
      assert KeysOf(p) == KeysOf(es)[..n];
      assert KeysOf(es) == KeysOf(p) + [es[n].0];
      forall k ensures Get(FromEntries(es), k) ==
        (if k in KeysOf(es) then Some(es[LastIndex(KeysOf(es), k)].1) else None)
      {
        if k != es[n].0 && k in KeysOf(es) {
          assert k in KeysOf(p);
          var a := LastIndex(KeysOf(es), k);
          var b := LastIndex(KeysOf(p), k);
          assert a == b;
        }
      }
    }
  }

  /** A `Map`'s value under its i-th key, by the position of that key. */
  lemma GetAt<K(!new), V>(m: Entries<K, V>, i: nat)
    requires i < |m| && Distinct(KeysOf(m))
    ensures Get(m, m[i].0) == Some(m[i].1)
  {
    assert m[i].0 in KeysOf(m);
  }

  /** `[...new Map(d.map(e => [key(e), e])).values()]` */
  function DedupByKey<K(==, !new), T>(d: seq<T>, key: T -> K): seq<T> {
    var es := seq(|d|, i requires 0 <= i < |d| => (key(d[i]), d[i]));
    var m := FromEntries(es);
    seq(|m|, i requires 0 <= i < |m| => m[i].1)
  }

  /** `d.map(key)` */
  function KeySeq<K, T>(d: seq<T>, key: T -> K): (r: seq<K>)
    ensures |r| == |d| && forall i :: 0 <= i < |d| ==> r[i] == key(d[i])
  {
    seq(|d|, i requires 0 <= i < |d| => key(d[i]))
  }

  /**
   * The de-duplication keeps one element per key, ordered by the first
   * occurrence of each key, and holding the LAST element with that key.
   */
  lemma DedupByKeySpec<K(!new), T>(d: seq<T>, key: T -> K)
    ensures |DedupByKey(d, key)| == |FirstOccurrences(KeySeq(d, key))|
    ensures forall i :: 0 <= i < |DedupByKey(d, key)| ==>
      var k := FirstOccurrences(KeySeq(d, key))[i];
      key(DedupByKey(d, key)[i]) == k && DedupByKey(d, key)[i] == d[LastIndex(KeySeq(d, key), k)]
  {
    var es := seq(|d|, i requires 0 <= i < |d| => (key(d[i]), d[i]));
    assert KeysOf(es) == KeySeq(d, key);
    FromEntriesSpec(es);
    var m := FromEntries(es);
    forall i | 0 <= i < |m|
      ensures m[i].1 == d[LastIndex(KeySeq(d, key), m[i].0)]
      ensures key(m[i].1) == m[i].0
    {
      assert m[i].0 == KeysOf(m)[i];
      GetAt(m, i);
    }
  }
}
