/**
 * A plain JavaScript object used as a dictionary (`{ [key: string]: V }`).
 *
 * What the source observes of such an object is: which keys it has, the value
 * under a key, and the order `Object.keys`/`values`/`entries` enumerate it in.
 * That order is fixed by the language: keys that are canonical array indices
 * ("0", "1", ..., "4294967294") come first in ascending numeric order, then every
 * other key in the order it was first added. `o[0]` and `o['0']` are the same key.
 * An `Obj` keeps its keys in exactly that enumeration order.
 */
module JsObject {
  import opened Wrappers
  import opened Text

  /** A canonical array index: "0", or digits without a leading zero, below 2^32 - 1. */
  predicate IsIndexKey(k: string) {
    |k| > 0 && AllDigits(k) && (k[0] != '0' || |k| == 1) && DigitsValue(k) < 4294967295
  }

  predicate Distinct<T(==)>(s: seq<T>) {
    forall i, j :: 0 <= i < j < |s| ==> s[i] != s[j]
  }

  /** Index keys first, in ascending numeric order. */
  predicate JsOrdered(keys: seq<string>) {
    forall i, j :: 0 <= i < j < |keys| && IsIndexKey(keys[j]) ==>
      IsIndexKey(keys[i]) && DigitsValue(keys[i]) < DigitsValue(keys[j])
  }

  datatype RawObj<V> = RawObj(keys: seq<string>, vals: map<string, V>)

  ghost predicate WellFormed<V>(o: RawObj<V>) {
    && Distinct(o.keys)
    && JsOrdered(o.keys)
    && (forall k :: k in o.vals <==> k in o.keys)
  }

  /** An object; `keys` is its enumeration order. */
  type Obj<V> = o: RawObj<V> | WellFormed(o) witness RawObj([], map[])

  /** Nested objects `source -> entry -> meta -> leaf key -> T`, as in `Tree`. */
  type Tree4<T> = Obj<Obj<Obj<Obj<T>>>>

  function Empty<V>(): (r: Obj<V>)
    ensures r.keys == [] && r.vals == map[]
  {
    RawObj([], map[])
  }

  /** `o[k]`, `undefined` when absent. */
  function Get<V>(o: Obj<V>, k: string): Option<V> {
    if k in o.vals then Some(o.vals[k]) else None
  }

  /** `Object.values(o)` */
  function Values<V>(o: Obj<V>): (r: seq<V>)
    ensures |r| == |o.keys|
    ensures forall i :: 0 <= i < |r| ==> r[i] == o.vals[o.keys[i]]
  {
    seq(|o.keys|, i requires 0 <= i < |o.keys| => o.vals[o.keys[i]])
  }

  /** `Object.values(o)[0]` */
  function First<V>(o: Obj<V>): (r: Option<V>)
    ensures r.None? <==> o.keys == []
  {
    if o.keys == [] then None else Some(o.vals[o.keys[0]])
  }

  /** When `o` has any array-index key, `Object.values(o)[0]` is the value under the smallest. */
  lemma FirstIsSmallestIndex<V>(o: Obj<V>, j: nat)
    requires j < |o.keys| && IsIndexKey(o.keys[j])
    ensures IsIndexKey(o.keys[0]) && DigitsValue(o.keys[0]) <= DigitsValue(o.keys[j])
    ensures First(o) == Some(o.vals[o.keys[0]])
  {
  }

  // ---------------------------------------------------------------- keys

  lemma {:induction false} DigitsValueZero(s: string)
    requires AllDigits(s) && DigitsValue(s) == 0
    ensures forall i :: 0 <= i < |s| ==> s[i] == '0'
  {
    if s != [] {
      DigitsValueZero(s[..|s| - 1]);
      assert forall i :: 0 <= i < |s| - 1 ==> s[i] == s[..|s| - 1][i];
    }
  }

  /** A canonical decimal run is the `String` of its value. */
  lemma {:induction false} CanonicalDigits(s: string)
    requires |s| > 0 && AllDigits(s) && (s[0] != '0' || |s| == 1)
    ensures NatToString(DigitsValue(s)) == s
  {
    if |s| > 1 {
      var p := s[..|s| - 1];
      assert p[0] == s[0];
      CanonicalDigits(p);
      if DigitsValue(p) == 0 {
        DigitsValueZero(p);
        assert false;
      }
      assert s == p + [s[|s| - 1]];
    }
  }

  lemma IndexKeyInjective(a: string, b: string)
    requires IsIndexKey(a) && IsIndexKey(b) && DigitsValue(a) == DigitsValue(b)
    ensures a == b
  {
    CanonicalDigits(a);
    CanonicalDigits(b);
  }

  /** Places an array-index key among the index keys of an ordered key list. */
  function InsertIndex(keys: seq<string>, k: string): (r: seq<string>)
    requires IsIndexKey(k)
    ensures |r| == |keys| + 1
    ensures forall x :: x in r <==> x == k || x in keys
  {
    if keys == [] || !IsIndexKey(keys[0]) || DigitsValue(k) < DigitsValue(keys[0]) then [k] + keys
    else [keys[0]] + InsertIndex(keys[1..], k)
  }

  lemma {:induction false} InsertIndexOrdered(keys: seq<string>, k: string)
    requires IsIndexKey(k) && k !in keys && Distinct(keys) && JsOrdered(keys)
    ensures Distinct(InsertIndex(keys, k)) && JsOrdered(InsertIndex(keys, k))
  {
    var r := InsertIndex(keys, k);
    if keys == [] || !IsIndexKey(keys[0]) || DigitsValue(k) < DigitsValue(keys[0]) {
      forall j | 0 < j < |r| && IsIndexKey(r[j])
        ensures DigitsValue(k) < DigitsValue(r[j])
      {
        assert r[j] == keys[j - 1];
        if j > 1 {
          assert DigitsValue(keys[0]) < DigitsValue(keys[j - 1]);
        }
      }
    } else {
      InsertIndexOrdered(keys[1..], k);
      var t := InsertIndex(keys[1..], k);
      assert r == [keys[0]] + t;
      if DigitsValue(k) == DigitsValue(keys[0]) {
        IndexKeyInjective(k, keys[0]);
      }
      TailAfterHead(keys);
      forall j | 0 < j < |r|
        ensures r[j] != keys[0]
        ensures IsIndexKey(r[j]) ==> DigitsValue(keys[0]) < DigitsValue(r[j])
      {
        assert r[j] in t;
      }
    }
  }

  /** In a distinct, ordered key list, every later key differs from the first and follows it. */
  lemma TailAfterHead(keys: seq<string>)
    requires keys != [] && Distinct(keys) && JsOrdered(keys)
    ensures forall x :: x in keys[1..] ==>
      x != keys[0] && (IsIndexKey(x) ==> IsIndexKey(keys[0]) && DigitsValue(keys[0]) < DigitsValue(x))
  {
    forall x | x in keys[1..]
      ensures x != keys[0] && (IsIndexKey(x) ==> IsIndexKey(keys[0]) && DigitsValue(keys[0]) < DigitsValue(x))
    {
      var m :| 0 <= m < |keys[1..]| && keys[1..][m] == x;
      assert keys[m + 1] == x;
    }
  }

  /** The key list after adding a key that is not yet present. */
  function AddKey(keys: seq<string>, k: string): seq<string>
  {
    if IsIndexKey(k) then InsertIndex(keys, k) else keys + [k]
  }

  lemma AddKeyOrdered(keys: seq<string>, k: string)
    requires k !in keys && Distinct(keys) && JsOrdered(keys)
    ensures Distinct(AddKey(keys, k)) && JsOrdered(AddKey(keys, k))
    ensures forall x :: x in AddKey(keys, k) <==> x == k || x in keys
  {
    if IsIndexKey(k) {
      InsertIndexOrdered(keys, k);
    }
  }

  /** `o[k] = v` */
  function Put<V>(o: Obj<V>, k: string, v: V): (r: Obj<V>)
    ensures Get(r, k) == Some(v)
    ensures forall x :: x != k ==> Get(r, x) == Get(o, x)
    ensures k in o.vals ==> r.keys == o.keys
    ensures k !in o.vals && !IsIndexKey(k) ==> r.keys == o.keys + [k]
  {
    if k in o.vals then RawObj(o.keys, o.vals[k := v])
    else
      AddKeyOrdered(o.keys, k);
      RawObj(AddKey(o.keys, k), o.vals[k := v])
  }

  lemma {:induction false} InsertIndexAtEnd(keys: seq<string>, k: string)
    requires IsIndexKey(k)
    requires forall i :: 0 <= i < |keys| ==> IsIndexKey(keys[i]) && DigitsValue(keys[i]) < DigitsValue(k)
    ensures InsertIndex(keys, k) == keys + [k]
  {
    if keys != [] {
      InsertIndexAtEnd(keys[1..], k);
    }
  }

  /**
   * Writing the keys of an enumeration in enumeration order into a fresh object
   * reproduces that order: how the source's copy loops rebuild objects.
   */
  lemma PutNextKey<V, W>(o: Obj<V>, src: Obj<W>, i: nat, v: V)
    requires i < |src.keys| && o.keys == src.keys[..i]
    ensures Put(o, src.keys[i], v).keys == src.keys[..i + 1]
  {
    var k := src.keys[i];
    assert k !in o.vals;
    if IsIndexKey(k) {
      InsertIndexAtEnd(o.keys, k);
    }
    assert src.keys[..i + 1] == src.keys[..i] + [k];
  }

  /** The keys of `keys` other than `k`, in order. */
  function RemoveKey(keys: seq<string>, k: string): (r: seq<string>)
    ensures forall x :: x in r <==> x in keys && x != k
    ensures |r| <= |keys|
  {
    if keys == [] then []
    else if keys[0] == k then RemoveKey(keys[1..], k)
    else [keys[0]] + RemoveKey(keys[1..], k)
  }

  lemma {:induction false} RemoveKeyOrdered(keys: seq<string>, k: string)
    requires Distinct(keys) && JsOrdered(keys)
    ensures Distinct(RemoveKey(keys, k)) && JsOrdered(RemoveKey(keys, k))
  {
    if keys != [] {
      RemoveKeyOrdered(keys[1..], k);
      var t := RemoveKey(keys[1..], k);
      if keys[0] != k {
        forall j | 0 <= j < |t|
          ensures t[j] != keys[0]
          ensures IsIndexKey(t[j]) ==> IsIndexKey(keys[0]) && DigitsValue(keys[0]) < DigitsValue(t[j])
        {
          assert t[j] in keys[1..];
          var m :| 0 <= m < |keys[1..]| && keys[1..][m] == t[j];
          assert keys[m + 1] == t[j];
        }
      }
    }
  }

  /** `delete o[k]` */
  function Delete<V>(o: Obj<V>, k: string): (r: Obj<V>)
    ensures Get(r, k) == None
    ensures forall x :: x != k ==> Get(r, x) == Get(o, x)
  {
    RemoveKeyOrdered(o.keys, k);
    RawObj(RemoveKey(o.keys, k), o.vals - {k})
  }

  // ---------------------------------------------------------------- copies

  /** `o` with every value passed through `f`, keys and their order unchanged. */
  function MapValues<V, W>(o: Obj<V>, f: V -> W): (r: Obj<W>)
    ensures r.keys == o.keys
    ensures forall k :: k in r.vals <==> k in o.vals
    ensures forall k :: k in o.vals ==> r.vals[k] == f(o.vals[k])
  {
    RawObj(o.keys, map k | k in o.vals :: f(o.vals[k]))
  }

  /** A copy loop's progress: `out` holds the first `i` entries of `src`, in order, each value through `f`. */
  ghost predicate CopiedUpTo<V, W>(out: Obj<W>, src: Obj<V>, f: V -> W, i: nat)
    requires i <= |src.keys|
  {
    && out.keys == src.keys[..i]
    && forall k :: k in out.vals ==> k in src.vals && out.vals[k] == f(src.vals[k])
  }

  lemma CopyStart<V, W>(src: Obj<V>, f: V -> W)
    ensures CopiedUpTo(Empty(), src, f, 0)
  {
  }

  /** Writing the next key of `src` into the copy. */
  lemma CopyStep<V, W>(out: Obj<W>, src: Obj<V>, f: V -> W, i: nat)
    requires i < |src.keys| && CopiedUpTo(out, src, f, i)
    ensures CopiedUpTo(Put(out, src.keys[i], f(src.vals[src.keys[i]])), src, f, i + 1)
  {
    PutNextKey(out, src, i, f(src.vals[src.keys[i]]));
  }

  /** A finished copy loop has built `MapValues(src, f)`. */
  lemma CopyDone<V, W>(out: Obj<W>, src: Obj<V>, f: V -> W)
    requires CopiedUpTo(out, src, f, |src.keys|)
    ensures out == MapValues(src, f)
  {
    assert src.keys[..|src.keys|] == src.keys;
    assert out.vals == MapValues(src, f).vals;
  }

  // ---------------------------------------------------------------- nested trees

  /** `t[a]?.[b]` */
  function Get2<V>(t: Obj<Obj<V>>, a: string, b: string): Option<V> {
    if a in t.vals then Get(t.vals[a], b) else None
  }

  /** `t[a]?.[b]?.[c]?.[d]` */
  function Get4<T>(t: Tree4<T>, a: string, b: string, c: string, d: string): Option<T> {
    if a in t.vals && b in t.vals[a].vals && c in t.vals[a].vals[b].vals then
      Get(t.vals[a].vals[b].vals[c], d)
    else None
  }

  /** `t[a] ??= {}` seen as a value: the existing child or a fresh empty object. */
  function Child<V>(t: Obj<Obj<V>>, a: string): (r: Obj<V>)
    ensures a in t.vals ==> r == t.vals[a]
  {
    if a in t.vals then t.vals[a] else Empty()
  }

  /** `(((t[a] ??= {})[b] ??= {})[c] ??= {})[d] = v` */
  function Put4<T>(t: Tree4<T>, a: string, b: string, c: string, d: string, v: T): (r: Tree4<T>)
    ensures Get4(r, a, b, c, d) == Some(v)
  {
    var ta := Child(t, a);
    var tb := Child(ta, b);
    var tc := Child(tb, c);
    Put(t, a, Put(ta, b, Put(tb, c, Put(tc, d, v))))
  }

  /** `Get4` reads through `Child`: a missing level reads as an empty object. */
  lemma Get4Child<T>(t: Tree4<T>, a: string, b: string, c: string, d: string)
    ensures Get4(t, a, b, c, d) == Get(Child(Child(Child(t, a), b), c), d)
  {
  }

  /** The child under a key after writing a child under some key. */
  lemma ChildPut<V>(t: Obj<Obj<V>>, a: string, x: Obj<V>, a': string)
    ensures Child(Put(t, a, x), a') == if a' == a then x else Child(t, a')
  {
    assert Get(Put(t, a, x), a') == if a' == a then Some(x) else Get(t, a');
  }

  /** Setting one path leaves every other path as it was. */
  lemma Put4Frame<T>(t: Tree4<T>, a: string, b: string, c: string, d: string, v: T)
    ensures forall a', b', c', d' :: (a', b', c', d') != (a, b, c, d) ==>
      Get4(Put4(t, a, b, c, d, v), a', b', c', d') == Get4(t, a', b', c', d')
  {
    var ta := Child(t, a);
    var tb := Child(ta, b);
    var tc := Child(tb, c);
    var xc := Put(tc, d, v);
    var xb := Put(tb, c, xc);
    var xa := Put(ta, b, xb);
    var r := Put4(t, a, b, c, d, v);
    assert r == Put(t, a, xa);
    forall a', b', c', d' | (a', b', c', d') != (a, b, c, d)
      ensures Get4(r, a', b', c', d') == Get4(t, a', b', c', d')
    {
      Get4Child(r, a', b', c', d');
      Get4Child(t, a', b', c', d');
      ChildPut(t, a, xa, a');
      if a' == a {
        ChildPut(ta, b, xb, b');
        if b' == b {
          ChildPut(tb, c, xc, c');
        }
      }
    }
  }
}
