/**
 * `Array.prototype.sort(compare)`: since ES2019 the sort is stable, so its
 * result is fixed by the order `le` ("a may come before b", i.e. `compare(a, b) <= 0`):
 * ascending under `le`, and elements that `le` cannot tell apart keep their
 * input order. Insertion sort computes exactly that result.
 */
module Sorting {

  /** `le` is total and transitive, as every comparator the source passes is. */
  ghost predicate TotalPreorder<T(!new)>(le: (T, T) -> bool) {
    && (forall a, b :: le(a, b) || le(b, a))
    && (forall a, b, c :: le(a, b) && le(b, c) ==> le(a, c))
  }

  predicate Equiv<T>(le: (T, T) -> bool, a: T, b: T) {
    le(a, b) && le(b, a)
  }

  ghost predicate Sorted<T>(s: seq<T>, le: (T, T) -> bool) {
    forall i, j :: 0 <= i < j < |s| ==> le(s[i], s[j])
  }

  /** The elements of `s` that `le` cannot tell apart from `e`, in their order in `s`. */
  function Class<T>(s: seq<T>, le: (T, T) -> bool, e: T): (r: seq<T>)
    ensures |r| <= |s|
  {
    if s == [] then []
    else (if Equiv(le, s[0], e) then [s[0]] else []) + Class(s[1..], le, e)
  }

  /** Puts `x` before the first element it may precede. */
  function Insert<T>(t: seq<T>, x: T, le: (T, T) -> bool): (r: seq<T>)
    ensures |r| == |t| + 1
  {
    if t == [] || le(x, t[0]) then [x] + t else [t[0]] + Insert(t[1..], x, le)
  }

  function Sort<T>(s: seq<T>, le: (T, T) -> bool): (r: seq<T>)
    ensures |r| == |s|
  {
    if s == [] then [] else Insert(Sort(s[1..], le), s[0], le)
  }

  lemma {:induction false} InsertPermutes<T>(t: seq<T>, x: T, le: (T, T) -> bool)
    ensures multiset(Insert(t, x, le)) == multiset(t) + multiset{x}
  {
    if t != [] && !le(x, t[0]) {
      InsertPermutes(t[1..], x, le);
      assert t == [t[0]] + t[1..];
    }
  }

  lemma {:induction false} InsertSorted<T(!new)>(t: seq<T>, x: T, le: (T, T) -> bool)
    requires TotalPreorder(le) && Sorted(t, le)
    ensures Sorted(Insert(t, x, le), le)
  {
    if t != [] && !le(x, t[0]) {
      InsertSorted(t[1..], x, le);
      var r := Insert(t, x, le);
      InsertPermutes(t[1..], x, le);
      forall j | 1 <= j < |r| ensures le(t[0], r[j]) {
        assert r[j] in multiset(Insert(t[1..], x, le));
        assert r[j] in multiset(t[1..]) + multiset{x};
      }
    }
  }

  /** Inserting `x` adds it FIRST among the elements equivalent to it. */
  lemma {:induction false} InsertClass<T(!new)>(t: seq<T>, x: T, le: (T, T) -> bool, e: T)
    requires TotalPreorder(le)
    ensures Class(Insert(t, x, le), le, e) ==
      (if Equiv(le, x, e) then [x] else []) + Class(t, le, e)
  {
    if t == [] || le(x, t[0]) {
      assert ([x] + t)[1..] == t;
    } else {
      InsertClass(t[1..], x, le, e);
      assert ([t[0]] + Insert(t[1..], x, le))[1..] == Insert(t[1..], x, le);
    }
  }

  /** The result is a permutation of the input. */
  lemma {:induction false} SortPermutes<T>(s: seq<T>, le: (T, T) -> bool)
    ensures multiset(Sort(s, le)) == multiset(s)
  {
    if s != [] {
      SortPermutes(s[1..], le);
      InsertPermutes(Sort(s[1..], le), s[0], le);
      assert s == [s[0]] + s[1..];
    }
  }

  /** The result is ascending under `le`. */
  lemma {:induction false} SortSorted<T(!new)>(s: seq<T>, le: (T, T) -> bool)
    requires TotalPreorder(le)
    ensures Sorted(Sort(s, le), le)
  {
    if s != [] {
      SortSorted(s[1..], le);
      InsertSorted(Sort(s[1..], le), s[0], le);
    }
  }

  /** The sort is stable: equivalent elements keep their relative input order. */
  lemma {:induction false} SortStable<T(!new)>(s: seq<T>, le: (T, T) -> bool, e: T)
    requires TotalPreorder(le)
    ensures Class(Sort(s, le), le, e) == Class(s, le, e)
  {
    if s != [] {
      SortStable(s[1..], le, e);
      InsertClass(Sort(s[1..], le), s[0], le, e);
    }
  }
}
