/**
 * Edit distance between two strings: the least number of one-character
 * insertions, deletions and substitutions turning one into the other. The
 * resolver in src/searcher.ts gets it from the `fast-levenshtein` package,
 * which compares UTF-16 code units; here it is defined directly.
 */
module Levenshtein {

  function Min3(x: nat, y: nat, z: nat): (r: nat)
    ensures r <= x && r <= y && r <= z
    ensures r == x || r == y || r == z
  {
    if x <= y && x <= z then x else if y <= z then y else z
  }

  /** The distance, by the last characters of both strings. */
  function Lev(a: string, b: string): nat
    decreases |a| + |b|
  {
    if a == [] then |b|
    else if b == [] then |a|
    else
      var i := |a| - 1;
      var j := |b| - 1;
      Min3(Lev(a[..i], b) + 1, Lev(a, b[..j]) + 1, Lev(a[..i], b[..j]) + if a[i] == b[j] then 0 else 1)
  }

  function Max(x: nat, y: nat): nat { if x <= y then y else x }

  /** A string is at distance 0 from itself. */
  lemma {:induction false} LevSelf(a: string)
    ensures Lev(a, a) == 0
  {
    if a != [] {
      LevSelf(a[..|a| - 1]);
    }
  }

  /** The distance is at least the difference of the lengths. */
  lemma {:induction false} LevLowerBound(a: string, b: string)
    ensures Lev(a, b) >= |a| - |b| && Lev(a, b) >= |b| - |a|
    decreases |a| + |b|
  {
    if a != [] && b != [] {
      var i := |a| - 1;
      var j := |b| - 1;
      LevLowerBound(a[..i], b);
      LevLowerBound(a, b[..j]);
      LevLowerBound(a[..i], b[..j]);
    }
  }

  /** The distance is at most the length of the longer string. */
  lemma {:induction false} LevUpperBound(a: string, b: string)
    ensures Lev(a, b) <= Max(|a|, |b|)
    decreases |a| + |b|
  {
    if a != [] && b != [] {
      LevUpperBound(a[..|a| - 1], b[..|b| - 1]);
    }
  }

  /** Distance 0 means the strings are equal, and only then. */
  lemma {:induction false} LevZeroIff(a: string, b: string)
    ensures Lev(a, b) == 0 <==> a == b
    decreases |a| + |b|
  {
    if a == b {
      LevSelf(a);
    } else if a != [] && b != [] && Lev(a, b) == 0 {
      var i := |a| - 1;
      var j := |b| - 1;
      LevZeroIff(a[..i], b[..j]);
    }
  }

  /** The distance does not depend on the order of its arguments. */
  lemma {:induction false} LevSymmetric(a: string, b: string)
    ensures Lev(a, b) == Lev(b, a)
    decreases |a| + |b|
  {
    if a != [] && b != [] {
      var i := |a| - 1;
      var j := |b| - 1;
      LevSymmetric(a[..i], b);
      LevSymmetric(a, b[..j]);
      LevSymmetric(a[..i], b[..j]);
    }
  }
}
