/**
 * Capture modifiers (src/modifiers.ts): `(Every)` and `(Any)` inside a
 * bracketed capture are removed from the text that is searched, and each one
 * that occurred adds a post-filter over the candidate list.
 */
module Modifiers {
  import opened Wrappers
  import opened Text

  datatype Modifier = Every | Any

  /** `modifiersList`: Every first, then Any. */
  const ModifiersList: seq<Modifier> := [Every, Any]

  // The literal part of `/\s*\(Every\)\s*/gi` and `/\s*\(Any\)\s*/gi`, lower-cased.
  function Pattern(m: Modifier): (r: string)
    ensures r != [] && r[0] == '(' && r[|r| - 1] == ')'
  {
    match m
    case Every => "(every)"
    case Any => "(any)"
  }

  // ---------------------------------------------------------------- the regular expression

  /** Length of the run of `\s` characters starting at `p`. */
  function SpaceRun(s: string, p: nat): (n: nat)
    requires p <= |s|
    ensures p + n <= |s|
    ensures forall i :: p <= i < p + n ==> IsJsSpace(s[i])
    ensures p + n == |s| || !IsJsSpace(s[p + n])
    decreases |s| - p
  {
    if p < |s| && IsJsSpace(s[p]) then 1 + SpaceRun(s, p + 1) else 0
  }

  /** `pat` occurs at `q`, compared case-insensitively (the `i` flag on ASCII text). */
  predicate OccursAt(s: string, pat: string, q: nat) {
    q + |pat| <= |s| && ToLower(s[q..q + |pat|]) == pat
  }

  /** `pat` occurs at `p` or later. */
  predicate OccursFrom(s: string, pat: string, p: nat)
    decreases |s| - p
  {
    p < |s| && (OccursAt(s, pat, p) || OccursFrom(s, pat, p + 1))
  }

  lemma {:induction false} OccursLaterFrom(s: string, pat: string, p: nat, q: nat)
    requires p <= q && OccursFrom(s, pat, q)
    ensures OccursFrom(s, pat, p)
    decreases q - p
  {
    if p < q {
      OccursLaterFrom(s, pat, p + 1, q);
    }
  }

  lemma {:induction false} OccursLater(s: string, pat: string, p: nat, q: nat)
    requires p <= q < |s| && OccursAt(s, pat, q)
    ensures OccursFrom(s, pat, p)
    decreases q - p
  {
    if p < q {
      OccursLater(s, pat, p + 1, q);
    }
  }

  /**
   * A match of `\s*PAT\s*` starting at `p`, as its end. The leading `\s*` is
   * greedy, and since `PAT` starts with `(` no shorter run can succeed; the
   * trailing `\s*` takes every white space after `PAT`.
   */
  function MatchAt(s: string, pat: string, p: nat): (r: Option<nat>)
    requires p <= |s| && pat != []
    ensures r.Some? ==> p < r.value <= |s|
  {
    var q := p + SpaceRun(s, p);
    if OccursAt(s, pat, q) then Some(q + |pat| + SpaceRun(s, q + |pat|)) else None
  }

  // `s.slice(p).replace(/\s*PAT\s*/gi, () => ' ')`: the global replace scans
  // left to right, replaces each match by one space and resumes after it.
  // The flag records whether the callback ran.
  function ReplaceFrom(s: string, pat: string, p: nat): (r: (string, bool))
    requires p <= |s| && pat != []
    decreases |s| - p
  {
    if p == |s| then ([], false)
    else match MatchAt(s, pat, p)
      case Some(e) => var rest := ReplaceFrom(s, pat, e); (" " + rest.0, true)
      case None => var rest := ReplaceFrom(s, pat, p + 1); ([s[p]] + rest.0, rest.1)
  }

  /** The callback runs exactly when the pattern occurs somewhere after `p`. */
  lemma {:induction false} ReplaceFlag(s: string, pat: string, p: nat)
    requires p <= |s| && pat != [] && !IsJsSpace(pat[0]) && !IsUpper(pat[0])
    ensures ReplaceFrom(s, pat, p).1 <==> OccursFrom(s, pat, p)
    decreases |s| - p
  {
    if p < |s| {
      var q := p + SpaceRun(s, p);
      if OccursAt(s, pat, q) {
        OccursLater(s, pat, p, q);
      } else {
        ReplaceFlag(s, pat, p + 1);
      }
    }
  }

  /** Without a match the text is left as it was. */
  lemma {:induction false} ReplaceNoMatch(s: string, pat: string, p: nat)
    requires p <= |s| && pat != [] && !ReplaceFrom(s, pat, p).1
    ensures ReplaceFrom(s, pat, p).0 == s[p..]
    decreases |s| - p
  {
    if p < |s| {
      ReplaceNoMatch(s, pat, p + 1);
      assert s[p..] == [s[p]] + s[p + 1..];
    }
  }

  lemma ReplaceNoMatchWhole(s: string, pat: string)
    requires pat != []
    ensures !ReplaceFrom(s, pat, 0).1 ==> ReplaceFrom(s, pat, 0).0 == s
  {
    if !ReplaceFrom(s, pat, 0).1 {
      ReplaceNoMatch(s, pat, 0);
    }
  }

  // ---------------------------------------------------------------- createModifier

  /**
   * The function `createModifier` returns, applied to a capture: the refined
   * capture (matches replaced, then trimmed) and whether the modifier matched,
   * i.e. whether it contributes its filter.
   */
  function CreateModifier(m: Modifier, capture: string): (r: (string, bool)) {
    var rep := ReplaceFrom(capture, Pattern(m), 0);
    (Trim(rep.0), rep.1)
  }

  /** A modifier matches exactly when its pattern occurs; otherwise the capture is only trimmed. */
  lemma CreateModifierSpec(m: Modifier, capture: string)
    ensures CreateModifier(m, capture).1 <==> OccursFrom(capture, Pattern(m), 0)
    ensures !CreateModifier(m, capture).1 ==> CreateModifier(m, capture).0 == Trim(capture)
  {
    ReplaceFlag(capture, Pattern(m), 0);
    ReplaceNoMatchWhole(capture, Pattern(m));
  }

  /** The trim happens whether or not the modifier matched. */
  lemma CreateModifierTrims(m: Modifier, capture: string)
    ensures Trim(CreateModifier(m, capture).0) == CreateModifier(m, capture).0
  {
    TrimIdempotent(ReplaceFrom(capture, Pattern(m), 0).0);
  }

  // ---------------------------------------------------------------- refine

  /**
   * `refine`'s `.map` over the modifiers `ms`, starting from `capture`: each
   * modifier (`apply`) runs on the capture the previous one left; the result
   * is the last capture and the modifiers that matched, in list order.
   */
  function RunModifiers(ms: seq<Modifier>, capture: string, apply: (Modifier, string) -> (string, bool))
    : (string, seq<Modifier>)
  {
    if ms == [] then (capture, [])
    else
      var step := apply(ms[0], capture);
      var rest := RunModifiers(ms[1..], step.0, apply);
      (rest.0, (if step.1 then [ms[0]] else []) + rest.1)
  }

  /** The loop of `refine`: threads the reassigned capture through the modifiers in order. */
  method MapModifiers(ms: seq<Modifier>, raw: string, apply: (Modifier, string) -> (string, bool))
    returns (capture: string, filters: seq<Modifier>)
    ensures (capture, filters) == RunModifiers(ms, raw, apply)
  {
    capture := raw;
    filters := [];
    assert ms[0..] == ms;
    for i := 0 to |ms|
      invariant RunModifiers(ms[i..], capture, apply).0 == RunModifiers(ms, raw, apply).0
      invariant filters + RunModifiers(ms[i..], capture, apply).1 == RunModifiers(ms, raw, apply).1
    {
      var m := ms[i];
      var step := apply(m, capture);
      ghost var rest := RunModifiers(ms[i + 1..], step.0, apply);
      assert ms[i..][1..] == ms[i + 1..];
      assert RunModifiers(ms[i..], capture, apply) == (rest.0, (if step.1 then [m] else []) + rest.1);
      assert filters + ((if step.1 then [m] else []) + rest.1) == (filters + if step.1 then [m] else []) + rest.1;
      capture := step.0;
      if step.1 {
        filters := filters + [m];
      }
    }
    assert ms[|ms|..] == [];
    assert filters + [] == filters;
  }

  /** `refine(rawCapture)`: the refined capture and the filters of the modifiers that occurred. */
  method Refine(raw: string) returns (capture: string, filters: seq<Modifier>)
    ensures (capture, filters) == RunModifiers(ModifiersList, raw, CreateModifier)
  {
    capture, filters := MapModifiers(ModifiersList, raw, CreateModifier);
  }

  /** Two modifiers: the second runs on the first one's capture. */
  lemma RunTwo(a: Modifier, b: Modifier, raw: string, apply: (Modifier, string) -> (string, bool))
    ensures var s1 := apply(a, raw); var s2 := apply(b, s1.0);
      RunModifiers([a, b], raw, apply) ==
        (s2.0, (if s1.1 then [a] else []) + (if s2.1 then [b] else []))
  {
    var s1 := apply(a, raw);
    var s2 := apply(b, s1.0);
    var fb := if s2.1 then [b] else [];
    assert [a, b][0] == a && [a, b][1..] == [b];
    assert [b][0] == b && [b][1..] == [];
    assert RunModifiers([], s2.0, apply) == (s2.0, []);
    assert fb + [] == fb;
    assert RunModifiers([b], s1.0, apply) == (s2.0, fb);
  }

  lemma {:induction false} OccursInSlice(s: string, pat: string, a: nat, b: nat, q: nat)
    requires a <= b <= |s| && OccursFrom(s[a..b], pat, q)
    ensures OccursFrom(s, pat, a + q)
    decreases b - a - q
  {
    if OccursAt(s[a..b], pat, q) {
      var t := s[a..b];
      assert q + |pat| <= |t|;
      assert forall i :: q <= i < q + |pat| ==> t[i] == s[a + i];
      assert t[q..q + |pat|] == s[a + q..a + q + |pat|];
      OccursLater(s, pat, a + q, a + q);
    } else {
      OccursInSlice(s, pat, a, b, q + 1);
    }
  }

  /** An occurrence inside a part `s[a..b]` of a string is an occurrence in the string. */
  lemma OccursInPart(s: string, pat: string, t: string, a: nat, b: nat)
    requires a <= b <= |s| && t == s[a..b] && OccursFrom(t, pat, 0)
    ensures OccursFrom(s, pat, 0)
  {
    OccursInSlice(s, pat, a, b, 0);
    OccursLaterFrom(s, pat, 0, a);
  }

  /** Trimming never creates an occurrence of a pattern. */
  lemma OccursInTrim(s: string, pat: string)
    ensures OccursFrom(Trim(s), pat, 0) ==> OccursFrom(s, pat, 0)
  {
    var t := Trim(s);
    if OccursFrom(t, pat, 0) {
      TrimSlice(s);
      var a := |s| - |TrimStart(s)|;
      var b := a + |t|;
      assert a <= b <= |s| && t == s[a..b];
      OccursInPart(s, pat, t, a, b);
    }
  }

  lemma RefineFiltersOf(raw: string, apply: (Modifier, string) -> (string, bool))
    requires apply(Every, raw).1 <==> OccursFrom(raw, Pattern(Every), 0)
    requires !OccursFrom(raw, Pattern(Every), 0) ==> apply(Every, raw).0 == Trim(raw)
    requires !OccursFrom(raw, Pattern(Any), 0) ==> !OccursFrom(Trim(raw), Pattern(Any), 0)
    requires apply(Any, Trim(raw)).1 <==> OccursFrom(Trim(raw), Pattern(Any), 0)
    requires !OccursFrom(Trim(raw), Pattern(Any), 0) ==> apply(Any, Trim(raw)).0 == Trim(Trim(raw))
    requires Trim(Trim(raw)) == Trim(raw)
    ensures var (capture, fs) := RunModifiers(ModifiersList, raw, apply);
      && (Every in fs <==> OccursFrom(raw, Pattern(Every), 0))
      && (fs == [Every, Any] || |fs| <= 1)
      && (!OccursFrom(raw, Pattern(Every), 0) && !OccursFrom(raw, Pattern(Any), 0) ==>
            capture == Trim(raw) && fs == [])
  {
    RunTwo(Every, Any, raw, apply);
  }

  /**
   * Refine keeps a filter exactly for the modifiers whose pattern occurred, in
   * list order; with neither pattern in the capture it is only trimmed.
   */
  lemma RefineFilters(raw: string)
    ensures var (capture, fs) := RunModifiers(ModifiersList, raw, CreateModifier);
      && (Every in fs <==> OccursFrom(raw, Pattern(Every), 0))
      && (fs == [Every, Any] || |fs| <= 1)
      && (!OccursFrom(raw, Pattern(Every), 0) && !OccursFrom(raw, Pattern(Any), 0) ==>
            capture == Trim(raw) && fs == [])
  {
    CreateModifierSpec(Every, raw);
    CreateModifierSpec(Any, Trim(raw));
    TrimIdempotent(raw);
    OccursInTrim(raw, Pattern(Any));
    RefineFiltersOf(raw, CreateModifier);
  }

  // ---------------------------------------------------------------- the filters

  /**
   * A modifier's filter with the evident intent for `(Any)`: at most the first
   * candidate. The final flag is set when the list it receives is non-empty.
   */
  function Filter<T>(m: Modifier, d: seq<T>): (r: (seq<T>, bool))
    ensures r.1 <==> d != []
    ensures |r.0| <= |d| && r.0 == d[..|r.0|]
    ensures m.Every? ==> r.0 == d
    ensures m.Any? ==> |r.0| == if d == [] then 0 else 1
  {
    match m
    case Every => (d, d != [])
    case Any => (if d == [] then [] else [d[0]], d != [])
  }

  /**
   * `modifierFilter`: the kept filters reduced from the left, each applied to
   * the previous list; the flag is the OR of every filter's flag, from false.
   */
  function ModifierFilter<T>(fs: seq<Modifier>, d: seq<T>): (seq<T>, bool) {
    if fs == [] then (d, false)
    else
      var (acc, final) := ModifierFilter(fs[..|fs| - 1], d);
      var (arr, f) := Filter(fs[|fs| - 1], acc);
      (arr, f || final)
  }

  /** The first element of `d`, if any, as a list. */
  function Head1<T>(d: seq<T>): seq<T> {
    if d == [] then [] else [d[0]]
  }

  /**
   * Whatever modifiers were kept: the list is cut to its first candidate when
   * `(Any)` is among them and unchanged otherwise, and the flag is set exactly
   * when some modifier was kept and the list was non-empty.
   */
  lemma {:induction false} ModifierFilterResult<T>(fs: seq<Modifier>, d: seq<T>)
    ensures ModifierFilter(fs, d) == (if Any in fs then Head1(d) else d, fs != [] && d != [])
  {
    if fs != [] {
      var init := fs[..|fs| - 1];
      ModifierFilterResult(init, d);
      assert Any in fs <==> Any in init || fs[|fs| - 1] == Any by {
        assert fs == init + [fs[|fs| - 1]];
      }
    }
  }

  /** With no modifier, `modifierFilter` is the identity with final false. */
  lemma ModifierFilterNone<T>(d: seq<T>)
    ensures ModifierFilter([], d) == (d, false)
  {
  }

  // ---------------------------------------------------------------- as written

  /**
   * A filter as written, over lists that may hold `undefined` (`None`):
   * `(Any)` is `[d[0]]`, a one-element list holding `undefined` when `d` is empty.
   */
  function FilterAsWritten<T>(m: Modifier, d: seq<Option<T>>): (r: (seq<Option<T>>, bool))
    ensures r.1 <==> d != []
    ensures m.Every? ==> r.0 == d
    ensures m.Any? ==> |r.0| == 1 && (d != [] ==> r.0 == [d[0]])
  {
    match m
    case Every => (d, d != [])
    case Any => ([if d == [] then None else d[0]], d != [])
  }

  /** `modifierFilter` as written, built from `FilterAsWritten`. */
  function ModifierFilterAsWritten<T>(fs: seq<Modifier>, d: seq<Option<T>>): (seq<Option<T>>, bool) {
    if fs == [] then (d, false)
    else
      var (acc, final) := ModifierFilterAsWritten(fs[..|fs| - 1], d);
      var (arr, f) := FilterAsWritten(fs[|fs| - 1], acc);
      (arr, f || final)
  }

  /** A list of candidates as a list that may hold `undefined`. */
  function Lift<T>(d: seq<T>): (r: seq<Option<T>>)
    ensures |r| == |d| && forall i :: 0 <= i < |d| ==> r[i] == Some(d[i])
  {
    seq(|d|, i requires 0 <= i < |d| => Some(d[i]))
  }

  /** On a non-empty list the written filters and the corrected ones agree. */
  lemma {:induction false} ModifierFilterAsWrittenAgrees<T>(fs: seq<Modifier>, d: seq<T>)
    requires d != []
    ensures ModifierFilterAsWritten(fs, Lift(d)) == (Lift(ModifierFilter(fs, d).0), ModifierFilter(fs, d).1)
  {
    if fs != [] {
      var init := fs[..|fs| - 1];
      ModifierFilterAsWrittenAgrees(init, d);
      ModifierFilterResult(init, d);
      var acc := ModifierFilter(init, d).0;
      assert acc != [];
      if fs[|fs| - 1] == Any {
        assert Lift([acc[0]]) == [Lift(acc)[0]];
      }
    }
  }

  /**
   * On an empty list, the filters `refine` can keep that include `(Any)` make
   * one `undefined` candidate out of none, with final false; the corrected
   * filters leave the list empty.
   */
  lemma ModifierFilterAsWrittenOnEmpty<T>(fs: seq<Modifier>)
    requires fs == [Any] || fs == [Every, Any]
    ensures ModifierFilterAsWritten<T>(fs, []) == ([None], false)
    ensures ModifierFilter<T>(fs, []) == ([], false)
  {
    assert fs[..|fs| - 1] == [] || fs[..|fs| - 1] == [Every];
    assert [Every][..0] == [];
  }
}
