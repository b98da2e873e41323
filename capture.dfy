/**
 * `capture_rgx` (src/iconizeMatch.ts) and the global `matchAll` over a
 * document: `[capture]`, not directly followed by `(`, optionally followed by
 * whitespace and `(option)`.
 *
 * Every quantifier of the expression is greedy over a character class that
 * excludes the character which must follow it, so backtracking can never
 * produce a shorter match: each part is the longest run of its class.
 */
module Capture {
  import opened Wrappers
  import opened Text

  /** One result of `md.matchAll(capture_rgx)`. */
  datatype IconMatch = IconMatch(
    /** `match.index` */
    index: nat,
    /** `match[0]`, the whole matched text */
    text: string,
    /** `groups.capture` */
    capture: string,
    /** `groups.option`, absent without a tail */
    option: Option<string>)

  /** The longest run of characters satisfying `ok` that starts at `p`. */
  function Run(s: string, p: nat, ok: char -> bool): (n: nat)
    requires p <= |s|
    ensures p + n <= |s|
    ensures forall i :: p <= i < p + n ==> ok(s[i])
    ensures p + n == |s| || !ok(s[p + n])
    decreases |s| - p
  {
    if p == |s| || !ok(s[p]) then 0 else 1 + Run(s, p + 1, ok)
  }

  predicate NotBracket(c: char) { c != '[' && c != ']' }
  predicate NotClose(c: char) { c != ')' }

  /** The tail `\s+\((?<option>[^)]+)\)` at `q`: the length of its whitespace and the option. */
  function TailAt(s: string, q: nat): (r: Option<(nat, string)>)
    requires q <= |s|
    ensures r.Some? ==> var (w, opt) := r.value;
      && 1 <= w && q + w + |opt| + 2 <= |s| && opt != [] && ')' !in opt
      && AllSpace(s[q..q + w]) && s[q + w..q + w + |opt| + 2] == "(" + opt + ")"
  {
    var w := Run(s, q, IsJsSpace);
    if w == 0 || q + w == |s| || s[q + w] != '(' then None
    else
      var o := Run(s, q + w + 1, NotClose);
      if o == 0 || q + w + 1 + o == |s| then None
      else
        var opt := s[q + w + 1..q + w + 1 + o];
        assert s[q + w..q + w + o + 2] == "(" + opt + ")";
        Some((w, opt))
  }

  /** The match of `capture_rgx` starting exactly at `i`, if any. */
  function MatchAt(s: string, i: nat): (r: Option<IconMatch>)
    requires i <= |s|
    ensures r.Some? ==> var m := r.value;
      && m.index == i && i + |m.text| <= |s| && s[i..i + |m.text|] == m.text
      && m.capture != [] && (forall c :: c in m.capture ==> NotBracket(c))
      && StartsWith(m.text, "[" + m.capture + "]")
      && (i + |m.capture| + 2 == |s| || s[i + |m.capture| + 2] != '(')
      && (m.option.Some? ==> m.option.value != [] && ')' !in m.option.value)
      && (m.option.None? ==> m.text == "[" + m.capture + "]")
  {
    if i == |s| || s[i] != '[' then None
    else
      var n := Run(s, i + 1, NotBracket);
      var k := i + n + 2;
      if n == 0 || i + n + 1 == |s| || s[i + n + 1] != ']' || (k < |s| && s[k] == '(') then None
      else
        var capture := s[i + 1..i + n + 1];
        assert s[i..k] == "[" + capture + "]";
        match TailAt(s, k)
        case None => Some(IconMatch(i, s[i..k], capture, None))
        case Some((w, opt)) => Some(IconMatch(i, s[i..k + w + |opt| + 2], capture, Some(opt)))
  }

  /** A `[` whose bracket text is closed by `]` and then directly followed by `(` is no match (a Markdown link). */
  lemma LinkIsNoMatch(s: string, i: nat, n: nat)
    requires i + n + 2 < |s| && s[i] == '[' && s[i + n + 1] == ']' && s[i + n + 2] == '('
    requires forall j :: i < j <= i + n ==> NotBracket(s[j])
    ensures MatchAt(s, i).None?
  {
    if n > 0 {
      var m := Run(s, i + 1, NotBracket);
      assert m == n;
    }
  }

  /** `md.matchAll(capture_rgx)` from position `i`: a match ends the search at its end, otherwise the search moves one character on. */
  function Scan(s: string, i: nat): seq<IconMatch>
    requires i <= |s|
    decreases |s| - i
  {
    if i == |s| then []
    else match MatchAt(s, i)
      case Some(m) => [m] + Scan(s, i + |m.text|)
      case None => Scan(s, i + 1)
  }

  /** `[...md.matchAll(capture_rgx)]` */
  function MatchAll(md: string): seq<IconMatch> {
    Scan(md, 0)
  }

  /** One step of the search at a position before the end. */
  lemma ScanUnfold(s: string, i: nat)
    requires i < |s|
    ensures MatchAt(s, i).Some? ==>
      Scan(s, i) == [MatchAt(s, i).value] + Scan(s, i + |MatchAt(s, i).value.text|)
    ensures MatchAt(s, i).None? ==> Scan(s, i) == Scan(s, i + 1)
  {
  }

  /** Whether `m` is what `MatchAt` finds at `m`'s own index. */
  predicate FoundAt(s: string, m: IconMatch) {
    m.index < |s| && MatchAt(s, m.index) == Some(m)
  }

  /** Every match of `ms` starts at or after `i` and is what `MatchAt` finds there. */
  predicate AllFound(s: string, ms: seq<IconMatch>, i: nat) {
    forall k :: 0 <= k < |ms| ==> i <= ms[k].index && FoundAt(s, ms[k])
  }

  lemma AllFoundCons(s: string, m: IconMatch, rest: seq<IconMatch>, i: nat, j: nat)
    requires i <= m.index && FoundAt(s, m) && i <= j && AllFound(s, rest, j)
    ensures AllFound(s, [m] + rest, i)
  {
    var ms := [m] + rest;
    forall k | 0 <= k < |ms|
      ensures i <= ms[k].index && FoundAt(s, ms[k])
    {
      if k > 0 {
        assert ms[k] == rest[k - 1];
      }
    }
  }

  /**
   * Every reported match, from position `i` on, starts at or after `i` and is
   * the one `MatchAt` finds at its own index.
   */
  lemma {:induction false} ScanSound(s: string, i: nat)
    requires i <= |s|
    ensures AllFound(s, Scan(s, i), i)
    decreases |s| - i
  {
    if i < |s| {
      var r := MatchAt(s, i);
      if r.Some? {
        var m := r.value;
        ScanSound(s, i + |m.text|);
        AllFoundCons(s, m, Scan(s, i + |m.text|), i, i + |m.text|);
      } else {
        ScanSound(s, i + 1);
      }
      ScanUnfold(s, i);
    }
  }

  /** Each match starts after the previous one ends. */
  predicate Disjoint(ms: seq<IconMatch>) {
    forall k :: 0 <= k < |ms| - 1 ==> ms[k].index + |ms[k].text| <= ms[k + 1].index
  }

  /** A match that ends before the first of a disjoint list starts keeps the list disjoint. */
  lemma DisjointCons(m: IconMatch, rest: seq<IconMatch>)
    requires Disjoint(rest)
    requires rest != [] ==> m.index + |m.text| <= rest[0].index
    ensures Disjoint([m] + rest)
  {
    var ms := [m] + rest;
    forall k | 0 <= k < |ms| - 1
      ensures ms[k].index + |ms[k].text| <= ms[k + 1].index
    {
      if k > 0 {
        assert ms[k] == rest[k - 1] && ms[k + 1] == rest[k];
      }
    }
  }

  /** The reported matches do not overlap. */
  lemma {:induction false} ScanDisjoint(s: string, i: nat)
    requires i <= |s|
    ensures Disjoint(Scan(s, i))
    decreases |s| - i
  {
    if i < |s| {
      var r := MatchAt(s, i);
      if r.Some? {
        var m := r.value;
        var rest := Scan(s, i + |m.text|);
        ScanDisjoint(s, i + |m.text|);
        ScanSound(s, i + |m.text|);
        DisjointCons(m, rest);
      } else {
        ScanDisjoint(s, i + 1);
      }
      ScanUnfold(s, i);
    }
  }
}
