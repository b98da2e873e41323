/**
 * `bracketsSearch` of src/searcher.ts up to its replacement list: every
 * `[capture]` of the document is resolved in document order, unresolved ones
 * are skipped, and the replacements are ordered longest matched text first so
 * that a longer text is replaced before any shorter text inside it.
 */
module Brackets {
  import opened Wrappers
  import opened Sorting
  import opened Base
  import opened DictEntries
  import opened Capture
  import opened Unclear
  import opened IconizeMatch

  /** One entry of `replaces`: the matched text and the items it stands for. */
  datatype Replacement = Replacement(from: string, to: seq<(Base, string)>)

  /** `{ name: de.name, base: [de.source, de.entry, de.meta, de.sNbt] }` */
  function Target(de: DictEntry): (r: (Base, string))
    ensures r.1 == de.name && r.0.source == de.source && r.0.entry == de.entry
    ensures r.0.meta == Some(de.meta) && r.0.sNbt == Some(de.sNbt)
  {
    (Base(de.source, de.entry, Some(de.meta), Some(de.sNbt)), de.name)
  }

  function Targets(dicts: seq<DictEntry>): (r: seq<(Base, string)>)
    ensures |r| == |dicts| && forall i :: 0 <= i < |dicts| ==> r[i] == Target(dicts[i])
  {
    seq(|dicts|, i requires 0 <= i < |dicts| => Target(dicts[i]))
  }

  /** The replacement a resolved match contributes: none for `undefined` or an empty list. */
  function Contribution(m: IconMatch, found: Option<seq<DictEntry>>): seq<Replacement> {
    if found.Some? && found.value != [] then [Replacement(m.text, Targets(found.value))] else []
  }

  /** How one match resolved: `iconizeMatch`'s result and the captures recorded meanwhile. */
  type MatchRun = (Result<Option<seq<DictEntry>>>, seq<string>)

  /** What `iconizeMatch` gives for each match, with the lookups and the disambiguator's settings fixed. */
  function Runs(ms: seq<IconMatch>, st: Strategies, iconKey: DictEntry -> Option<string>, silent: bool, height: int,
                choose: seq<string> -> Option<nat>): (r: seq<MatchRun>)
    ensures |r| == |ms|
  {
    seq(|ms|, j requires 0 <= j < |ms| => MatchResult(ms[j], st, iconKey, silent, height, choose))
  }

  /** Each run is that match's `iconizeMatch`. */
  lemma RunsAt(ms: seq<IconMatch>, st: Strategies, iconKey: DictEntry -> Option<string>, silent: bool, height: int,
               choose: seq<string> -> Option<nat>, j: nat)
    requires j < |ms|
    ensures Runs(ms, st, iconKey, silent, height, choose)[j] == MatchResult(ms[j], st, iconKey, silent, height, choose)
  {
  }

  /** Prefixes what was collected before a position to the outcome of the rest. */
  function Prepend(acc: seq<Replacement>, rec: seq<string>, rest: (Result<seq<Replacement>>, seq<string>))
    : (Result<seq<Replacement>>, seq<string>)
  {
    (if rest.0.Err? then rest.0 else Ok(acc + rest.0.value), rec + rest.1)
  }

  /**
   * The loop over the matches, in document order, given how each resolved:
   * the replacements and the recorded captures, or the first thrown error
   * with the captures recorded up to it.
   */
  function Collect(ms: seq<IconMatch>, runs: seq<MatchRun>): (Result<seq<Replacement>>, seq<string>)
    requires |runs| == |ms|
  {
    if ms == [] then (Ok([]), [])
    else
      var (r, rec) := runs[0];
      match r
      case Err(msg) => (Err(msg), rec)
      case Ok(found) => Prepend(Contribution(ms[0], found), rec, Collect(ms[1..], runs[1..]))
  }

  /**
   * Every replacement comes from a match, in match order, and stands for at
   * least one item.
   */
  lemma {:induction false} CollectFromMatches(ms: seq<IconMatch>, runs: seq<MatchRun>)
    requires |runs| == |ms|
    ensures var r := Collect(ms, runs).0;
      r.Ok? ==> (|r.value| <= |ms| &&
        forall k :: 0 <= k < |r.value| ==> r.value[k].to != [] && exists j :: 0 <= j < |ms| && r.value[k].from == ms[j].text)
  {
    if ms != [] {
      CollectFromMatches(ms[1..], runs[1..]);
      var r := Collect(ms, runs).0;
      if r.Ok? {
        var c := Contribution(ms[0], runs[0].0.value);
        var rest := Collect(ms[1..], runs[1..]).0.value;
        assert r.value == c + rest;
        forall k | 0 <= k < |r.value|
          ensures r.value[k].to != [] && exists j :: 0 <= j < |ms| && r.value[k].from == ms[j].text
        {
          if k < |c| {
            assert r.value[k].from == ms[0].text;
          } else {
            assert r.value[k] == rest[k - |c|];
            var j :| 0 <= j < |ms[1..]| && rest[k - |c|].from == ms[1..][j].text;
            assert ms[1..][j] == ms[j + 1];
          }
        }
      }
    }
  }

  /** Nothing collected yet. */
  lemma CollectStart(ms: seq<IconMatch>, runs: seq<MatchRun>)
    requires |runs| == |ms|
    ensures Prepend([], [], Collect(ms[0..], runs[0..])) == Collect(ms, runs)
  {
    assert ms[0..] == ms && runs[0..] == runs;
    var c := Collect(ms, runs);
    if c.0.Ok? {
      assert [] + c.0.value == c.0.value;
    }
    assert [] + c.1 == c.1;
  }

  /** One more match taken into what was collected, when it resolved without a throw. */
  lemma CollectStep(ms: seq<IconMatch>, runs: seq<MatchRun>, i: nat, found: seq<Replacement>, recorded: seq<string>)
    requires |runs| == |ms| && i < |ms| && runs[i].0.Ok?
    ensures Prepend(found, recorded, Collect(ms[i..], runs[i..])) ==
      Prepend(found + Contribution(ms[i], runs[i].0.value), recorded + runs[i].1, Collect(ms[i + 1..], runs[i + 1..]))
  {
    assert ms[i..][0] == ms[i] && ms[i..][1..] == ms[i + 1..];
    assert runs[i..][0] == runs[i] && runs[i..][1..] == runs[i + 1..];
    var rest := Collect(ms[i + 1..], runs[i + 1..]);
    var c := Contribution(ms[i], runs[i].0.value);
    if rest.0.Ok? {
      assert found + (c + rest.0.value) == (found + c) + rest.0.value;
    }
    assert recorded + (runs[i].1 + rest.1) == (recorded + runs[i].1) + rest.1;
  }

  /** A match whose resolution throws ends the collection with that error. */
  lemma CollectThrow(ms: seq<IconMatch>, runs: seq<MatchRun>, i: nat, found: seq<Replacement>, recorded: seq<string>)
    requires |runs| == |ms| && i < |ms| && runs[i].0.Err?
    ensures Prepend(found, recorded, Collect(ms[i..], runs[i..])) == (Err(runs[i].0.msg), recorded + runs[i].1)
  {
    assert ms[i..][0] == ms[i] && runs[i..][0] == runs[i];
  }

  /** The collection done: nothing is left to prefix. */
  lemma CollectDone(ms: seq<IconMatch>, runs: seq<MatchRun>, found: seq<Replacement>, recorded: seq<string>)
    requires |runs| == |ms|
    ensures Prepend(found, recorded, Collect(ms[|ms|..], runs[|ms|..])) == (Ok(found), recorded)
  {
    assert ms[|ms|..] == [];
    assert found + [] == found;
    assert recorded + [] == recorded;
  }

  /** The order `replaces.sort((a, b) => b.from.length - a.from.length)` sorts by. */
  predicate LongerFirst(a: Replacement, b: Replacement) {
    |a.from| >= |b.from|
  }

  lemma LongerFirstTotalPreorder()
    ensures TotalPreorder(LongerFirst)
  {
  }

  /** `replaces.sort(...)`, a stable sort. */
  function SortReplaces(rs: seq<Replacement>): (r: seq<Replacement>)
    ensures |r| == |rs|
  {
    Sort(rs, LongerFirst)
  }

  /**
   * The sorted replacements are the same replacements, longest matched text
   * first, and those of equal length stay in document order.
   */
  lemma SortReplacesSpec(rs: seq<Replacement>, e: Replacement)
    ensures multiset(SortReplaces(rs)) == multiset(rs)
    ensures forall i, j :: 0 <= i < j < |rs| ==> |SortReplaces(rs)[i].from| >= |SortReplaces(rs)[j].from|
    ensures Class(SortReplaces(rs), LongerFirst, e) == Class(rs, LongerFirst, e)
  {
    LongerFirstTotalPreorder();
    SortPermutes(rs, LongerFirst);
    SortSorted(rs, LongerFirst);
    SortStable(rs, LongerFirst, e);
  }

  /** `iconizeMatch` on the match at position `i`, recording the captures it cannot resolve. */
  method ResolveAt(ms: seq<IconMatch>, i: nat, st: Strategies, iconKey: DictEntry -> Option<string>, u: Unclear,
                   height: int, choose: seq<string> -> Option<nat>)
    returns (r: Result<Option<seq<DictEntry>>>)
    requires i < |ms|
    modifies u
    ensures r == Runs(ms, st, iconKey, u.silent, height, choose)[i].0
    ensures u.unfounds == old(u.unfounds) + Runs(ms, st, iconKey, u.silent, height, choose)[i].1
  {
    RunsAt(ms, st, iconKey, u.silent, height, choose, i);
    r := IconizeMatch.IconizeMatch(ms[i], st, iconKey, u, height, choose);
  }

  /**
   * The loop of `bracketsSearch` over the matches and the sort after it: each
   * match through `iconizeMatch`, skipping the unresolved ones. A thrown error
   * ends the search.
   */
  method ResolveMatches(ms: seq<IconMatch>, st: Strategies, iconKey: DictEntry -> Option<string>, u: Unclear,
                        height: int, choose: seq<string> -> Option<nat>)
    returns (r: Result<seq<Replacement>>)
    modifies u
    ensures var (res, rec) := Collect(ms, Runs(ms, st, iconKey, u.silent, height, choose));
      && (res.Err? ==> r == res)
      && (res.Ok? ==> r == Ok(SortReplaces(res.value)))
      && u.unfounds == old(u.unfounds) + rec
  {
    ghost var runs := Runs(ms, st, iconKey, u.silent, height, choose);
    ghost var start := u.unfounds;
    var found: seq<Replacement> := [];
    ghost var recorded: seq<string> := [];
    CollectStart(ms, runs);
    var i := 0;
    while i < |ms|
      invariant 0 <= i <= |ms| && |runs| == |ms|
      invariant Collect(ms, runs) == Prepend(found, recorded, Collect(ms[i..], runs[i..]))
      invariant u.unfounds == start + recorded
    {
      var dicts := ResolveAt(ms, i, st, iconKey, u, height, choose);
      assert u.unfounds == start + (recorded + runs[i].1);
      if dicts.Err? {
        CollectThrow(ms, runs, i, found, recorded);
        assert Collect(ms, runs) == (Err(dicts.msg), recorded + runs[i].1);
        return Err(dicts.msg);
      }
      CollectStep(ms, runs, i, found, recorded);
      found := found + Contribution(ms[i], dicts.value);
      recorded := recorded + runs[i].1;
      i := i + 1;
    }
    CollectDone(ms, runs, found, recorded);
    assert Collect(ms, runs) == (Ok(found), recorded);
    r := Ok(SortReplaces(found));
  }

  /** `bracketsSearch` up to the sorted replacement list, over every match of the document. */
  method BracketsSearch(md: string, st: Strategies, iconKey: DictEntry -> Option<string>, u: Unclear,
                        height: int, choose: seq<string> -> Option<nat>)
    returns (r: Result<seq<Replacement>>)
    modifies u
    ensures var (res, rec) := Collect(MatchAll(md), Runs(MatchAll(md), st, iconKey, u.silent, height, choose));
      && (res.Err? ==> r == res)
      && (res.Ok? ==> r == Ok(SortReplaces(res.value)))
      && u.unfounds == old(u.unfounds) + rec
  {
    r := ResolveMatches(MatchAll(md), st, iconKey, u, height, choose);
  }
}
