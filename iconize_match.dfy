/**
 * The resolution cascade of src/iconizeMatch.ts: one `[capture] (option)`
 * match is tried against a fixed sequence of lookups (the attempts), and the
 * candidates of the first attempt that yields any go through four filter
 * steps; several survivors are handed to the disambiguator.
 *
 * The lookups the cascade is given (command string, id, trie, Levenshtein)
 * and the icon key of the same-image step are parameters; a thrown error is
 * an `Err`.
 */
module IconizeMatch {
  import opened Wrappers
  import opened Text
  import opened Lists
  import opened JsObject
  import opened JsMap
  import opened DictEntries
  import opened Modifiers
  import opened Capture
  import opened Unclear

  // ---------------------------------------------------------------- filterByOption

  /** An option of decimal digits only (`/^\d+$/`) selects a meta. */
  predicate IsMetaOption(option: string) {
    option != [] && AllDigits(option)
  }

  /** Whether `filterByOption` keeps `d` for a non-empty option. */
  predicate AdmittedBy(option: string, d: DictEntry) {
    if IsMetaOption(option) then d.meta == option
    else
      var low := ToLower(option);
      StartsWith(d.modAbbr, low) || StartsWith(ToLower(d.modname), low) || StartsWith(d.source, low)
  }

  /**
   * `filterByOption(result, option)`: the candidates the option admits, in
   * their order; without an option (or with an empty one) all of them.
   */
  function FilterByOption(result: seq<DictEntry>, option: Option<string>): (r: seq<DictEntry>)
    ensures SubSeq(r, result)
    ensures option.None? || option.value == [] ==> r == result
    ensures option.Some? && option.value != [] ==>
      forall e :: e in r <==> e in result && AdmittedBy(option.value, e)
  {
    SubSeqRefl(result);
    if option.None? || option.value == [] then result
    else Keep(result, e => AdmittedBy(option.value, e))
  }

  // ---------------------------------------------------------------- filterSteps

  datatype Step =
    | Unchanged     // d => [d, false]
    | ByOption      // d => [filterByOption(d, option), false]
    | SameImage     // d => [[...new Map(d.map(e => [getIcon(e), e])).values()], false]
    | ByModifiers   // d => modifierFilter(d)

  const FilterSteps: seq<Step> := [Unchanged, ByOption, SameImage, ByModifiers]

  /** One filter step on the current candidates: the new candidates and `final`. */
  function ApplyStep(step: Step, option: Option<string>, iconKey: DictEntry -> Option<string>,
                     fs: seq<Modifier>, d: seq<DictEntry>): (seq<DictEntry>, bool)
  {
    match step
    case Unchanged => (d, false)
    case ByOption => (FilterByOption(d, option), false)
    case SameImage => (DedupByKey(d, iconKey), false)
    case ByModifiers => ModifierFilter(fs, d)
  }

  /**
   * The inner loop: steps in order until one leaves exactly one candidate or
   * sets `final`. The flag says whether the call returned from inside the loop.
   */
  function RunSteps(steps: seq<Step>, option: Option<string>, iconKey: DictEntry -> Option<string>,
                    fs: seq<Modifier>, d: seq<DictEntry>): (seq<DictEntry>, bool)
  {
    if steps == [] then (d, false)
    else
      var (res, final) := ApplyStep(steps[0], option, iconKey, fs, d);
      if |res| == 1 || final then (res, true) else RunSteps(steps[1..], option, iconKey, fs, res)
  }

  /** Every candidate the same-image step keeps is one of its input. */
  lemma SameImageKeepsCandidates(d: seq<DictEntry>, iconKey: DictEntry -> Option<string>)
    ensures forall e :: e in DedupByKey(d, iconKey) ==> e in d
  {
    DedupByKeySpec(d, iconKey);
    var r := DedupByKey(d, iconKey);
    forall e | e in r ensures e in d {
      var i :| 0 <= i < |r| && r[i] == e;
      var k := FirstOccurrences(KeySeq(d, iconKey))[i];
      assert k in KeySeq(d, iconKey);
      var j := LastIndex(KeySeq(d, iconKey), k);
      assert r[i] == d[j];
    }
  }

  /** The same-image step keeps no candidate when given none. */
  lemma SameImageEmpty(iconKey: DictEntry -> Option<string>)
    ensures DedupByKey([], iconKey) == []
  {
    DedupByKeySpec([], iconKey);
  }

  /** `RunSteps` on the steps that follow `step`. */
  lemma RunStepsCons(step: Step, rest: seq<Step>, option: Option<string>, iconKey: DictEntry -> Option<string>,
                     fs: seq<Modifier>, d: seq<DictEntry>)
    ensures var (res, final) := ApplyStep(step, option, iconKey, fs, d);
      RunSteps([step] + rest, option, iconKey, fs, d) ==
        if |res| == 1 || final then (res, true) else RunSteps(rest, option, iconKey, fs, res)
  {
    assert ([step] + rest)[0] == step && ([step] + rest)[1..] == rest;
  }

  /** The four steps spelled out: each returns when it leaves one candidate, the last also on `final`. */
  lemma StepsUnrolled(d: seq<DictEntry>, option: Option<string>, iconKey: DictEntry -> Option<string>, fs: seq<Modifier>)
    ensures var a := FilterByOption(d, option);
      var b := DedupByKey(a, iconKey);
      var (c, f) := ModifierFilter(fs, b);
      RunSteps(FilterSteps, option, iconKey, fs, d) ==
        if |d| == 1 then (d, true)
        else if |a| == 1 then (a, true)
        else if |b| == 1 then (b, true)
        else if |c| == 1 || f then (c, true)
        else (c, false)
  {
    var a := FilterByOption(d, option);
    var b := DedupByKey(a, iconKey);
    assert FilterSteps == [Unchanged] + ([ByOption] + ([SameImage] + ([ByModifiers] + [])));
    RunStepsCons(Unchanged, [ByOption] + ([SameImage] + ([ByModifiers] + [])), option, iconKey, fs, d);
    RunStepsCons(ByOption, [SameImage] + ([ByModifiers] + []), option, iconKey, fs, d);
    RunStepsCons(SameImage, [ByModifiers] + [], option, iconKey, fs, a);
    RunStepsCons(ByModifiers, [], option, iconKey, fs, b);
  }

  /**
   * What the filter steps do with the non-empty candidates of an attempt,
   * whatever filters `refine` kept:
   * - a single candidate is returned before the option is looked at;
   * - everything returned or left over is one of the attempt's candidates,
   *   and a returned list is never empty;
   * - several candidates are returned only under `(Every)`, and then they are
   *   the option-filtered, same-image-reduced list;
   * - what is not returned is either nothing or, with no modifier, the
   *   reduced list, which then holds several candidates.
   */
  lemma StepsOutcome(d: seq<DictEntry>, option: Option<string>, iconKey: DictEntry -> Option<string>, fs: seq<Modifier>)
    requires d != []
    requires fs == [Every, Any] || |fs| <= 1
    ensures var (res, returned) := RunSteps(FilterSteps, option, iconKey, fs, d);
      var reduced := DedupByKey(FilterByOption(d, option), iconKey);
      && (|d| == 1 ==> res == d && returned)
      && (forall e :: e in res ==> e in d)
      && (returned ==> res != [])
      && (returned && |res| != 1 ==> Every in fs && res == reduced)
      && (!returned ==> res == [] || (fs == [] && res == reduced && |res| > 1))
  {
    var a := FilterByOption(d, option);
    var b := DedupByKey(a, iconKey);
    StepsUnrolled(d, option, iconKey, fs);
    SameImageKeepsCandidates(a, iconKey);
    ModifierFilterResult(fs, b);
    if fs != [] && fs != [Every, Any] {
      assert fs == [fs[0]];
    }
    if b != [] {
      assert b[0] in b;
    }
  }

  // ---------------------------------------------------------------- attempts

  /** The lookups and name tables the cascade is given. */
  datatype Strategies = Strategies(
    /** `getByCommandString` */
    commandString: string -> Result<Option<seq<DictEntry>>>,
    /** `getByID` */
    getById: string -> Result<Option<seq<DictEntry>>>,
    /** `asset.names_low`: lowercased name to display name */
    namesLow: Obj<string>,
    /** `asset.names`: display name to the ids bearing it */
    names: Obj<seq<string>>,
    /** `trieSearch` */
    trie: string -> seq<DictEntry>,
    /** `levinshteinResolver` */
    lev: string -> Result<seq<DictEntry>>)

  /** Whether a lookup result holds `e`. */
  predicate Holds(a: Result<Option<seq<DictEntry>>>, e: DictEntry) {
    a.Ok? && a.value.Some? && e in a.value.value
  }

  /** `ids.map(getByID).filter(d => !!d).flat()`: the first throw, or every found entry in id order. */
  function CollectIds(getById: string -> Result<Option<seq<DictEntry>>>, ids: seq<string>): Result<seq<DictEntry>> {
    if ids == [] then Ok([])
    else match getById(ids[0])
      case Err(msg) => Err(msg)
      case Ok(found) =>
        match CollectIds(getById, ids[1..])
        case Err(msg) => Err(msg)
        case Ok(rest) => Ok((if found.Some? then found.value else []) + rest)
  }

  /** The collection fails exactly when some lookup throws; otherwise it holds exactly the found entries. */
  lemma {:induction false} CollectIdsSpec(getById: string -> Result<Option<seq<DictEntry>>>, ids: seq<string>, e: DictEntry)
    ensures CollectIds(getById, ids).Err? <==> exists i :: 0 <= i < |ids| && getById(ids[i]).Err?
    ensures CollectIds(getById, ids).Ok? ==>
      (e in CollectIds(getById, ids).value <==> exists i :: 0 <= i < |ids| && Holds(getById(ids[i]), e))
  {
    if ids != [] {
      CollectIdsSpec(getById, ids[1..], e);
      assert forall i :: 1 <= i < |ids| ==> ids[i] == ids[1..][i - 1];
      if exists i :: 1 <= i < |ids| && getById(ids[i]).Err? {
        var i :| 1 <= i < |ids| && getById(ids[i]).Err?;
        assert getById(ids[1..][i - 1]).Err?;
      }
      if exists i :: 0 <= i < |ids| && Holds(getById(ids[i]), e) {
        var i :| 0 <= i < |ids| && Holds(getById(ids[i]), e);
        if i > 0 {
          assert Holds(getById(ids[1..][i - 1]), e);
        }
      }
    }
  }

  /** The thrown error of an absent `asset.names[exactName]`. */
  const NoNamesEntry := "TypeError: Cannot read properties of undefined (reading 'map')"

  /**
   * The exact-name attempts for a lowercased capture: when `names_low` maps
   * it to a non-empty name, the lone `minecraft` entry among the exact
   * matches, if there is exactly one, then all exact matches.
   */
  function ExactAttempts(st: Strategies, captureLow: string): (r: seq<Result<Option<seq<DictEntry>>>>)
    ensures |r| <= 2
    ensures r == [] <==> JsObject.Get(st.namesLow, captureLow).None? || JsObject.Get(st.namesLow, captureLow).value == []
  {
    match JsObject.Get(st.namesLow, captureLow)
    case None => []
    case Some(exactName) =>
      if exactName == [] then []
      else match JsObject.Get(st.names, exactName)
        case None => [Err(NoNamesEntry)]
        case Some(ids) =>
          match CollectIds(st.getById, ids)
          case Err(msg) => [Err(msg)]
          case Ok(exacts) =>
            var fromMC := Keep(exacts, (e: DictEntry) => e.source == "minecraft");
            (if |fromMC| == 1 then [Ok(Some(fromMC))] else []) + [Ok(Some(exacts))]
  }

  /**
   * When there are two exact-name attempts, the first is the one exact match
   * from `minecraft`, and the second all exact matches, which include it.
   * When the ids were collected, the last attempt is all exact matches.
   */
  lemma ExactAttemptsSpec(st: Strategies, captureLow: string)
    ensures var r := ExactAttempts(st, captureLow);
      && (|r| == 2 ==>
          && r[0].Ok? && r[0].value.Some? && |r[0].value.value| == 1
          && r[0].value.value[0].source == "minecraft"
          && r[1].Ok? && r[1].value.Some? && r[0].value.value[0] in r[1].value.value
          && forall x :: x in r[1].value.value && x.source == "minecraft" ==> x == r[0].value.value[0])
      && (r != [] && r[|r| - 1].Ok? ==>
          && JsObject.Get(st.names, JsObject.Get(st.namesLow, captureLow).value).Some?
          && r[|r| - 1] == Ok(Some(CollectIds(st.getById, JsObject.Get(st.names, JsObject.Get(st.namesLow, captureLow).value).value).value)))
  {
    var r := ExactAttempts(st, captureLow);
    if |r| == 2 {
      var ids := JsObject.Get(st.names, JsObject.Get(st.namesLow, captureLow).value).value;
      var exacts := CollectIds(st.getById, ids).value;
      var fromMC := Keep(exacts, (e: DictEntry) => e.source == "minecraft");
      assert fromMC[0] in fromMC;
      forall x | x in exacts && x.source == "minecraft" ensures x == fromMC[0] {
        assert x in fromMC;
      }
    }
  }

  /** A Levenshtein result as an attempt. */
  function LevAttempt(r: Result<seq<DictEntry>>): Result<Option<seq<DictEntry>>> {
    match r
    case Err(msg) => Err(msg)
    case Ok(l) => Ok(Some(l))
  }

  /** The `attempts()` generator, in order: command string, exact names, trie, Levenshtein. */
  function Attempts(st: Strategies, capture: string): (r: seq<Result<Option<seq<DictEntry>>>>)
    ensures 3 <= |r| <= 5
    ensures r[0] == st.commandString(capture)
    ensures r[1..|r| - 2] == ExactAttempts(st, ToLower(capture))
    ensures r[|r| - 2] == Ok(Some(st.trie(capture))) && r[|r| - 1] == LevAttempt(st.lev(capture))
  {
    var exact := ExactAttempts(st, ToLower(capture));
    var r := [st.commandString(capture)] + exact + [Ok(Some(st.trie(capture))), LevAttempt(st.lev(capture))];
    assert r[1..|r| - 2] == exact;
    r
  }

  // ---------------------------------------------------------------- the cascade

  /** How the attempts end. */
  datatype Outcome =
    | Returned(list: seq<DictEntry>)        // returned from inside the filter steps
    | Ambiguous(candidates: seq<DictEntry>)  // several candidates left: ask the disambiguator
    | Exhausted                              // every attempt ended empty
    | Failed(msg: string)                    // an attempt threw

  /** The outer loop over the attempts. */
  function Cascade(attempts: seq<Result<Option<seq<DictEntry>>>>, option: Option<string>,
                   iconKey: DictEntry -> Option<string>, fs: seq<Modifier>): Outcome
  {
    if attempts == [] then Exhausted
    else match attempts[0]
      case Err(msg) => Failed(msg)
      case Ok(found) =>
        if found.None? || found.value == [] then Cascade(attempts[1..], option, iconKey, fs)
        else
          var (res, returned) := RunSteps(FilterSteps, option, iconKey, fs, found.value);
          if returned then Returned(res)
          else if |res| > 1 then Ambiguous(res)
          else Cascade(attempts[1..], option, iconKey, fs)
  }

  /**
   * An attempt decides the cascade unless it ends empty, and later attempts
   * are not looked at: the cascade over `a + b` is the one over `a`, or the
   * one over `b` when every attempt of `a` ended empty.
   */
  lemma {:induction false} CascadeAppend(a: seq<Result<Option<seq<DictEntry>>>>, b: seq<Result<Option<seq<DictEntry>>>>,
                                         option: Option<string>, iconKey: DictEntry -> Option<string>, fs: seq<Modifier>)
    ensures Cascade(a + b, option, iconKey, fs) ==
      if Cascade(a, option, iconKey, fs).Exhausted? then Cascade(b, option, iconKey, fs) else Cascade(a, option, iconKey, fs)
  {
    if a == [] {
      assert a + b == b;
    } else {
      CascadeAppend(a[1..], b, option, iconKey, fs);
      assert (a + b)[1..] == a[1..] + b;
    }
  }

  /** The cascade never hands the disambiguator fewer than two candidates, and returns no empty list. */
  lemma {:induction false} CascadeShape(attempts: seq<Result<Option<seq<DictEntry>>>>, option: Option<string>,
                                        iconKey: DictEntry -> Option<string>, fs: seq<Modifier>)
    requires fs == [Every, Any] || |fs| <= 1
    ensures Cascade(attempts, option, iconKey, fs).Ambiguous? ==>
      |Cascade(attempts, option, iconKey, fs).candidates| > 1 && fs == []
    ensures Cascade(attempts, option, iconKey, fs).Returned? ==> Cascade(attempts, option, iconKey, fs).list != []
    ensures Cascade(attempts, option, iconKey, fs).Failed? ==> exists k :: 0 <= k < |attempts| && attempts[k].Err?
  {
    if attempts != [] {
      CascadeShape(attempts[1..], option, iconKey, fs);
      assert forall k :: 1 <= k < |attempts| ==> attempts[k] == attempts[1..][k - 1];
      var a := attempts[0];
      if a.Ok? && a.value.Some? && a.value.value != [] {
        StepsOutcome(a.value.value, option, iconKey, fs);
      }
    }
  }

  /** `/^x$/i.test(rawCapture)` or a blank capture: a Markdown task box or an empty bracket. */
  predicate Skipped(raw: string) {
    Trim(raw) == [] || raw == "x" || raw == "X"
  }

  /** How the cascade ends for a match that is not skipped. */
  function MatchOutcome(m: IconMatch, st: Strategies, iconKey: DictEntry -> Option<string>): Outcome {
    var (capture, fs) := RunModifiers(ModifiersList, m.capture, CreateModifier);
    Cascade(Attempts(st, capture), m.option, iconKey, fs)
  }

  /** What `iconizeMatch` resolves to for an outcome, and whether the disambiguator records the capture. */
  function Resolved(o: Outcome, silent: bool, raw: string, height: int, choose: seq<string> -> Option<nat>)
    : (Result<Option<seq<DictEntry>>>, bool)
  {
    match o
    case Returned(l) => (Ok(Some(l)), false)
    case Ambiguous(c) =>
      var (pick, recorded) := ResolveOutcome(silent, raw, c, height, choose);
      (Ok(if pick.Some? then Some([pick.value]) else None), recorded)
    case Exhausted => (Ok(None), false)
    case Failed(msg) => (Err(msg), false)
  }

  /** The inner loop of `iconizeMatch` over `filterSteps`, for one attempt's candidates. */
  method RunFilterSteps(d: seq<DictEntry>, option: Option<string>, iconKey: DictEntry -> Option<string>, fs: seq<Modifier>)
    returns (result: seq<DictEntry>, returned: bool)
    ensures (result, returned) == RunSteps(FilterSteps, option, iconKey, fs, d)
  {
    result := d;
    var final := false;
    var j := 0;
    while j < |FilterSteps|
      invariant 0 <= j <= |FilterSteps|
      invariant RunSteps(FilterSteps[j..], option, iconKey, fs, result) == RunSteps(FilterSteps, option, iconKey, fs, d)
    {
      assert FilterSteps[j..] == [FilterSteps[j]] + FilterSteps[j + 1..];
      RunStepsCons(FilterSteps[j], FilterSteps[j + 1..], option, iconKey, fs, result);
      var step := ApplyStep(FilterSteps[j], option, iconKey, fs, result);
      result, final := step.0, step.1;
      if |result| == 1 || final {
        return result, true;
      }
      j := j + 1;
    }
    assert FilterSteps[j..] == [];
    returned := false;
  }

  /** The outer loop of `iconizeMatch` over the attempts, with the disambiguator for several survivors. */
  method RunAttempts(attempts: seq<Result<Option<seq<DictEntry>>>>, option: Option<string>,
                     iconKey: DictEntry -> Option<string>, fs: seq<Modifier>, raw: string, u: Unclear,
                     height: int, choose: seq<string> -> Option<nat>)
    returns (r: Result<Option<seq<DictEntry>>>)
    modifies u
    ensures r == Resolved(Cascade(attempts, option, iconKey, fs), u.silent, raw, height, choose).0
    ensures u.unfounds == old(u.unfounds) +
      if Resolved(Cascade(attempts, option, iconKey, fs), u.silent, raw, height, choose).1 then [raw] else []
  {
    var i := 0;
    while i < |attempts|
      invariant 0 <= i <= |attempts|
      invariant Cascade(attempts[i..], option, iconKey, fs) == Cascade(attempts, option, iconKey, fs)
      invariant u.unfounds == old(u.unfounds)
    {
      var list := attempts[i];
      assert attempts[i..][0] == list && attempts[i..][1..] == attempts[i + 1..];
      if list.Err? {
        return Err(list.msg);
      }
      if list.value.None? || list.value.value == [] {
        i := i + 1;
        continue;
      }
      var result, returned := RunFilterSteps(list.value.value, option, iconKey, fs);
      if returned {
        return Ok(Some(result));
      }
      if |result| > 1 {
        var resolved := u.Resolve(raw, result, height, choose);
        return Ok(if resolved.Some? then Some([resolved.value]) else None);
      }
      i := i + 1;
    }
    return Ok(None);
  }

  /**
   * What `iconizeMatch` gives for one match, and the captures the
   * disambiguator records on the way: a skipped capture tries nothing and
   * gives `undefined`.
   */
  function MatchResult(m: IconMatch, st: Strategies, iconKey: DictEntry -> Option<string>, silent: bool,
                       height: int, choose: seq<string> -> Option<nat>): (Result<Option<seq<DictEntry>>>, seq<string>)
  {
    if Skipped(m.capture) then (Ok(None), [])
    else
      var (r, recorded) := Resolved(MatchOutcome(m, st, iconKey), silent, m.capture, height, choose);
      (r, if recorded then [m.capture] else [])
  }

  /**
   * `iconizeMatch(match, ...)`. A skipped capture tries nothing. Otherwise the
   * refined capture drives the attempts, and the disambiguator gets the raw
   * capture.
   */
  method IconizeMatch(m: IconMatch, st: Strategies, iconKey: DictEntry -> Option<string>, u: Unclear,
                      height: int, choose: seq<string> -> Option<nat>)
    returns (r: Result<Option<seq<DictEntry>>>)
    modifies u
    ensures r == MatchResult(m, st, iconKey, u.silent, height, choose).0
    ensures u.unfounds == old(u.unfounds) + MatchResult(m, st, iconKey, u.silent, height, choose).1
  {
    var raw := m.capture;
    if Trim(raw) == [] || raw == "x" || raw == "X" {
      return Ok(None);
    }
    var capture, fs := Refine(raw);
    r := RunAttempts(Attempts(st, capture), m.option, iconKey, fs, raw, u, height, choose);
  }

  // ---------------------------------------------------------------- consequences

  /**
   * A command string that finds its entry decides the match: no other
   * attempt is looked at, and a failing Levenshtein fallback does not matter.
   */
  lemma CommandStringDecides(st: Strategies, capture: string, option: Option<string>,
                             iconKey: DictEntry -> Option<string>, fs: seq<Modifier>, e: DictEntry)
    requires st.commandString(capture) == Ok(Some([e]))
    ensures Cascade(Attempts(st, capture), option, iconKey, fs) == Returned([e])
  {
    var attempts := Attempts(st, capture);
    StepsUnrolled([e], option, iconKey, fs);
  }

  /**
   * When the command string finds nothing, an exact-name attempt that
   * decides is what the match resolves to, before the trie and the
   * Levenshtein fallback are tried.
   */
  lemma ExactNameBeforeTrie(st: Strategies, capture: string, option: Option<string>,
                            iconKey: DictEntry -> Option<string>, fs: seq<Modifier>)
    requires st.commandString(capture) == Ok(None)
    requires !Cascade(ExactAttempts(st, ToLower(capture)), option, iconKey, fs).Exhausted?
    ensures Cascade(Attempts(st, capture), option, iconKey, fs) == Cascade(ExactAttempts(st, ToLower(capture)), option, iconKey, fs)
  {
    var exact := ExactAttempts(st, ToLower(capture));
    var tail := [Ok(Some(st.trie(capture))), LevAttempt(st.lev(capture))];
    var attempts := Attempts(st, capture);
    assert attempts == [st.commandString(capture)] + (exact + tail);
    CascadeAppend([st.commandString(capture)], exact + tail, option, iconKey, fs);
    CascadeAppend(exact, tail, option, iconKey, fs);
  }

  /**
   * The written `(Any)` filter on an attempt the option filter emptied: the
   * corrected steps end the attempt empty and the cascade moves on, while the
   * written ones end with a one-element list holding `undefined`, which the
   * inner loop returns as the match's result.
   */
  lemma EmptiedAttemptAsWritten(d: seq<DictEntry>, option: Option<string>, iconKey: DictEntry -> Option<string>,
                                fs: seq<Modifier>)
    requires |d| >= 2 && FilterByOption(d, option) == []
    requires fs == [Any] || fs == [Every, Any]
    ensures RunSteps(FilterSteps, option, iconKey, fs, d) == ([], false)
    ensures ModifierFilterAsWritten(fs, Lift(DedupByKey(FilterByOption(d, option), iconKey))) == ([None], false)
  {
    SameImageEmpty(iconKey);
    ModifierFilterAsWrittenOnEmpty<DictEntry>(fs);
    assert Lift<DictEntry>([]) == [];
    StepsUnrolled(d, option, iconKey, fs);
  }
}
