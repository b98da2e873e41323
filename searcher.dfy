/**
 * The lookups of src/searcher.ts that the resolution cascade is given:
 * `getByID`, `getByCommandString` and the Levenshtein fallback
 * `levinshteinResolver`, over the index `AssetEx` builds.
 */
module Searcher {
  import opened Wrappers
  import opened Text
  import opened JsObject
  import opened Sorting
  import opened Levenshtein
  import opened Base
  import opened DictEntries
  import opened AssetEx

  // ---------------------------------------------------------------- getByID

  /** `getByID` on a built tree: the found entry as a one-element list, `undefined` otherwise. */
  function GetByIdIn(tree: Tree4<DictEntry>, id: string): (r: Option<seq<DictEntry>>)
    ensures r.Some? <==> LookupById(tree, id).Some?
    ensures r.Some? ==> r.value == [LookupById(tree, id).value]
  {
    match LookupById(tree, id)
    case None => None
    case Some(e) => Some([e])
  }

  /** `getByID` as the cascade sees it: the throw of a failed index build, or the lookup. */
  function GetById(ix: Result<Index>, id: string): (r: Result<Option<seq<DictEntry>>>)
    ensures r.Err? <==> ix.Err?
    ensures r.Ok? ==> r.value == GetByIdIn(ix.value.tree, id)
  {
    match ix
    case Err(msg) => Err(msg)
    case Ok(i) => Ok(GetByIdIn(i.tree, id))
  }

  /** `getByID(assetEx, id)`, which builds the index on first use. */
  method GetByID(a: AssetEx, id: string) returns (r: Result<Option<seq<DictEntry>>>)
    requires a.Valid()
    modifies a
    ensures a.Valid() && a.initialized
    ensures r.Err? <==> !old(a.initialized) && BuildIndex(a.names, a.mods, ModpackMap(a.modpack, a.modpacks)).Err?
    ensures r.Ok? ==> r.value == GetByIdIn(a.lookupTree, id)
  {
    var found := a.GetById(id);
    match found
    case Err(msg) =>
      r := Err(msg);
    case Ok(e) =>
      r := Ok(if e.Some? then Some([e.value]) else None);
  }

  // ---------------------------------------------------------------- getByCommandString

  /** `capture.match(/^<(.+)>$/)?.[1]`: the text between `<` and `>` when they enclose the whole capture. */
  function CommandId(capture: string): (r: Option<string>)
    ensures r.Some? <==>
      && |capture| >= 3 && capture[0] == '<' && capture[|capture| - 1] == '>'
      && forall i :: 1 <= i < |capture| - 1 ==> !IsLineTerminator(capture[i])
    ensures r.Some? ==> r.value != [] && "<" + r.value + ">" == capture
  {
    if |capture| >= 3 && capture[0] == '<' && capture[|capture| - 1] == '>'
      && forall i :: 1 <= i < |capture| - 1 ==> !IsLineTerminator(capture[i])
    then
      var id := capture[1..|capture| - 1];
      assert capture == [capture[0]] + id + [capture[|capture| - 1]];
      Some(id)
    else None
  }

  /** `getByCommandString`: looks up the id only when the capture is a command string. */
  function GetByCommandString(ix: Result<Index>, capture: string): (r: Result<Option<seq<DictEntry>>>)
    ensures CommandId(capture).None? ==> r == Ok(None)
    ensures CommandId(capture).Some? ==> r == GetById(ix, CommandId(capture).value)
  {
    match CommandId(capture)
    case None => Ok(None)
    case Some(id) => GetById(ix, id)
  }

  /** A non-empty id without line breaks, written as `<id>`, is read back as that id. */
  lemma CommandIdOfWrapped(id: string)
    requires id != [] && forall i :: 0 <= i < |id| ==> !IsLineTerminator(id[i])
    ensures CommandId("<" + id + ">") == Some(id)
  {
    var c := "<" + id + ">";
    assert forall i :: 1 <= i < |c| - 1 ==> c[i] == id[i - 1];
    assert c[1..|c| - 1] == id;
  }

  /** A command string finds the entry whose own slot is the enclosed id, when the index has one. */
  lemma CommandStringFindsSlot(names: Obj<seq<string>>, mods: Obj<string>, whitelist: Result<Option<set<string>>>, k: nat)
    requires k < |NamePairs(names)| && whitelist.Ok? && Admitted(whitelist.value, NamePairs(names)[k].1)
    requires BaseFromId(NamePairs(names)[k].1).meta.GetOr("") !in {"*", "32767"}
    requires NamePairs(names)[k].1 != []
    requires forall i :: 0 <= i < |NamePairs(names)[k].1| ==> !IsLineTerminator(NamePairs(names)[k].1[i])
    ensures var id := NamePairs(names)[k].1;
      var r := GetByCommandString(BuildIndex(names, mods, whitelist), "<" + id + ">");
      r.Ok? && r.value.Some? && |r.value.value| == 1 && SlotOf(r.value.value[0]) == IdSlot(id)
  {
    var id := NamePairs(names)[k].1;
    IndexedIdFound(names, mods, whitelist, k);
    CommandIdOfWrapped(id);
  }

  // ---------------------------------------------------------------- levinshteinResolver

  /** `[levenshtein.get(o.name_low, capture_low), o]` for every entry, in dictionary order. */
  function Scores(dict: seq<DictEntry>, captureLow: string): (r: seq<(nat, DictEntry)>)
    ensures |r| == |dict|
    ensures forall i :: 0 <= i < |dict| ==> r[i] == (Lev(dict[i].name_low, captureLow), dict[i])
  {
    seq(|dict|, i requires 0 <= i < |dict| => (Lev(dict[i].name_low, captureLow), dict[i]))
  }

  /** The order `_.sortBy(lev, 0)` sorts by: the distance alone. */
  predicate ByDistance(x: (nat, DictEntry), y: (nat, DictEntry)) {
    x.0 <= y.0
  }

  lemma ByDistanceTotalPreorder()
    ensures TotalPreorder(ByDistance)
  {
  }

  /** `_.sortBy(lev, 0)`: a stable ascending sort by distance. */
  function LevDict(dict: seq<DictEntry>, capture: string): (r: seq<(nat, DictEntry)>)
    ensures |r| == |dict|
  {
    Sort(Scores(dict, ToLower(capture)), ByDistance)
  }

  function Entries(ld: seq<(nat, DictEntry)>): (r: seq<DictEntry>)
    ensures |r| == |ld| && forall i :: 0 <= i < |ld| ==> r[i] == ld[i].1
  {
    seq(|ld|, i requires 0 <= i < |ld| => ld[i].1)
  }

  /** The unique-winner rule: the best distance is strictly the smallest and within the threshold. */
  predicate ThresholdPass(ld: seq<(nat, DictEntry)>, threshold: int)
    requires |ld| >= 2
  {
    ld[0].0 < ld[1].0 && ld[0].0 <= threshold
  }

  /**
   * `levinshteinResolver`: the best entry alone when it passes the threshold
   * rule, otherwise the whole dictionary in distance order. Reading
   * `levDict[1][0]` throws when the dictionary has fewer than two entries.
   */
  function LevinshteinResolver(dict: seq<DictEntry>, threshold: int, capture: string): (r: Result<seq<DictEntry>>)
    ensures r.Err? <==> |dict| < 2
    ensures r.Ok? ==> (|r.value| == 1 <==> ThresholdPass(LevDict(dict, capture), threshold))
    ensures r.Ok? && |r.value| != 1 ==> r.value == Entries(LevDict(dict, capture))
    ensures r.Ok? && |r.value| == 1 ==> r.value == [LevDict(dict, capture)[0].1]
  {
    if |dict| < 2 then Err("TypeError: Cannot read properties of undefined (reading '0')")
    else
      var ld := LevDict(dict, capture);
      if ThresholdPass(ld, threshold) then Ok([ld[0].1]) else Ok(Entries(ld))
  }

  /**
   * The distance order is a stable sort of the scored dictionary: a
   * permutation, ascending by distance, and entries at the same distance keep
   * their dictionary order.
   */
  lemma LevDictSpec(dict: seq<DictEntry>, capture: string, e: (nat, DictEntry))
    ensures multiset(LevDict(dict, capture)) == multiset(Scores(dict, ToLower(capture)))
    ensures Sorted(LevDict(dict, capture), ByDistance)
    ensures Class(LevDict(dict, capture), ByDistance, e) == Class(Scores(dict, ToLower(capture)), ByDistance, e)
  {
    var s := Scores(dict, ToLower(capture));
    ByDistanceTotalPreorder();
    SortPermutes(s, ByDistance);
    SortSorted(s, ByDistance);
    SortStable(s, ByDistance, e);
  }

  /**
   * When the resolver picks one entry, that entry is strictly closer to the
   * capture than every other dictionary entry, and its distance is within the
   * threshold.
   */
  lemma WinnerIsStrictlyClosest(dict: seq<DictEntry>, threshold: int, capture: string)
    requires |dict| >= 2
    requires |LevinshteinResolver(dict, threshold, capture).value| == 1
    ensures var ld := LevDict(dict, capture);
      && ld[0].1 in dict && ld[0].0 == Lev(ld[0].1.name_low, ToLower(capture)) && ld[0].0 <= threshold
      && forall i :: 1 <= i < |ld| ==> ld[0].0 < ld[i].0
  {
    var ld := LevDict(dict, capture);
    var s := Scores(dict, ToLower(capture));
    LevDictSpec(dict, capture, ld[0]);
    assert ld[0] in multiset(s);
    assert forall i :: 1 <= i < |ld| ==> ByDistance(ld[1], ld[i]);
  }

  /**
   * With the default threshold 0 (`argv.treshold || 0`), a single entry is
   * returned only for a name equal to the lowercased capture.
   */
  lemma DefaultThresholdExactOnly(dict: seq<DictEntry>, capture: string)
    requires |dict| >= 2
    requires |LevinshteinResolver(dict, 0, capture).value| == 1
    ensures LevinshteinResolver(dict, 0, capture).value[0].name_low == ToLower(capture)
  {
    var ld := LevDict(dict, capture);
    WinnerIsStrictlyClosest(dict, 0, capture);
    LevZeroIff(ld[0].1.name_low, ToLower(capture));
  }
}
