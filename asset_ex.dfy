/**
 * The item index of src/assetEx.ts: the list of every (name, id) pair of
 * `asset.names` turned into a `DictEntry`, and the nested lookup tree
 * `source -> entry -> meta -> sNbt -> entry` that `getById` reads with its
 * fallbacks for a missing meta or sNbt. Both are built lazily, on first use.
 */
module AssetEx {
  import opened Wrappers
  import opened Text
  import opened JsObject
  import opened Base
  import opened DictEntries

  // ---------------------------------------------------------------- abbr1

  /**
   * `.replace(/ ([a-z])/g, (_, r) => r.toUpperCase())`: a space and the
   * lowercase letter after it become that letter in upper case. The result
   * holds no further match: the replacement never creates a new one.
   */
  function Capitalize(s: string): (r: string)
    ensures |r| <= |s|
    ensures forall i :: 0 <= i < |r| - 1 && r[i] == ' ' ==> !IsLower(r[i + 1])
    ensures (r == []) == (s == []) && (r != [] ==> (IsLower(r[0]) <==> IsLower(s[0])))
  {
    if |s| >= 2 && s[0] == ' ' && IsLower(s[1]) then [UpperChar(s[1])] + Capitalize(s[2..])
    else if s == [] then []
    else [s[0]] + Capitalize(s[1..])
  }

  /** On a string with no space before a lowercase letter the replace changes nothing. */
  lemma {:induction false} CapitalizeNoMatch(s: string)
    requires forall i :: 0 <= i < |s| - 1 && s[i] == ' ' ==> !IsLower(s[i + 1])
    ensures Capitalize(s) == s
  {
    if s != [] {
      CapitalizeNoMatch(s[1..]);
      assert s == [s[0]] + s[1..];
    }
  }

  /** Running the replace a second time changes nothing. */
  lemma CapitalizeIdempotent(s: string)
    ensures Capitalize(Capitalize(s)) == Capitalize(s)
  {
    CapitalizeNoMatch(Capitalize(s));
  }

  /** The characters `.replace(/[\Wa-z]/g, '')` keeps. */
  predicate AbbrKept(c: char) {
    IsUpper(c) || IsDigit(c) || c == '_'
  }

  function KeepAbbrChars(s: string): (r: string)
    ensures forall i :: 0 <= i < |r| ==> AbbrKept(r[i])
  {
    if s == [] then [] else (if AbbrKept(s[0]) then [s[0]] else []) + KeepAbbrChars(s[1..])
  }

  /** `abbr1(str)`: the mod abbreviation; only `[a-z0-9_]` survive. */
  function Abbr1(s: string): (r: string)
    ensures forall i :: 0 <= i < |r| ==> IsLower(r[i]) || IsDigit(r[i]) || r[i] == '_'
  {
    ToLower(KeepAbbrChars(Capitalize(s)))
  }

  /**
   * An independent reading of `abbr1`: keep upper-case letters, digits,
   * underscores, and every lower-case letter right after a space; lower-case all.
   */
  function AbbrSpec(s: string, afterSpace: bool): string {
    if s == [] then []
    else
      var keep := AbbrKept(s[0]) || (afterSpace && IsLower(s[0]));
      (if keep then [LowerChar(s[0])] else []) + AbbrSpec(s[1..], s[0] == ' ')
  }

  lemma {:induction false} AbbrSpecNotAfterSpace(s: string)
    requires s == [] || !IsLower(s[0])
    ensures AbbrSpec(s, true) == AbbrSpec(s, false)
  {
  }

  lemma {:induction false} ToLowerAppend(a: string, b: string)
    ensures ToLower(a + b) == ToLower(a) + ToLower(b)
  {
    assert ToLower(a + b) == ToLower(a) + ToLower(b);
  }

  lemma {:induction false} Abbr1MatchesSpec(s: string)
    ensures Abbr1(s) == AbbrSpec(s, false)
  {
    if s == [] {
    } else if |s| >= 2 && s[0] == ' ' && IsLower(s[1]) {
      var c := UpperChar(s[1]);
      Abbr1MatchesSpec(s[2..]);
      assert Capitalize(s) == [c] + Capitalize(s[2..]);
      assert KeepAbbrChars([c] + Capitalize(s[2..])) == [c] + KeepAbbrChars(Capitalize(s[2..])) by {
        assert ([c] + Capitalize(s[2..]))[1..] == Capitalize(s[2..]);
      }
      ToLowerAppend([c], KeepAbbrChars(Capitalize(s[2..])));
      assert s[1..][1..] == s[2..];
      assert AbbrSpec(s, false) == AbbrSpec(s[1..], true);
      assert AbbrSpec(s[1..], true) == [s[1]] + AbbrSpec(s[2..], false);
    } else {
      Abbr1MatchesSpec(s[1..]);
      assert Capitalize(s) == [s[0]] + Capitalize(s[1..]);
      assert KeepAbbrChars([s[0]] + Capitalize(s[1..])) ==
        (if AbbrKept(s[0]) then [s[0]] else []) + KeepAbbrChars(Capitalize(s[1..])) by {
        assert ([s[0]] + Capitalize(s[1..]))[1..] == Capitalize(s[1..]);
      }
      ToLowerAppend(if AbbrKept(s[0]) then [s[0]] else [], KeepAbbrChars(Capitalize(s[1..])));
      if s[0] == ' ' {
        AbbrSpecNotAfterSpace(s[1..]);
      }
    }
  }

  // ---------------------------------------------------------------- modpack whitelist

  /** Sources every modpack admits. */
  const AlwaysAdmitted: seq<string> := ["gas", "fluid", "placeholder"]

  /**
   * `modpackMap`: no whitelist without a modpack option (an empty option is
   * no option); an unknown modpack or one with no sources throws.
   */
  function ModpackMap(modpack: Option<string>, modpacks: Obj<seq<string>>): (r: Result<Option<set<string>>>)
    ensures modpack.None? || modpack == Some("") ==> r == Ok(None)
    ensures modpack.Some? && modpack.value != "" ==>
      (r.Err? <==> Get(modpacks, modpack.value).None? || Get(modpacks, modpack.value).value == [])
    ensures r.Ok? && r.value.Some? ==> forall s :: s in r.value.value <==>
      s in AlwaysAdmitted || s in Get(modpacks, modpack.value).value
  {
    if modpack.None? || modpack.value == "" then Ok(None)
    else match Get(modpacks, modpack.value)
      case None => Err("This modpack didnt exist: " + modpack.value)
      case Some(list) =>
        if list == [] then Err("This modpack didnt exist: " + modpack.value)
        else Ok(Some(set s | s in list + AlwaysAdmitted))
  }

  // ---------------------------------------------------------------- initDict

  datatype Index = Index(dictionary: seq<DictEntry>, tree: Tree4<DictEntry>)

  function EmptyIndex(): Index {
    Index([], Empty())
  }

  predicate Admitted(whitelist: Option<set<string>>, id: string) {
    whitelist.None? || BaseFromId(id).source in whitelist.value
  }

  /** `asset.mods[source] || source` */
  function ModName(mods: Obj<string>, source: string): string {
    var m := Get(mods, source);
    if m.Some? && m.value != "" then m.value else source
  }

  /** The entry built for `id` listed under `name`: missing meta and sNbt become `''`. */
  function MakeEntry(mods: Obj<string>, name: string, id: string): (e: DictEntry)
    ensures e.name == name && e.id == id && e.source == BaseFromId(id).source
    ensures e.entry == BaseFromId(id).entry
    ensures e.meta == BaseFromId(id).meta.GetOr("") && e.sNbt == BaseFromId(id).sNbt.GetOr("")
  {
    var b := BaseFromId(id);
    var modname := ModName(mods, b.source);
    DictEntry(name, ToLower(name), id, modname, Abbr1(modname), b.source, b.entry,
      b.meta.GetOr(""), b.sNbt.GetOr(""))
  }

  /** One step of the inner loop of `initDict`. */
  function AddId(ix: Index, mods: Obj<string>, whitelist: Option<set<string>>, name: string, id: string): Index {
    if !Admitted(whitelist, id) then ix
    else
      var e := MakeEntry(mods, name, id);
      var (a, b, c, d) := SlotOf(e);
      Index(ix.dictionary + [e], Put4(ix.tree, a, b, c, d, e))
  }

  /** `Object.entries(asset.names)` flattened to (name, id) pairs, in enumeration order. */
  function Row(name: string, ids: seq<string>): (r: seq<(string, string)>)
    ensures |r| == |ids| && forall j :: 0 <= j < |ids| ==> r[j] == (name, ids[j])
  {
    seq(|ids|, j requires 0 <= j < |ids| => (name, ids[j]))
  }

  function PairsUpTo(names: Obj<seq<string>>, i: nat): seq<(string, string)>
    requires i <= |names.keys|
  {
    if i == 0 then [] else PairsUpTo(names, i - 1) + Row(names.keys[i - 1], names.vals[names.keys[i - 1]])
  }

  function NamePairs(names: Obj<seq<string>>): seq<(string, string)> {
    PairsUpTo(names, |names.keys|)
  }

  /** A left fold: `f` applied to `a` and each element of `s` in turn. */
  function FoldLeft<A, B>(f: (A, B) -> A, a: A, s: seq<B>): A {
    if s == [] then a else f(FoldLeft(f, a, s[..|s| - 1]), s[|s| - 1])
  }

  /** Folding a concatenation is folding its second part from where the first left off. */
  lemma {:induction false} FoldLeftConcat<A, B>(f: (A, B) -> A, a: A, s: seq<B>, t: seq<B>)
    ensures FoldLeft(f, FoldLeft(f, a, s), t) == FoldLeft(f, a, s + t)
  {
    if t == [] {
      assert s + t == s;
    } else {
      FoldLeftConcat(f, a, s, t[..|t| - 1]);
      assert (s + t)[..|s + t| - 1] == s + t[..|t| - 1];
    }
  }

  /** `AddId` as the step of a fold over (name, id) pairs. */
  function StepOf(mods: Obj<string>, whitelist: Option<set<string>>): (Index, (string, string)) -> Index {
    (ix: Index, p: (string, string)) => AddId(ix, mods, whitelist, p.0, p.1)
  }

  function Fold(pairs: seq<(string, string)>, mods: Obj<string>, whitelist: Option<set<string>>): Index {
    FoldLeft(StepOf(mods, whitelist), EmptyIndex(), pairs)
  }

  lemma FoldLast(pairs: seq<(string, string)>, mods: Obj<string>, whitelist: Option<set<string>>)
    requires pairs != []
    ensures var last := pairs[|pairs| - 1];
      Fold(pairs, mods, whitelist) == AddId(Fold(pairs[..|pairs| - 1], mods, whitelist), mods, whitelist, last.0, last.1)
  {
  }

  /** The inner loop of `initDict` as a function: the first `j` ids listed under `name`. */
  function FoldIds(ix: Index, mods: Obj<string>, w: Option<set<string>>, name: string, ids: seq<string>, j: nat): Index
    requires j <= |ids|
  {
    FoldLeft(StepOf(mods, w), ix, Row(name, ids)[..j])
  }

  /** Both loops of `initDict`, for any step: the first `i` names. */
  function FoldNamesWith<A>(f: (A, (string, string)) -> A, a: A, names: Obj<seq<string>>, i: nat): A
    requires i <= |names.keys|
  {
    if i == 0 then a
    else
      var ids := names.vals[names.keys[i - 1]];
      FoldLeft(f, FoldNamesWith(f, a, names, i - 1), Row(names.keys[i - 1], ids)[..|ids|])
  }

  /** Both loops of `initDict` as a function: the first `i` names. */
  function FoldNames(names: Obj<seq<string>>, mods: Obj<string>, w: Option<set<string>>, i: nat): Index
    requires i <= |names.keys|
  {
    FoldNamesWith(StepOf(mods, w), EmptyIndex(), names, i)
  }

  /** The two nested loops fold the flattened (name, id) pairs. */
  lemma {:induction false} FoldNamesIsFold<A>(f: (A, (string, string)) -> A, a: A, names: Obj<seq<string>>, i: nat)
    requires i <= |names.keys|
    ensures FoldNamesWith(f, a, names, i) == FoldLeft(f, a, PairsUpTo(names, i))
  {
    if i > 0 {
      FoldNamesIsFold(f, a, names, i - 1);
      var ids := names.vals[names.keys[i - 1]];
      var row := Row(names.keys[i - 1], ids);
      var pre := PairsUpTo(names, i - 1);
      assert row[..|ids|] == row;
      FoldLeftConcat(f, a, pre, row);
      assert PairsUpTo(names, i) == pre + row;
    }
  }

  /** One more element of a prefix is one more step of the fold. */
  lemma FoldLeftNext<A, B>(f: (A, B) -> A, a: A, s: seq<B>, j: nat)
    requires j < |s|
    ensures FoldLeft(f, a, s[..j + 1]) == f(FoldLeft(f, a, s[..j]), s[j])
  {
    assert s[..j + 1][..j] == s[..j];
  }

  /**
   * What `initDict` leaves behind: the fold over every pair, or the modpack
   * error, raised at the first id.
   */
  function BuildIndex(names: Obj<seq<string>>, mods: Obj<string>, whitelist: Result<Option<set<string>>>): Result<Index> {
    if NamePairs(names) == [] then Ok(EmptyIndex())
    else match whitelist
      case Err(msg) => Err(msg)
      case Ok(w) => Ok(Fold(NamePairs(names), mods, w))
  }

  /** The dictionary, read without the tree: one entry per admitted id, in order, duplicates kept. */
  function AdmittedEntries(pairs: seq<(string, string)>, mods: Obj<string>, whitelist: Option<set<string>>): seq<DictEntry> {
    if pairs == [] then []
    else
      var p := pairs[|pairs| - 1];
      AdmittedEntries(pairs[..|pairs| - 1], mods, whitelist) +
        (if Admitted(whitelist, p.1) then [MakeEntry(mods, p.0, p.1)] else [])
  }

  lemma {:induction false} FoldDictionary(pairs: seq<(string, string)>, mods: Obj<string>, whitelist: Option<set<string>>)
    ensures Fold(pairs, mods, whitelist).dictionary == AdmittedEntries(pairs, mods, whitelist)
  {
    if pairs != [] {
      FoldDictionary(pairs[..|pairs| - 1], mods, whitelist);
      FoldLast(pairs, mods, whitelist);
    }
  }

  /** Every slot of the tree holds an entry that belongs there. */
  ghost predicate WellKeyed(t: Tree4<DictEntry>) {
    forall a, b, c, d :: Get4(t, a, b, c, d).Some? ==> SlotOf(Get4(t, a, b, c, d).value) == (a, b, c, d)
  }

  /** The slot an indexed id is written to. */
  function IdSlot(id: string): (string, string, string, string) {
    var b := BaseFromId(id);
    (b.source, EntryKey(b.entry), b.meta.GetOr(""), b.sNbt.GetOr(""))
  }

  lemma {:induction false} FoldKeysSlots(pairs: seq<(string, string)>, mods: Obj<string>, whitelist: Option<set<string>>)
    ensures WellKeyed(Fold(pairs, mods, whitelist).tree)
    ensures forall k :: 0 <= k < |pairs| && Admitted(whitelist, pairs[k].1) ==>
      var (a, b, c, d) := IdSlot(pairs[k].1);
      Get4(Fold(pairs, mods, whitelist).tree, a, b, c, d).Some?
  {
    if pairs != [] {
      var init := pairs[..|pairs| - 1];
      var p := pairs[|pairs| - 1];
      FoldKeysSlots(init, mods, whitelist);
      FoldLast(pairs, mods, whitelist);
      var before := Fold(init, mods, whitelist).tree;
      var after := Fold(pairs, mods, whitelist).tree;
      if Admitted(whitelist, p.1) {
        var e := MakeEntry(mods, p.0, p.1);
        assert SlotOf(e) == IdSlot(p.1);
        var (a0, b0, c0, d0) := SlotOf(e);
        Put4Frame(Fold(init, mods, whitelist).tree, a0, b0, c0, d0, e);
        forall a, b, c, d | Get4(after, a, b, c, d).Some?
          ensures SlotOf(Get4(after, a, b, c, d).value) == (a, b, c, d)
        {
          if (a, b, c, d) != SlotOf(e) {
            assert Get4(after, a, b, c, d) == Get4(before, a, b, c, d);
          }
        }
        forall k | 0 <= k < |pairs| && Admitted(whitelist, pairs[k].1)
          ensures var (a, b, c, d) := IdSlot(pairs[k].1); Get4(after, a, b, c, d).Some?
        {
          if k < |pairs| - 1 {
            assert pairs[k] == init[k];
            var (a, b, c, d) := IdSlot(pairs[k].1);
            if (a, b, c, d) != SlotOf(e) {
              assert Get4(after, a, b, c, d) == Get4(before, a, b, c, d);
            }
          }
        }
      } else {
        forall k | 0 <= k < |pairs| && Admitted(whitelist, pairs[k].1)
          ensures var (a, b, c, d) := IdSlot(pairs[k].1); Get4(after, a, b, c, d).Some?
        {
          assert k < |pairs| - 1;
          assert pairs[k] == init[k];
        }
      }
    }
  }

  // ---------------------------------------------------------------- getById

  /** The meta slot: an explicit meta exactly, otherwise `''`, `0` (= `'0'`), `'*'`, then the first key. */
  function SelectMeta(def: Obj<Obj<DictEntry>>, meta: Option<string>): (r: Option<Obj<DictEntry>>)
    ensures meta.Some? && meta.value !in {"", "*", "32767"} ==> r == Get(def, meta.value)
    ensures (meta.None? || meta.value in {"", "*", "32767"}) ==> (r.None? <==> def.keys == [])
    ensures (meta.None? || meta.value in {"", "*", "32767"}) ==>
      && ("" in def.vals ==> r == Some(def.vals[""]))
      && ("" !in def.vals && "0" in def.vals ==> r == Some(def.vals["0"]))
      && ("" !in def.vals && "0" !in def.vals && "*" in def.vals ==> r == Some(def.vals["*"]))
      && ("" !in def.vals && "0" !in def.vals && "*" !in def.vals ==> r == First(def))
  {
    if meta.Some? && meta.value != "" && meta.value != "*" && meta.value != "32767" then Get(def, meta.value)
    else if "" in def.vals then Some(def.vals[""])
    else if "0" in def.vals then Some(def.vals["0"])
    else if "*" in def.vals then Some(def.vals["*"])
    else First(def)
  }

  /** The sNbt slot: a non-empty sNbt exactly, otherwise `''`, `'{}'`, then the first key. */
  function SelectNbt(dm: Obj<DictEntry>, sNbt: Option<string>): (r: Option<DictEntry>)
    ensures sNbt.Some? && sNbt.value != "" ==> r == Get(dm, sNbt.value)
    ensures (sNbt.None? || sNbt.value == "") ==> (r.None? <==> dm.keys == [])
    ensures (sNbt.None? || sNbt.value == "") ==>
      && ("" in dm.vals ==> r == Some(dm.vals[""]))
      && ("" !in dm.vals && "{}" in dm.vals ==> r == Some(dm.vals["{}"]))
      && ("" !in dm.vals && "{}" !in dm.vals ==> r == First(dm))
  {
    if sNbt.Some? && sNbt.value != "" then Get(dm, sNbt.value)
    else if "" in dm.vals then Some(dm.vals[""])
    else if "{}" in dm.vals then Some(dm.vals["{}"])
    else First(dm)
  }

  /** `getById(id)` on a built tree. */
  function LookupById(tree: Tree4<DictEntry>, id: string): (r: Option<DictEntry>)
    ensures var b := BaseFromId(id);
      b.source !in tree.vals || EntryKey(b.entry) !in tree.vals[b.source].vals ==> r.None?
  {
    var b := BaseFromId(id);
    var entry := EntryKey(b.entry);
    if b.source in tree.vals && entry in tree.vals[b.source].vals then
      match SelectMeta(tree.vals[b.source].vals[entry], b.meta)
      case None => None
      case Some(dm) => SelectNbt(dm, b.sNbt)
    else None
  }

  /** On a well-keyed tree, an id whose own slot is filled finds exactly that slot's entry. */
  lemma LookupFindsOwnSlot(tree: Tree4<DictEntry>, id: string)
    requires WellKeyed(tree)
    requires BaseFromId(id).meta.GetOr("") !in {"*", "32767"}
    requires var (a, b, c, d) := IdSlot(id); Get4(tree, a, b, c, d).Some?
    ensures LookupById(tree, id).Some? && SlotOf(LookupById(tree, id).value) == IdSlot(id)
  {
    var (a, b, c, d) := IdSlot(id);
    assert Get4(tree, a, b, c, d).Some?;
  }

  /**
   * Every admitted id whose meta is not a wildcard is found again by
   * `getById`, as an entry with the same source, entry, meta and sNbt.
   */
  lemma IndexedIdFound(names: Obj<seq<string>>, mods: Obj<string>, whitelist: Result<Option<set<string>>>, k: nat)
    requires k < |NamePairs(names)| && whitelist.Ok? && Admitted(whitelist.value, NamePairs(names)[k].1)
    requires BaseFromId(NamePairs(names)[k].1).meta.GetOr("") !in {"*", "32767"}
    ensures BuildIndex(names, mods, whitelist).Ok?
    ensures var id := NamePairs(names)[k].1;
      var found := LookupById(BuildIndex(names, mods, whitelist).value.tree, id);
      found.Some? && SlotOf(found.value) == IdSlot(id)
  {
    FoldKeysSlots(NamePairs(names), mods, whitelist.value);
    LookupFindsOwnSlot(BuildIndex(names, mods, whitelist).value.tree, NamePairs(names)[k].1);
  }

  // ---------------------------------------------------------------- the class

  class AssetEx {
    const names: Obj<seq<string>>
    const mods: Obj<string>
    const modpacks: Obj<seq<string>>
    const modpack: Option<string>

    /** `lookupTree`/`_nameDictionary` have been assigned. */
    var initialized: bool
    var dictionary: seq<DictEntry>
    var lookupTree: Tree4<DictEntry>

    ghost predicate Valid()
      reads this
    {
      && (!initialized ==> dictionary == [] && lookupTree == Empty())
      && (initialized ==> match BuildIndex(names, mods, ModpackMap(modpack, modpacks))
           case Ok(ix) => dictionary == ix.dictionary && lookupTree == ix.tree
           case Err(_) => dictionary == [] && lookupTree == Empty())
    }

    constructor (names: Obj<seq<string>>, mods: Obj<string>, modpacks: Obj<seq<string>>, modpack: Option<string>)
      ensures Valid() && !initialized
      ensures this.names == names && this.mods == mods && this.modpacks == modpacks && this.modpack == modpack
    {
      this.names := names;
      this.mods := mods;
      this.modpacks := modpacks;
      this.modpack := modpack;
      initialized := false;
      dictionary := [];
      lookupTree := Empty();
    }

    /** `initDict`: both loops over `asset.names`, filling the list and the tree. */
    method InitDict() returns (r: Result<()>)
      requires !initialized && dictionary == [] && lookupTree == Empty()
      modifies this
      ensures Valid() && initialized
      ensures r.Err? <==> BuildIndex(names, mods, ModpackMap(modpack, modpacks)).Err?
    {
      initialized := true;
      var built := RunInitDict(names, mods, ModpackMap(modpack, modpacks));
      match built
      case Ok(ix) =>
        dictionary := ix.dictionary;
        lookupTree := ix.tree;
        return Ok(());
      case Err(msg) =>
        return Err(msg);
    }

    /** `getById(id)`, building the index on first use. */
    method GetById(id: string) returns (r: Result<Option<DictEntry>>)
      requires Valid()
      modifies this
      ensures Valid() && initialized
      ensures old(initialized) ==> unchanged(this)
      ensures r.Err? <==> !old(initialized) && BuildIndex(names, mods, ModpackMap(modpack, modpacks)).Err?
      ensures r.Ok? ==> r.value == LookupById(lookupTree, id)
    {
      if !initialized {
        var init := InitDict();
        if init.Err? {
          return Err(init.msg);
        }
      }
      return Ok(LookupById(lookupTree, id));
    }

    /** The `nameDictionary` getter. */
    method NameDictionary() returns (r: Result<seq<DictEntry>>)
      requires Valid()
      modifies this
      ensures Valid() && initialized
      ensures old(initialized) ==> unchanged(this)
      ensures r.Err? <==> !old(initialized) && BuildIndex(names, mods, ModpackMap(modpack, modpacks)).Err?
      ensures r.Ok? ==> r.value == dictionary
    {
      if !initialized {
        var init := InitDict();
        if init.Err? {
          return Err(init.msg);
        }
      }
      return Ok(dictionary);
    }
  }

  /**
   * The loops of `initDict` over `asset.names`: the index they build, or the
   * modpack error the whitelist getter throws at the first id.
   */
  method RunInitDict(names: Obj<seq<string>>, mods: Obj<string>, whitelist: Result<Option<set<string>>>)
    returns (r: Result<Index>)
    ensures r == BuildIndex(names, mods, whitelist)
  {
    var ix := EmptyIndex();
    var i := 0;
    while i < |names.keys|
      invariant 0 <= i <= |names.keys|
      invariant whitelist.Err? ==> PairsUpTo(names, i) == [] && ix == EmptyIndex()
      invariant whitelist.Ok? ==> ix == FoldNames(names, mods, whitelist.value, i)
    {
      var ids := names.vals[names.keys[i]];
      if whitelist.Err? {
        assert PairsUpTo(names, i + 1) == PairsUpTo(names, i) + Row(names.keys[i], ids);
        if ids != [] {
          PairsGrow(names, i + 1, |names.keys|);
          BuildIndexErr(names, mods, whitelist);
          return Err(whitelist.msg);
        }
      } else {
        ix := AddIds(ix, mods, whitelist.value, names.keys[i], ids);
      }
      i := i + 1;
    }
    if whitelist.Ok? {
      FoldNamesIsFold(StepOf(mods, whitelist.value), EmptyIndex(), names, |names.keys|);
    }
    BuildIndexOk(names, mods, whitelist, ix);
    return Ok(ix);
  }

  /** The inner loop of `initDict`: the ids listed under one name, in order. */
  method AddIds(ix0: Index, mods: Obj<string>, w: Option<set<string>>, name: string, ids: seq<string>)
    returns (ix: Index)
    ensures ix == FoldIds(ix0, mods, w, name, ids, |ids|)
  {
    ix := ix0;
    var j := 0;
    while j < |ids|
      invariant 0 <= j <= |ids|
      invariant ix == FoldIds(ix0, mods, w, name, ids, j)
    {
      FoldLeftNext(StepOf(mods, w), ix0, Row(name, ids), j);
      ix := AddIdStep(ix, mods, w, name, ids[j]);
      j := j + 1;
    }
  }

  /** One id of the inner loop: its entry appended to the dictionary and written into the tree. */
  method AddIdStep(ix0: Index, mods: Obj<string>, w: Option<set<string>>, name: string, id: string)
    returns (ix: Index)
    ensures ix == AddId(ix0, mods, w, name, id)
  {
    ix := ix0;
    if Admitted(w, id) {
      var b := BaseFromId(id);
      var modname := ModName(mods, b.source);
      var e := DictEntry(name, ToLower(name), id, modname, Abbr1(modname), b.source, b.entry,
        b.meta.GetOr(""), b.sNbt.GetOr(""));
      ix := Index(ix.dictionary + [e], Put4(ix.tree, e.source, EntryKey(e.entry), e.meta, e.sNbt, e));
    }
  }

  lemma BuildIndexErr(names: Obj<seq<string>>, mods: Obj<string>, whitelist: Result<Option<set<string>>>)
    requires whitelist.Err? && NamePairs(names) != []
    ensures BuildIndex(names, mods, whitelist) == Err(whitelist.msg)
  {
  }

  lemma BuildIndexOk(names: Obj<seq<string>>, mods: Obj<string>, whitelist: Result<Option<set<string>>>, ix: Index)
    requires whitelist.Err? ==> NamePairs(names) == [] && ix == EmptyIndex()
    requires whitelist.Ok? ==> ix == Fold(NamePairs(names), mods, whitelist.value)
    ensures BuildIndex(names, mods, whitelist) == Ok(ix)
  {
  }

  lemma {:induction false} PairsGrow(names: Obj<seq<string>>, i: nat, n: nat)
    requires i <= n <= |names.keys| && PairsUpTo(names, i) != []
    ensures PairsUpTo(names, n) != []
  {
    if n > i {
      PairsGrow(names, i, n - 1);
    }
  }
}
