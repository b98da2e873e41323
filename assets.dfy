/**
 * src/tool/assets.ts: the asset store of the generator. Each JSON asset is
 * loaded on first access and cached in `store`; `nbtHash` inverts the nbt
 * table once; `saveAssets` reorders the names table before writing.
 *
 * The file contents the loader would read are the store's constant inputs;
 * reading and writing the files is not modelled.
 */
module Assets {
  import opened Wrappers
  import opened Text
  import opened JsObject
  import opened Sorting

  /** What `loadAsset(key)` reads for each key. */
  datatype AssetFiles = AssetFiles(
    images: Obj<string>,
    items: Tree4<string>,
    modpacks: Obj<seq<string>>,
    mods: Obj<string>,
    names: Obj<seq<string>>,
    nbt: Obj<string>)

  // ---------------------------------------------------------------- nbtHash

  /**
   * `_nbtHash` after the `forEach` has visited the first `n` entries of the
   * nbt table: `_nbtHash[sNbt] = nbtHash`, so a later hash overwrites.
   */
  function InverseUpTo(nbt: Obj<string>, n: nat): map<string, string>
    requires n <= |nbt.keys|
  {
    if n == 0 then map[]
    else InverseUpTo(nbt, n - 1)[nbt.vals[nbt.keys[n - 1]] := nbt.keys[n - 1]]
  }

  function Inverse(nbt: Obj<string>): map<string, string> {
    InverseUpTo(nbt, |nbt.keys|)
  }

  /** Whether the `j`-th hash is the last, among the first `n`, registering its sNbt. */
  predicate LastToRegister(nbt: Obj<string>, n: nat, j: nat)
    requires j < n <= |nbt.keys|
  {
    forall i :: j < i < n ==> nbt.vals[nbt.keys[i]] != nbt.vals[nbt.keys[j]]
  }

  /** Every sNbt in the inverse maps back to a hash holding it. */
  lemma {:induction false} InverseUpToSound(nbt: Obj<string>, n: nat)
    requires n <= |nbt.keys|
    ensures forall s :: s in InverseUpTo(nbt, n) ==>
      InverseUpTo(nbt, n)[s] in nbt.vals && nbt.vals[InverseUpTo(nbt, n)[s]] == s
  {
    if n > 0 {
      InverseUpToSound(nbt, n - 1);
      assert nbt.keys[n - 1] in nbt.vals;
    }
  }

  /** The `j`-th sNbt is in the inverse, under the `j`-th hash when no later hash holds it. */
  lemma {:induction false} InverseUpToComplete(nbt: Obj<string>, n: nat, j: nat)
    requires j < n <= |nbt.keys|
    ensures nbt.vals[nbt.keys[j]] in InverseUpTo(nbt, n)
    ensures LastToRegister(nbt, n, j) ==> InverseUpTo(nbt, n)[nbt.vals[nbt.keys[j]]] == nbt.keys[j]
  {
    if j < n - 1 {
      InverseUpToComplete(nbt, n - 1, j);
      if LastToRegister(nbt, n, j) {
        assert LastToRegister(nbt, n - 1, j);
        assert nbt.vals[nbt.keys[n - 1]] != nbt.vals[nbt.keys[j]];
      }
    }
  }

  /**
   * `nbtHash[sNbt]` names a hash holding that sNbt, for every sNbt of the
   * table, and it is the last such hash in enumeration order.
   */
  lemma InverseSpec(nbt: Obj<string>, j: nat)
    requires j < |nbt.keys|
    ensures var s := nbt.vals[nbt.keys[j]];
      && s in Inverse(nbt)
      && Inverse(nbt)[s] in nbt.vals
      && nbt.vals[Inverse(nbt)[s]] == s
      && (LastToRegister(nbt, |nbt.keys|, j) ==> Inverse(nbt)[s] == nbt.keys[j])
  {
    InverseUpToSound(nbt, |nbt.keys|);
    InverseUpToComplete(nbt, |nbt.keys|, j);
  }

  // ---------------------------------------------------------------- saveAssets

  /** `lenNaturalSort`: shorter first, ties by `tieLe` (the locale comparison). */
  function LenNatural(tieLe: (string, string) -> bool): (string, string) -> bool {
    (a: string, b: string) => |a| < |b| || (|a| == |b| && tieLe(a, b))
  }

  lemma LenNaturalTotalPreorder(tieLe: (string, string) -> bool)
    requires TotalPreorder(tieLe)
    ensures TotalPreorder(LenNatural(tieLe))
  {
  }

  /** The default `sort()` of an id list. */
  function SortIds(ids: seq<string>): seq<string> {
    Sort(ids, LexLe)
  }

  lemma LexLeTotalPreorder()
    ensures TotalPreorder(LexLe)
  {
    forall a, b ensures LexLe(a, b) || LexLe(b, a) {
      LexLeTotal(a, b);
    }
    forall a, b, c | LexLe(a, b) && LexLe(b, c) ensures LexLe(a, c) {
      LexLeTransitive(a, b, c);
    }
  }

  /** A new object with the first `i` keys of `ks` written in order, each holding its `src` value through `f`. */
  function RebuiltUpTo<V>(src: Obj<V>, ks: seq<string>, f: V -> V, i: nat): Obj<V>
    requires i <= |ks| && forall k :: k in ks ==> k in src.vals
  {
    if i == 0 then Empty()
    else Put(RebuiltUpTo(src, ks, f, i - 1), ks[i - 1], f(src.vals[ks[i - 1]]))
  }

  /** The keys of the names table in `lenNaturalSort` order. */
  function SortedKeys(names: Obj<seq<string>>, tieLe: (string, string) -> bool): (r: seq<string>)
    ensures forall k :: k in r <==> k in names.keys
  {
    var r := Sort(names.keys, LenNatural(tieLe));
    SortPermutes(names.keys, LenNatural(tieLe));
    assert forall k :: k in r <==> k in multiset(r);
    r
  }

  /** The names table as `saveAssets` rebuilds it: `newNames[name] = names[name].sort()` in sorted key order. */
  function SortedNames(names: Obj<seq<string>>, tieLe: (string, string) -> bool): Obj<seq<string>> {
    var ks := SortedKeys(names, tieLe);
    RebuiltUpTo(names, ks, SortIds, |ks|)
  }

  /** The rebuilt object lists the first `i` keys in order when none of them is an array index. */
  lemma {:induction false} RebuiltUpToKeys<V>(src: Obj<V>, ks: seq<string>, f: V -> V, i: nat)
    requires i <= |ks| && forall k :: k in ks ==> k in src.vals
    requires JsObject.Distinct(ks) && forall k :: k in ks ==> !IsIndexKey(k)
    ensures RebuiltUpTo(src, ks, f, i).keys == ks[..i]
  {
    if i > 0 {
      RebuiltUpToKeys(src, ks, f, i - 1);
      assert ks[i - 1] in ks;
      AppendFreshKey(RebuiltUpTo(src, ks, f, i - 1), ks, i, f(src.vals[ks[i - 1]]));
    }
  }

  /** Writing the next key of a distinct list of plain keys appends it. */
  lemma AppendFreshKey<V>(prev: Obj<V>, ks: seq<string>, i: nat, v: V)
    requires 0 < i <= |ks| && prev.keys == ks[..i - 1] && JsObject.Distinct(ks) && !IsIndexKey(ks[i - 1])
    ensures Put(prev, ks[i - 1], v).keys == ks[..i]
  {
    var k := ks[i - 1];
    assert k !in prev.keys;
    assert ks[..i] == ks[..i - 1] + [k];
  }

  /** Every key of `o` holds its `src` value through `f`. */
  ghost predicate HoldsMapped<V>(o: Obj<V>, src: Obj<V>, f: V -> V) {
    forall k :: k in o.vals ==> k in src.vals && o.vals[k] == f(src.vals[k])
  }

  lemma PutMapped<V>(o: Obj<V>, src: Obj<V>, f: V -> V, k: string)
    requires HoldsMapped(o, src, f) && k in src.vals
    ensures HoldsMapped(Put(o, k, f(src.vals[k])), src, f)
  {
    var next := Put(o, k, f(src.vals[k]));
    forall x | x in next.vals
      ensures x in src.vals && next.vals[x] == f(src.vals[x])
    {
      assert Get(next, x).Some?;
    }
  }

  /** Each key of the rebuilt object holds its `src` value through `f`. */
  lemma {:induction false} RebuiltUpToVals<V>(src: Obj<V>, ks: seq<string>, f: V -> V, i: nat)
    requires i <= |ks| && forall k :: k in ks ==> k in src.vals
    ensures HoldsMapped(RebuiltUpTo(src, ks, f, i), src, f)
  {
    if i > 0 {
      RebuiltUpToVals(src, ks, f, i - 1);
      assert ks[i - 1] in ks;
      PutMapped(RebuiltUpTo(src, ks, f, i - 1), src, f, ks[i - 1]);
    }
  }

  /** A value at two positions occurs at least twice. */
  lemma TwoOccurrences(s: seq<string>, i: nat, j: nat)
    requires i < j < |s| && s[i] == s[j]
    ensures multiset(s)[s[i]] >= 2
  {
    assert s == s[..j] + s[j..];
    assert s[i] in s[..j] && s[j] in s[j..];
    assert multiset(s) == multiset(s[..j]) + multiset(s[j..]);
  }

  /** A key of a distinct list occurs once in its multiset. */
  lemma {:induction false} DistinctCount(s: seq<string>, x: string)
    requires JsObject.Distinct(s)
    ensures multiset(s)[x] <= 1
  {
    if s != [] {
      assert JsObject.Distinct(s[1..]) by {
        forall i, j | 0 <= i < j < |s[1..]| ensures s[1..][i] != s[1..][j] {
          assert s[1..][i] == s[i + 1] && s[1..][j] == s[j + 1];
        }
      }
      DistinctCount(s[1..], x);
      assert s == [s[0]] + s[1..];
      if s[0] == x {
        assert x !in s[1..];
      }
    }
  }

  /** The sorted keys are a permutation of distinct keys, so distinct. */
  lemma SortedKeysDistinct(names: Obj<seq<string>>, tieLe: (string, string) -> bool)
    ensures JsObject.Distinct(SortedKeys(names, tieLe))
  {
    var ks := SortedKeys(names, tieLe);
    SortPermutes(names.keys, LenNatural(tieLe));
    forall i, j | 0 <= i < j < |ks| ensures ks[i] != ks[j] {
      if ks[i] == ks[j] {
        TwoOccurrences(ks, i, j);
        DistinctCount(names.keys, ks[i]);
        assert false;
      }
    }
  }

  /**
   * When no name looks like an array index, the rebuilt table lists its names
   * shortest first, holds the same names, and each id list is sorted and a
   * permutation of the old one.
   */
  lemma SortedNamesSpec(names: Obj<seq<string>>, tieLe: (string, string) -> bool, k: string)
    requires TotalPreorder(tieLe) && forall n :: n in names.keys ==> !IsIndexKey(n)
    ensures SortedNames(names, tieLe).keys == SortedKeys(names, tieLe)
    ensures forall i, j :: 0 <= i < j < |SortedNames(names, tieLe).keys| ==>
      |SortedNames(names, tieLe).keys[i]| <= |SortedNames(names, tieLe).keys[j]|
    ensures k in SortedNames(names, tieLe).vals <==> k in names.vals
    ensures k in names.vals ==>
      && Sorted(SortedNames(names, tieLe).vals[k], LexLe)
      && multiset(SortedNames(names, tieLe).vals[k]) == multiset(names.vals[k])
  {
    var ks := SortedKeys(names, tieLe);
    SortedKeysDistinct(names, tieLe);
    RebuiltUpToKeys(names, ks, SortIds, |ks|);
    RebuiltUpToVals(names, ks, SortIds, |ks|);
    assert ks[..|ks|] == ks;
    LenNaturalTotalPreorder(tieLe);
    SortSorted(names.keys, LenNatural(tieLe));
    if k in names.vals {
      LexLeTotalPreorder();
      SortPermutes(names.vals[k], LexLe);
      SortSorted(names.vals[k], LexLe);
    }
  }

  // ---------------------------------------------------------------- the class

  /** `asset`, with `store` as its fields. */
  class Asset {
    const files: AssetFiles

    var images: Option<Obj<string>>
    var items: Option<Tree4<string>>
    var modpacks: Option<Obj<seq<string>>>
    var mods: Option<Obj<string>>
    var names: Option<Obj<seq<string>>>
    var nbt: Option<Obj<string>>
    /** `_nbtHash` */
    var nbtHash: Option<map<string, string>>

    /** Whatever is cached is what was loaded (or later rewritten, for `images`, `items` and `names`). */
    ghost predicate Valid()
      reads this
    {
      && (modpacks.Some? ==> modpacks.value == files.modpacks)
      && (mods.Some? ==> mods.value == files.mods)
      && (nbt.Some? ==> nbt.value == files.nbt)
      && (nbtHash.Some? ==> nbtHash.value == Inverse(files.nbt))
    }

    constructor (files: AssetFiles)
      ensures this.files == files && Valid()
      ensures images.None? && items.None? && modpacks.None? && mods.None? && names.None? && nbt.None? && nbtHash.None?
    {
      this.files := files;
      images := None;
      items := None;
      modpacks := None;
      mods := None;
      names := None;
      nbt := None;
      nbtHash := None;
    }

    /** The `images` getter: the cached table, which the image tools update in place. */
    method Images() returns (r: Obj<string>)
      requires Valid()
      modifies this`images
      ensures Valid() && images == Some(r)
      ensures old(images).Some? ==> r == old(images).value && unchanged(this)
      ensures old(images).None? ==> r == files.images
    {
      if images.None? {
        images := Some(files.images);
      }
      r := images.value;
    }

    /** The `items` getter: the cached tree, which the tree tools update in place. */
    method Items() returns (r: Tree4<string>)
      requires Valid()
      modifies this`items
      ensures Valid() && items == Some(r)
      ensures old(items).Some? ==> r == old(items).value && unchanged(this)
      ensures old(items).None? ==> r == files.items
    {
      if items.None? {
        items := Some(files.items);
      }
      r := items.value;
    }

    /** The `modpacks` getter. */
    method Modpacks() returns (r: Obj<seq<string>>)
      requires Valid()
      modifies this`modpacks
      ensures Valid() && modpacks == Some(r) && r == files.modpacks
      ensures old(modpacks).Some? ==> unchanged(this)
    {
      if modpacks.None? {
        modpacks := Some(files.modpacks);
      }
      r := modpacks.value;
    }

    /** The `mods` getter. */
    method Mods() returns (r: Obj<string>)
      requires Valid()
      modifies this`mods
      ensures Valid() && mods == Some(r) && r == files.mods
      ensures old(mods).Some? ==> unchanged(this)
    {
      if mods.None? {
        mods := Some(files.mods);
      }
      r := mods.value;
    }

    /** The `names` getter. */
    method Names() returns (r: Obj<seq<string>>)
      requires Valid()
      modifies this`names
      ensures Valid() && names == Some(r)
      ensures old(names).Some? ==> r == old(names).value && unchanged(this)
      ensures old(names).None? ==> r == files.names
    {
      if names.None? {
        names := Some(files.names);
      }
      r := names.value;
    }

    /** The `nbt` getter. */
    method Nbt() returns (r: Obj<string>)
      requires Valid()
      modifies this`nbt
      ensures Valid() && nbt == Some(r) && r == files.nbt
      ensures old(nbt).Some? ==> unchanged(this)
    {
      if nbt.None? {
        nbt := Some(files.nbt);
      }
      r := nbt.value;
    }

    /** The `nbtHash` getter: builds the inverse of the nbt table once, loading that table if needed. */
    method NbtHash() returns (r: map<string, string>)
      requires Valid()
      modifies this`nbt, this`nbtHash
      ensures Valid() && nbtHash == Some(r) && r == Inverse(files.nbt)
      ensures old(nbtHash).Some? ==> unchanged(this)
    {
      if nbtHash.Some? {
        return nbtHash.value;
      }
      var table := Nbt();
      r := map[];
      var i := 0;
      while i < |table.keys|
        invariant 0 <= i <= |table.keys| && r == InverseUpTo(table, i)
      {
        var h := table.keys[i];
        r := r[table.vals[h] := h];
        i := i + 1;
      }
      nbtHash := Some(r);
    }

    /** The names step of `saveAssets`; writing the files is not modelled. */
    method SaveNames(tieLe: (string, string) -> bool)
      requires Valid()
      modifies this`names
      ensures Valid()
      ensures old(names).None? ==> names.None?
      ensures old(names).Some? ==> names == Some(SortedNames(old(names).value, tieLe))
    {
      if names.None? {
        return;
      }
      var table := names.value;
      var newNames := RebuildNames(table, SortedKeys(table, tieLe), SortIds);
      names := Some(newNames);
    }
  }

  /** The loop of `saveAssets` over the sorted keys, filling `newNames` with each list through `f`. */
  method RebuildNames<V>(table: Obj<V>, sortedKeys: seq<string>, f: V -> V) returns (newNames: Obj<V>)
    requires forall k :: k in sortedKeys ==> k in table.vals
    ensures newNames == RebuiltUpTo(table, sortedKeys, f, |sortedKeys|)
  {
    newNames := Empty();
    var i := 0;
    while i < |sortedKeys|
      invariant 0 <= i <= |sortedKeys| && newNames == RebuiltUpTo(table, sortedKeys, f, i)
    {
      newNames := RebuildNext(table, sortedKeys, f, i, newNames);
      i := i + 1;
    }
  }

  /** One step of that loop: `newNames[name] = f(names[name])` for the next sorted key. */
  method RebuildNext<V>(table: Obj<V>, sortedKeys: seq<string>, f: V -> V, i: nat, prev: Obj<V>) returns (next: Obj<V>)
    requires i < |sortedKeys| && forall k :: k in sortedKeys ==> k in table.vals
    requires prev == RebuiltUpTo(table, sortedKeys, f, i)
    ensures next == RebuiltUpTo(table, sortedKeys, f, i + 1)
  {
    var name := sortedKeys[i];
    next := Put(prev, name, f(table.vals[name]));
  }
}
