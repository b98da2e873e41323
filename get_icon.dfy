/**
 * src/getIcon.ts: the image path of an item, looked up in the generated
 * `items.json` tree (`source -> entry -> meta -> nbtHash -> imageHash`), the
 * `images.json` table (`imageHash -> path`) and the `nbt.json` registry
 * (`nbtHash -> sNbt`), which `init` inverts once into `nbtHashMap`.
 *
 * Loading the three JSON files is left to the caller: they are the store's
 * constant inputs. A thrown `Error` is an `Err` carrying its message.
 */
module GetIcon {
  import opened Wrappers
  import opened Text
  import opened JsObject

  /** `[source, entry, meta?, sNbt?]` as `getIcon` receives it. */
  datatype IconBase = IconBase(source: string, entry: string, meta: Option<int>, sNbt: Option<string>)

  // ---------------------------------------------------------------- init

  /**
   * `nbtHashMap` after the `forEach` of `init` has visited the first `n`
   * entries of `nbt.json`: `nbtHashMap[sNbt] ??= nbtHash`, so the first hash
   * registering an sNbt keeps it.
   */
  function HashesUpTo(nbt: Obj<string>, n: nat): map<string, string>
    requires n <= |nbt.keys|
  {
    if n == 0 then map[]
    else
      var m := HashesUpTo(nbt, n - 1);
      var h := nbt.keys[n - 1];
      var s := nbt.vals[h];
      if s in m then m else m[s := h]
  }

  /** The inverse of `nbt.json` that `getIcon` uses: each sNbt to the hash it is stored under. */
  function NbtHashMap(nbt: Obj<string>): map<string, string> {
    HashesUpTo(nbt, |nbt.keys|)
  }

  /** Whether the `j`-th hash of `nbt.json` is the first one registering its sNbt. */
  predicate FirstToRegister(nbt: Obj<string>, j: nat)
    requires j < |nbt.keys|
  {
    forall i :: 0 <= i < j ==> nbt.vals[nbt.keys[i]] != nbt.vals[nbt.keys[j]]
  }

  /** The inverse holds exactly the sNbt values registered among the first `n` hashes. */
  lemma {:induction false} HashesUpToKeys(nbt: Obj<string>, n: nat)
    requires n <= |nbt.keys|
    ensures forall s :: s in HashesUpTo(nbt, n) <==> exists j :: 0 <= j < n && nbt.vals[nbt.keys[j]] == s
  {
    if n > 0 {
      HashesUpToKeys(nbt, n - 1);
      var s' := nbt.vals[nbt.keys[n - 1]];
      forall s ensures s in HashesUpTo(nbt, n) <==> exists j :: 0 <= j < n && nbt.vals[nbt.keys[j]] == s {
        if s == s' {
          assert nbt.vals[nbt.keys[n - 1]] == s;
        } else if s in HashesUpTo(nbt, n) {
          assert s in HashesUpTo(nbt, n - 1);
        } else {
          assert s !in HashesUpTo(nbt, n - 1);
        }
      }
    }
  }

  /** Each registered sNbt is kept under the first hash, in the enumeration order of `nbt.json`, that registers it. */
  lemma {:induction false} HashesUpToFirst(nbt: Obj<string>, n: nat, j: nat)
    requires j < n <= |nbt.keys| && FirstToRegister(nbt, j)
    ensures nbt.vals[nbt.keys[j]] in HashesUpTo(nbt, n)
    ensures HashesUpTo(nbt, n)[nbt.vals[nbt.keys[j]]] == nbt.keys[j]
  {
    var s := nbt.vals[nbt.keys[j]];
    if j == n - 1 {
      HashesUpToKeys(nbt, n - 1);
      assert s !in HashesUpTo(nbt, n - 1);
    } else {
      HashesUpToFirst(nbt, n - 1, j);
    }
  }

  /** The first hash registering an sNbt is the one `getIcon` finds for it. */
  lemma NbtHashMapFirstWins(nbt: Obj<string>, j: nat)
    requires j < |nbt.keys| && FirstToRegister(nbt, j)
    ensures nbt.vals[nbt.keys[j]] in NbtHashMap(nbt)
    ensures NbtHashMap(nbt)[nbt.vals[nbt.keys[j]]] == nbt.keys[j]
  {
    HashesUpToFirst(nbt, |nbt.keys|, j);
  }

  /**
   * `nbtHashMap` as `init` fills it, `nbtHashMap[sNbt] ??= assetsImages[nbtHash]`:
   * an image path looked up by an nbt hash. An `undefined` stored by `??=` is
   * overwritten by the next write and reads as absent, so it is left out.
   */
  function HashesAsWrittenUpTo(nbt: Obj<string>, images: Obj<string>, n: nat): map<string, string>
    requires n <= |nbt.keys|
  {
    if n == 0 then map[]
    else
      var m := HashesAsWrittenUpTo(nbt, images, n - 1);
      var h := nbt.keys[n - 1];
      var s := nbt.vals[h];
      if s in m || h !in images.vals then m else m[s := images.vals[h]]
  }

  function NbtHashMapAsWritten(nbt: Obj<string>, images: Obj<string>): map<string, string> {
    HashesAsWrittenUpTo(nbt, images, |nbt.keys|)
  }

  // ---------------------------------------------------------------- getIcon

  /** `definition[meta || 0]`: an absent or zero meta reads slot `0`. */
  function MetaKey(meta: Option<int>): (r: string)
    ensures meta.None? || meta.value == 0 ==> r == "0"
    ensures meta.Some? && meta.value > 0 ==> r == NatToString(meta.value)
  {
    if meta.None? || meta.value == 0 then "0" else IntToString(meta.value)
  }

  /** The template-literal text of an optional part: `undefined` when absent. */
  function Shown(s: Option<string>): string {
    s.GetOr("undefined")
  }

  /** `getReport(reason)` */
  function Report(b: IconBase, reason: string): string {
    "Looking for item " + b.source + ":" + b.entry + ":" + Shown(if b.meta.Some? then Some(IntToString(b.meta.value)) else None)
      + ":" + Shown(b.sNbt) + ", but " + reason + ". This could only happen if .json file generated wrongly"
  }

  const NoMetas := "definition for this item doesnt have any metas"
  const NoNbts := "stack for this item doesnt have any nbts"
  const NoPath := "we found image hash with no corresponding path"

  /** The meta stack: slot `meta || 0`, otherwise the first one. */
  function Stack(definition: Obj<Obj<string>>, meta: Option<int>): (r: Option<Obj<string>>)
    ensures MetaKey(meta) in definition.vals ==> r == Some(definition.vals[MetaKey(meta)])
    ensures MetaKey(meta) !in definition.vals ==> r == First(definition)
    ensures r.None? <==> definition.keys == []
  {
    match Get(definition, MetaKey(meta))
    case Some(stack) => Some(stack)
    case None => First(definition)
  }

  /** The stack slot an sNbt reads: its hash in `hashes` when registered, `''` otherwise. */
  function NbtSlot(hashes: map<string, string>, sNbt: Option<string>): string {
    if sNbt.None? || sNbt.value == "" || sNbt.value !in hashes then "" else hashes[sNbt.value]
  }

  /**
   * The image hash: without an sNbt slot `''`, with one the slot its hash in
   * `hashes` names (`''` when unregistered); the first slot when that is empty.
   */
  function ImageHash(stack: Obj<string>, hashes: map<string, string>, sNbt: Option<string>): (r: Option<string>)
    ensures NbtSlot(hashes, sNbt) in stack.vals ==> r == Some(stack.vals[NbtSlot(hashes, sNbt)])
    ensures NbtSlot(hashes, sNbt) !in stack.vals ==> r == First(stack)
    ensures r.None? <==> stack.keys == []
  {
    var slot := NbtSlot(hashes, sNbt);
    match Get(stack, slot)
    case Some(h) => Some(h)
    case None => First(stack)
  }

  /** `getIcon(base)` once `init` has run, with `hashes` as its `nbtHashMap`. */
  function Lookup(items: Tree4<string>, images: Obj<string>, hashes: map<string, string>, b: IconBase)
    : (r: Result<Option<string>>)
    ensures r == Ok(None) <==> Get2(items, b.source, b.entry).None?
    ensures r.Ok? && r.value.Some? ==> r.value.value != ""
  {
    match Get2(items, b.source, b.entry)
    case None => Ok(None)
    case Some(definition) =>
      match Stack(definition, b.meta)
      case None => Err(Report(b, NoMetas))
      case Some(stack) =>
        match ImageHash(stack, hashes, b.sNbt)
        case None => Err(Report(b, NoNbts))
        case Some(imageHash) =>
          match Get(images, imageHash)
          case Some(path) => if path == "" then Err(Report(b, NoPath)) else Ok(Some(path))
          case None => Err(Report(b, NoPath))
  }

  /** The three data-integrity throws, each when its slot is missing. */
  lemma LookupThrows(items: Tree4<string>, images: Obj<string>, hashes: map<string, string>, b: IconBase,
                     definition: Obj<Obj<string>>)
    requires Get2(items, b.source, b.entry) == Some(definition)
    ensures definition.keys == [] ==> Lookup(items, images, hashes, b) == Err(Report(b, NoMetas))
    ensures definition.keys != [] && Stack(definition, b.meta).value.keys == [] ==>
      Lookup(items, images, hashes, b) == Err(Report(b, NoNbts))
    ensures definition.keys != [] && Stack(definition, b.meta).value.keys != [] ==>
      var h := ImageHash(Stack(definition, b.meta).value, hashes, b.sNbt).value;
      && (Get(images, h).None? || Get(images, h) == Some("") ==> Lookup(items, images, hashes, b) == Err(Report(b, NoPath)))
      && (Get(images, h).Some? && Get(images, h) != Some("") ==> Lookup(items, images, hashes, b) == Ok(Get(images, h)))
  {
  }

  /**
   * An item whose meta slot, nbt slot and image path are all in place is found:
   * the path stored for the image hash in the slot the sNbt's hash names.
   */
  lemma LookupFindsIcon(items: Tree4<string>, images: Obj<string>, hashes: map<string, string>, b: IconBase,
                        nbtHash: string, imageHash: string, path: string)
    requires b.sNbt.Some? && b.sNbt.value != "" && b.sNbt.value in hashes && hashes[b.sNbt.value] == nbtHash
    requires Get4(items, b.source, b.entry, MetaKey(b.meta), nbtHash) == Some(imageHash)
    requires Get(images, imageHash) == Some(path) && path != ""
    ensures Lookup(items, images, hashes, b) == Ok(Some(path))
  {
  }

  /** Without an sNbt, or with one the inverse does not register, the image is the one in slot `''`. */
  lemma LookupPlainIcon(items: Tree4<string>, images: Obj<string>, hashes: map<string, string>, b: IconBase,
                        imageHash: string, path: string)
    requires b.sNbt.None? || b.sNbt.value == "" || b.sNbt.value !in hashes
    requires Get4(items, b.source, b.entry, MetaKey(b.meta), "") == Some(imageHash)
    requires Get(images, imageHash) == Some(path) && path != ""
    ensures Lookup(items, images, hashes, b) == Ok(Some(path))
  {
  }

  /**
   * With the inverse built from `nbt.json`, an item stored under the first
   * hash that registers its sNbt resolves to that slot's image.
   */
  lemma RegisteredNbtFindsIcon(items: Tree4<string>, images: Obj<string>, nbt: Obj<string>, b: IconBase,
                               j: nat, imageHash: string, path: string)
    requires j < |nbt.keys| && FirstToRegister(nbt, j)
    requires b.sNbt == Some(nbt.vals[nbt.keys[j]]) && b.sNbt.value != ""
    requires Get4(items, b.source, b.entry, MetaKey(b.meta), nbt.keys[j]) == Some(imageHash)
    requires Get(images, imageHash) == Some(path) && path != ""
    ensures Lookup(items, images, NbtHashMap(nbt), b) == Ok(Some(path))
  {
    NbtHashMapFirstWins(nbt, j);
    LookupFindsIcon(items, images, NbtHashMap(nbt), b, nbt.keys[j], imageHash, path);
  }

  /** One registered sNbt `{a:1}` under hash `h1`. */
  const SampleNbt: Obj<string> := RawObj(["h1"], map["h1" := "{a:1}"])
  /** Images `img0` and `img1` at paths `p0` and `p1`. */
  const SampleImages: Obj<string> := RawObj(["img0", "img1"], map["img0" := "p0", "img1" := "p1"])
  /** A stack whose slot `''` shows `img0` and slot `h1` shows `img1`. */
  const SampleStack: Obj<string> := RawObj(["", "h1"], map["" := "img0", "h1" := "img1"])
  const SampleMetas: map<string, Obj<string>> := map["0" := SampleStack]
  const SampleDefinition: Obj<Obj<string>> := RawObj(["0"], SampleMetas)
  const SampleEntries: map<string, Obj<Obj<string>>> := map["e" := SampleDefinition]
  const SampleSources: map<string, Obj<Obj<Obj<string>>>> := map["src" := RawObj(["e"], SampleEntries)]
  /** `{ src: { e: { 0: SampleStack } } }` */
  const SampleItems: Tree4<string> := RawObj(["src"], SampleSources)

  /**
   * The inverse as `init` writes it misses the item's nbt slot: it stores
   * `images.json[h1]`, which is absent, so the sNbt `{a:1}` reads slot `''`
   * and shows `p0`; the intended inverse names slot `h1` and shows `p1`.
   */
  lemma NbtHashMapAsWrittenCounterexample()
    ensures Lookup(SampleItems, SampleImages, NbtHashMapAsWritten(SampleNbt, SampleImages), IconBase("src", "e", None, Some("{a:1}")))
      == Ok(Some("p0"))
    ensures Lookup(SampleItems, SampleImages, NbtHashMap(SampleNbt), IconBase("src", "e", None, Some("{a:1}")))
      == Ok(Some("p1"))
  {
    SampleInverses();
    SampleLookup(map[]);
    SampleLookup(map["{a:1}" := "h1"]);
  }

  /** The as-written inverse of the sample is empty; the intended one maps `{a:1}` to `h1`. */
  lemma SampleInverses()
    ensures NbtHashMapAsWritten(SampleNbt, SampleImages) == map[]
    ensures NbtHashMap(SampleNbt) == map["{a:1}" := "h1"]
  {
    assert SampleNbt.keys[0] == "h1" && |SampleNbt.keys| == 1;
    assert "h1" !in SampleImages.vals;
    assert HashesAsWrittenUpTo(SampleNbt, SampleImages, 0) == map[];
    assert HashesUpTo(SampleNbt, 0) == map[];
  }

  /** The sample item reads slot `h1` exactly when the inverse names it, and slot `''` otherwise. */
  lemma SampleLookup(hashes: map<string, string>)
    requires hashes == map[] || hashes == map["{a:1}" := "h1"]
    ensures Lookup(SampleItems, SampleImages, hashes, IconBase("src", "e", None, Some("{a:1}")))
      == if hashes == map[] then Ok(Some("p0")) else Ok(Some("p1"))
  {
    var b := IconBase("src", "e", None, Some("{a:1}"));
    assert MetaKey(None) == "0";
    assert Get4(SampleItems, "src", "e", "0", "") == Some("img0");
    assert Get4(SampleItems, "src", "e", "0", "h1") == Some("img1");
    assert Get(SampleImages, "img0") == Some("p0");
    assert Get(SampleImages, "img1") == Some("p1");
    if hashes == map[] {
      LookupPlainIcon(SampleItems, SampleImages, hashes, b, "img0", "p0");
    } else {
      LookupFindsIcon(SampleItems, SampleImages, hashes, b, "h1", "img1", "p1");
    }
  }

  // ---------------------------------------------------------------- the module state

  /** The module-level state of src/getIcon.ts: the loaded tables and the inverse `init` builds once. */
  class IconStore {
    const items: Tree4<string>
    const nbt: Obj<string>
    const images: Obj<string>

    var initialized: bool
    var nbtHashMap: map<string, string>

    ghost predicate Valid()
      reads this
    {
      nbtHashMap == if initialized then NbtHashMap(nbt) else map[]
    }

    constructor (items: Tree4<string>, nbt: Obj<string>, images: Obj<string>)
      ensures Valid() && !initialized
      ensures this.items == items && this.nbt == nbt && this.images == images
    {
      this.items := items;
      this.nbt := nbt;
      this.images := images;
      initialized := false;
      nbtHashMap := map[];
    }

    /** `init`: builds `nbtHashMap` on the first call and does nothing afterwards. */
    method Init()
      requires Valid()
      modifies this
      ensures Valid() && initialized
      ensures old(initialized) ==> unchanged(this)
    {
      if initialized {
        return;
      }
      initialized := true;
      var i := 0;
      while i < |nbt.keys|
        invariant 0 <= i <= |nbt.keys| && initialized
        invariant nbtHashMap == HashesUpTo(nbt, i)
      {
        var h := nbt.keys[i];
        var s := nbt.vals[h];
        if s !in nbtHashMap {
          nbtHashMap := nbtHashMap[s := h];
        }
        i := i + 1;
      }
    }

    /** `getIcon(base)` */
    method GetIcon(b: IconBase) returns (r: Result<Option<string>>)
      requires Valid()
      modifies this
      ensures Valid() && initialized
      ensures old(initialized) ==> unchanged(this)
      ensures r == Lookup(items, images, NbtHashMap(nbt), b)
    {
      Init();
      r := Lookup(items, images, nbtHashMap, b);
    }
  }
}
