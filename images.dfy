/**
 * src/tool/images.ts: the image table `asset.images` (`imgHash -> image path`)
 * while images are grabbed. `initOld` drops the entries whose file is gone
 * and indexes the rest by path; `appendImage` records a new image under its
 * hash unless the hash, or the item, is already known.
 *
 * Hashing an image (`getHash`), globbing and copying files are inputs: the
 * hash `getHash` resolves to (or `None` when it rejects), the set of files
 * present, and whether the copy succeeded.
 */
module Images {
  import opened Wrappers
  import opened Text
  import opened JsObject
  import opened Assets
  import ItemTree

  // ---------------------------------------------------------------- trimImgPath

  /** `imgPath.replace(/\\/g, '/')` */
  function Slashes(p: string): (r: string)
    ensures |r| == |p| && '\\' !in r
  {
    seq(|p|, j requires 0 <= j < |p| => if p[j] == '\\' then '/' else p[j])
  }

  /** `imgPath.replace(/^i\//, '')` */
  function DropFolder(p: string): string {
    if StartsWith(p, "i/") then p[2..] else p
  }

  /** `imgPath.replace(/\.png$/, '')` */
  function DropPng(p: string): string {
    if EndsWith(p, ".png") then p[..|p| - 4] else p
  }

  /** `trimImgPath(imgPath)`: `\` to `/`, then the leading `i/` and the trailing `.png` dropped. */
  function TrimImgPath(imgPath: string): (r: string)
    ensures '\\' !in r
  {
    var p := Slashes(imgPath);
    assert '\\' !in p;
    DropPng(DropFolder(p))
  }

  /** The file `initOld` looks for: `i/${img}.png`. */
  function ImgFile(img: string): string {
    "i/" + img + ".png"
  }

  /**
   * `trimImgPath` undoes `i/${img}.png`, and also `i\${img}.png`, up to the
   * slashes in `img`, which all become `/`; so `i\minecraft\dirt.png` becomes
   * `minecraft/dirt`.
   */
  lemma TrimImgFile(sep: char, img: string)
    requires sep == '/' || sep == '\\'
    ensures TrimImgPath("i" + [sep] + img + ".png") == Slashes(img)
    ensures '\\' !in img ==> TrimImgPath(ImgFile(img)) == img
  {
    var r := Slashes(img);
    SlashesAppend("i" + [sep], img);
    SlashesAppend("i" + [sep] + img, ".png");
    SlashesPlain(".png");
    assert Slashes("i" + [sep]) == "i/";
    var q := Slashes("i" + [sep] + img + ".png");
    assert q == "i/" + r + ".png";
    assert DropFolder(q) == r + ".png";
    if '\\' !in img {
      SlashesPlain(img);
      assert ImgFile(img) == "i" + ['/'] + img + ".png";
    }
  }

  lemma SlashesAppend(a: string, b: string)
    ensures Slashes(a + b) == Slashes(a) + Slashes(b)
  {
    var l, r := Slashes(a + b), Slashes(a) + Slashes(b);
    forall j | 0 <= j < |l|
      ensures l[j] == r[j]
    {
      if j < |a| {
        assert (a + b)[j] == a[j];
      } else {
        assert (a + b)[j] == b[j - |a|];
      }
    }
  }

  lemma SlashesPlain(a: string)
    requires '\\' !in a
    ensures Slashes(a) == a
  {
  }

  // ---------------------------------------------------------------- initOld

  /** Whether the image of entry `hash` still has its file. */
  predicate HasFile(src: Obj<string>, files: set<string>, hash: string)
    requires hash in src.vals
  {
    ImgFile(src.vals[hash]) in files
  }

  /** `oldPathHash` after the loop has visited the first `n` entries: `oldPathHash[img] = hash` for each kept one. */
  function OldIndexUpTo(src: Obj<string>, files: set<string>, n: nat): Obj<string>
    requires n <= |src.keys|
  {
    if n == 0 then Empty()
    else
      var prev := OldIndexUpTo(src, files, n - 1);
      var hash := src.keys[n - 1];
      if HasFile(src, files, hash) then Put(prev, src.vals[hash], hash) else prev
  }

  /** `asset.images` after the loop has visited the first `n` entries: `delete asset.images[hash]` for each lost one. */
  function PrunedUpTo(src: Obj<string>, files: set<string>, n: nat): Obj<string>
    requires n <= |src.keys|
  {
    if n == 0 then src
    else
      var prev := PrunedUpTo(src, files, n - 1);
      var hash := src.keys[n - 1];
      if HasFile(src, files, hash) then prev else Delete(prev, hash)
  }

  /** `skipped` after the first `n` entries. */
  function SkippedUpTo(src: Obj<string>, files: set<string>, n: nat): nat
    requires n <= |src.keys|
  {
    if n == 0 then 0
    else SkippedUpTo(src, files, n - 1) + if HasFile(src, files, src.keys[n - 1]) then 0 else 1
  }

  /** After `n` entries, those visited are kept exactly when their file exists; the rest are untouched. */
  lemma {:induction false} PrunedUpToSpec(src: Obj<string>, files: set<string>, n: nat, k: string)
    requires n <= |src.keys|
    ensures Get(PrunedUpTo(src, files, n), k) ==
      if k in src.vals && k in src.keys[..n] && !HasFile(src, files, k) then None else Get(src, k)
  {
    if n > 0 {
      PrunedUpToSpec(src, files, n - 1, k);
      var hash := src.keys[n - 1];
      assert src.keys[..n] == src.keys[..n - 1] + [hash];
      if k != hash {
        assert (k in src.keys[..n]) == (k in src.keys[..n - 1]);
      }
    }
  }

  /** Every deletion removes a key that is still there, so the table shrinks by the skipped count. */
  lemma {:induction false} PrunedUpToSize(src: Obj<string>, files: set<string>, n: nat)
    requires n <= |src.keys|
    ensures |PrunedUpTo(src, files, n).keys| + SkippedUpTo(src, files, n) == |src.keys|
  {
    if n > 0 {
      PrunedUpToSize(src, files, n - 1);
      var prev := PrunedUpTo(src, files, n - 1);
      var hash := src.keys[n - 1];
      if !HasFile(src, files, hash) {
        PrunedUpToSpec(src, files, n - 1, hash);
        assert hash !in src.keys[..n - 1] by {
          forall j | 0 <= j < n - 1
            ensures src.keys[j] != hash
          {
          }
        }
        assert hash in prev.vals by {
          assert Get(prev, hash).Some?;
        }
        RemoveKeyLength(prev.keys, hash);
      }
    }
  }

  /** Removing a key that occurs once shortens the list by one. */
  lemma {:induction false} RemoveKeyLength(keys: seq<string>, k: string)
    requires Distinct(keys) && k in keys
    ensures |RemoveKey(keys, k)| == |keys| - 1
  {
    if keys[0] == k {
      assert k !in keys[1..] by {
        forall j | 1 <= j < |keys|
          ensures keys[j] != k
        {
        }
      }
      RemoveKeyAbsent(keys[1..], k);
    } else {
      assert k in keys[1..];
      RemoveKeyLength(keys[1..], k);
    }
  }

  lemma {:induction false} RemoveKeyAbsent(keys: seq<string>, k: string)
    requires k !in keys
    ensures RemoveKey(keys, k) == keys
  {
    if keys != [] {
      RemoveKeyAbsent(keys[1..], k);
    }
  }

  /** The path index only holds kept entries: each path maps to a hash whose image is that path and whose file exists. */
  lemma {:induction false} OldIndexSound(src: Obj<string>, files: set<string>, n: nat, img: string)
    requires n <= |src.keys|
    ensures var g := Get(OldIndexUpTo(src, files, n), img);
      g.Some? ==> g.value in src.vals && src.vals[g.value] == img && HasFile(src, files, g.value)
  {
    if n > 0 {
      OldIndexSound(src, files, n - 1, img);
    }
  }

  /** Every kept entry among the first `n` has its path in the index. */
  lemma {:induction false} OldIndexComplete(src: Obj<string>, files: set<string>, n: nat, j: nat)
    requires j < n <= |src.keys| && HasFile(src, files, src.keys[j])
    ensures src.vals[src.keys[j]] in OldIndexUpTo(src, files, n).vals
  {
    if j < n - 1 {
      OldIndexComplete(src, files, n - 1, j);
      var prev := OldIndexUpTo(src, files, n - 1);
      assert Get(prev, src.vals[src.keys[j]]).Some?;
    }
  }

  // ---------------------------------------------------------------- appendImage

  /** The item an image belongs to: `tree.add`'s argument without `imgHash`. */
  datatype ImgBase = ImgBase(source: string, entry: string, meta: Option<int>, nbtHash: Option<string>)

  /** What `appendImage` resolves to. */
  datatype Appended = Appended(imgHash: Option<string>, isAdded: bool)

  /**
   * The hash `appendImage` reuses before hashing: with the old index loaded and
   * a destination given, `tree.get` of the item, or the index entry of the
   * destination path when there is no item.
   */
  function StoredHash(items: Tree4<string>, oldIndex: Option<Obj<string>>, newImgPath: Option<string>, base: Option<ImgBase>)
    : Option<string>
  {
    if oldIndex.Some? && newImgPath.Some? && newImgPath.value != "" then
      if base.Some? then ItemTree.Lookup(items, base.value.source, base.value.entry, ItemTree.AsArg(base.value.meta), base.value.nbtHash)
      else Get(oldIndex.value, TrimImgPath(newImgPath.value))
    else None
  }

  /** The rest of `appendImage` once the image is hashed: the resolved value and the image table afterwards. */
  function AppendHashed(images: Obj<string>, imgPath: string, newImgPath: Option<string>, hash: Option<string>, copied: bool)
    : (Appended, Obj<string>)
  {
    if hash.None? then (Appended(None, false), images)
    else if Get(images, hash.value).Some? && Get(images, hash.value).value != "" then (Appended(hash, false), images)
    else
      var written := Put(images, hash.value, TrimImgPath(newImgPath.GetOr(imgPath)));
      (Appended(hash, newImgPath.Some? && copied), written)
  }

  /**
   * `appendImage(imgPath, newImgPath, base)` given the hash `getHash` resolves
   * to (`None` when it rejects) and whether the copy succeeded: the resolved
   * value and the image table afterwards.
   */
  function AppendOutcome(images: Obj<string>, items: Tree4<string>, oldIndex: Option<Obj<string>>, imgPath: string,
                         newImgPath: Option<string>, base: Option<ImgBase>, hash: Option<string>, copied: bool)
    : (Appended, Obj<string>)
  {
    var oldHash := StoredHash(items, oldIndex, newImgPath, base);
    if oldHash.Some? && oldHash.value != "" then (Appended(oldHash, false), images)
    else AppendHashed(images, imgPath, newImgPath, hash, copied)
  }

  /** With the old index loaded and a destination given, a stored hash is returned without hashing, writing or copying. */
  lemma AppendStored(images: Obj<string>, items: Tree4<string>, oldIndex: Obj<string>, imgPath: string,
                     newImgPath: string, base: Option<ImgBase>, hash: Option<string>, copied: bool)
    requires newImgPath != ""
    ensures var stored := if base.Some? then ItemTree.Lookup(items, base.value.source, base.value.entry, ItemTree.AsArg(base.value.meta), base.value.nbtHash)
                          else Get(oldIndex, TrimImgPath(newImgPath));
      stored.Some? && stored.value != "" ==>
        AppendOutcome(images, items, Some(oldIndex), imgPath, Some(newImgPath), base, hash, copied) == (Appended(stored, false), images)
  {
  }

  /** A hash already in the table is returned and the table is left as it was. */
  lemma AppendKnown(images: Obj<string>, items: Tree4<string>, oldIndex: Option<Obj<string>>, imgPath: string,
                    newImgPath: Option<string>, base: Option<ImgBase>, hash: string, copied: bool)
    requires Get(images, hash).Some? && Get(images, hash).value != ""
    ensures var r := AppendOutcome(images, items, oldIndex, imgPath, newImgPath, base, Some(hash), copied);
      r.1 == images && !r.0.isAdded && r.0.imgHash.Some?
    ensures oldIndex.None? ==> AppendOutcome(images, items, oldIndex, imgPath, newImgPath, base, Some(hash), copied).0 == Appended(Some(hash), false)
  {
  }

  /**
   * A new hash is recorded under `trimImgPath(newImgPath ?? imgPath)`, every
   * other entry stays, and `isAdded` is set only when there was a copy and it
   * succeeded.
   */
  lemma AppendNew(images: Obj<string>, imgPath: string, newImgPath: Option<string>, base: Option<ImgBase>,
                  hash: string, copied: bool, items: Tree4<string>)
    requires Get(images, hash).None? || Get(images, hash) == Some("")
    ensures var r := AppendOutcome(images, items, None, imgPath, newImgPath, base, Some(hash), copied);
      && r.0 == Appended(Some(hash), newImgPath.Some? && copied)
      && Get(r.1, hash) == Some(TrimImgPath(newImgPath.GetOr(imgPath)))
      && forall k :: k != hash ==> Get(r.1, k) == Get(images, k)
  {
  }

  /**
   * Once an image is recorded under a non-empty path, appending any image with
   * the same hash finds it and changes nothing.
   */
  lemma AppendThenKnown(images: Obj<string>, items: Tree4<string>, imgPath: string, newImgPath: Option<string>,
                        base: Option<ImgBase>, hash: string, copied: bool,
                        imgPath2: string, newImgPath2: Option<string>, base2: Option<ImgBase>, copied2: bool)
    requires TrimImgPath(newImgPath.GetOr(imgPath)) != ""
    ensures var once := AppendOutcome(images, items, None, imgPath, newImgPath, base, Some(hash), copied).1;
      AppendOutcome(once, items, None, imgPath2, newImgPath2, base2, Some(hash), copied2) == (Appended(Some(hash), false), once)
  {
  }

  // ---------------------------------------------------------------- grabImages

  /** The destination file name: `fileName.substring(source.length + 2)` unless `skipSubstr`. */
  function DestFileName(fileName: string, source: string, skipSubstr: bool): string {
    if skipSubstr then fileName else Substring(fileName, |source| + 2, |fileName|)
  }

  /** For a name `source__rest`, the destination name is `rest`. */
  lemma DestFileNameDropsSource(source: string, rest: string)
    ensures DestFileName(source + "__" + rest, source, false) == rest
  {
    assert (source + "__" + rest)[|source| + 2..] == rest;
  }

  // ---------------------------------------------------------------- the module state

  /** The module state of src/tool/images.ts. */
  class ImageStore {
    /** `oldPathHash` */
    var oldPathHash: Option<Obj<string>>

    constructor ()
      ensures oldPathHash.None?
    {
      oldPathHash := None;
    }

    /** `initOld(log)`, `files` being the images found on disk; the progress log is not modelled. */
    method InitOld(asset: Asset, files: set<string>) returns (skipped: nat)
      requires asset.Valid()
      modifies this, asset`images
      ensures asset.Valid()
      ensures var src := old(ImagesOf(asset));
        && oldPathHash == Some(OldIndexUpTo(src, files, |src.keys|))
        && asset.images == Some(PrunedUpTo(src, files, |src.keys|))
        && skipped == SkippedUpTo(src, files, |src.keys|)
    {
      var index: Obj<string> := Empty();
      oldPathHash := Some(index);
      var allEntries := asset.Images();
      skipped := 0;
      var i := 0;
      while i < |allEntries.keys|
        invariant 0 <= i <= |allEntries.keys|
        invariant asset.Valid() && allEntries == old(ImagesOf(asset))
        invariant oldPathHash == Some(OldIndexUpTo(allEntries, files, i))
        invariant asset.images == Some(PrunedUpTo(allEntries, files, i))
        invariant skipped == SkippedUpTo(allEntries, files, i)
      {
        var lost := InitStep(asset, allEntries, files, i);
        skipped := skipped + lost;
        i := i + 1;
      }
    }

    /** One pass of the loop of `initOld`: entry `i` kept and indexed, or deleted and counted. */
    method InitStep(asset: Asset, allEntries: Obj<string>, files: set<string>, i: nat) returns (lost: nat)
      requires i < |allEntries.keys| && asset.Valid()
      requires oldPathHash == Some(OldIndexUpTo(allEntries, files, i))
      requires asset.images == Some(PrunedUpTo(allEntries, files, i))
      modifies this, asset`images
      ensures asset.Valid()
      ensures oldPathHash == Some(OldIndexUpTo(allEntries, files, i + 1))
      ensures asset.images == Some(PrunedUpTo(allEntries, files, i + 1))
      ensures lost == SkippedUpTo(allEntries, files, i + 1) - SkippedUpTo(allEntries, files, i)
    {
      var hash := allEntries.keys[i];
      var img := allEntries.vals[hash];
      if ImgFile(img) in files {
        oldPathHash := Some(Put(oldPathHash.value, img, hash));
        lost := 0;
      } else {
        asset.images := Some(Delete(asset.images.value, hash));
        lost := 1;
      }
    }

    /**
     * `appendImage(imgPath, newImgPath, base)`, given what `getHash(imgPath)`
     * resolves to and whether `copyFile` succeeds.
     */
    method AppendImage(asset: Asset, imgPath: string, newImgPath: Option<string>, base: Option<ImgBase>,
                       hash: Option<string>, copied: bool)
      returns (res: Appended)
      requires asset.Valid()
      modifies asset`images, asset`items
      ensures asset.Valid()
      ensures ItemTree.ItemsOf(asset) == old(ItemTree.ItemsOf(asset))
      ensures (res, ImagesOf(asset)) ==
        AppendOutcome(old(ImagesOf(asset)), old(ItemTree.ItemsOf(asset)), oldPathHash, imgPath, newImgPath, base, hash, copied)
    {
      var oldHash := LookupStored(asset, newImgPath, base);
      if oldHash.Some? && oldHash.value != "" {
        return Appended(oldHash, false);
      }
      res := AppendHashedTo(asset, imgPath, newImgPath, hash, copied);
    }

    /** The reuse of a stored hash at the start of `appendImage`. */
    method LookupStored(asset: Asset, newImgPath: Option<string>, base: Option<ImgBase>) returns (oldHash: Option<string>)
      requires asset.Valid()
      modifies asset`items
      ensures asset.Valid() && ItemTree.ItemsOf(asset) == old(ItemTree.ItemsOf(asset))
      ensures oldHash == StoredHash(old(ItemTree.ItemsOf(asset)), oldPathHash, newImgPath, base)
    {
      oldHash := None;
      if oldPathHash.Some? && newImgPath.Some? && newImgPath.value != "" {
        if base.Some? {
          oldHash := ItemTree.Get(asset, base.value.source, base.value.entry, ItemTree.AsArg(base.value.meta), base.value.nbtHash);
        } else {
          oldHash := Get(oldPathHash.value, TrimImgPath(newImgPath.value));
        }
      }
    }
  }

  /** The image table the getter gives: the cached one, or the file's on first access. */
  function ImagesOf(asset: Asset): Obj<string>
    reads asset
  {
    asset.images.GetOr(asset.files.images)
  }

  /** `appendImage` after hashing, on the asset store: the image table is read through its getter only once there is a hash. */
  method AppendHashedTo(asset: Asset, imgPath: string, newImgPath: Option<string>, hash: Option<string>, copied: bool)
    returns (res: Appended)
    requires asset.Valid()
    modifies asset`images
    ensures asset.Valid()
    ensures (res, ImagesOf(asset)) == AppendHashed(old(ImagesOf(asset)), imgPath, newImgPath, hash, copied)
  {
    if hash.None? {
      return Appended(None, false);
    }
    var images := asset.Images();
    var next;
    res, next := AppendHashedOn(images, imgPath, newImgPath, hash.value, copied);
    asset.images := Some(next);
  }

  /** `appendImage` after hashing: a known hash is returned, a new one recorded, then the file copied. */
  method AppendHashedOn(images: Obj<string>, imgPath: string, newImgPath: Option<string>, imgHash: string, copied: bool)
    returns (res: Appended, next: Obj<string>)
    ensures (res, next) == AppendHashed(images, imgPath, newImgPath, Some(imgHash), copied)
  {
    next := images;
    if Get(images, imgHash).Some? && Get(images, imgHash).value != "" {
      return Appended(Some(imgHash), false), next;
    }
    next := Put(images, imgHash, TrimImgPath(if newImgPath.Some? then newImgPath.value else imgPath));
    if newImgPath.None? {
      return Appended(Some(imgHash), false), next;
    }
    res := Appended(Some(imgHash), copied);
  }
}
