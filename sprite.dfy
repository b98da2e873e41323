/**
 * src/lib/sprite.ts: which images go into the icon sprite, and where each
 * one sits in it: the sprite is a grid of 16-pixel cells, `rowAmount` cells
 * wide, filled row by row in the order of the kept images.
 */
module Sprite {
  import opened Wrappers
  import opened Text
  import opened Lists
  import opened JsObject
  import JsMap
  import Assets
  import Images

  /** `iconTextureSize` */
  const IconTextureSize: nat := 16

  // ---------------------------------------------------------------- the blacklist

  /** The meta part of a pattern: fixed digits, or `.` (one character other than a line terminator). */
  datatype MetaPattern = Digits(d: string) | AnyChar

  /** `/^name__meta__\w+/`, or a string compared as a whole. */
  datatype Filter = Pattern(name: string, meta: MetaPattern) | Literal(s: string)

  /** `blacklistedItems` */
  const Blacklist: seq<Filter> := [
    Pattern("enderio/block_painted_pressure_plate", Digits("13")),
    Pattern("thermalexpansion/florb", AnyChar),
    Pattern("appliedenergistics2/facade", Digits("0")),
    Pattern("forestry/can", Digits("1")),
    Pattern("forestry/capsule", Digits("1")),
    Pattern("forestry/refractory", Digits("1")),
    Pattern("thermaldynamics/cover", Digits("0"))
  ]

  /** `__` and a word character at `k`: the pattern's `__\w+`, which needs one word character only. */
  predicate WordTailAt(p: string, k: nat) {
    k + 2 < |p| && p[k] == '_' && p[k + 1] == '_' && IsWordChar(p[k + 2])
  }

  /** `typeof f === 'string' ? f === imgPath : f.test(imgPath)` */
  predicate Matches(f: Filter, p: string) {
    match f
    case Literal(s) => s == p
    case Pattern(name, meta) =>
      && StartsWith(p, name + "__")
      && var k := |name| + 2;
         match meta
         case Digits(d) => StartsWith(p[k..], d) && WordTailAt(p, k + |d|)
         case AnyChar => k < |p| && !IsLineTerminator(p[k]) && WordTailAt(p, k + 1)
  }

  /** The path is not matched by any filter of the list. */
  predicate Allowed(p: string) {
    forall k :: 0 <= k < |Blacklist| ==> !Matches(Blacklist[k], p)
  }

  /** A pattern matches every path that starts with its name, `__`, its meta, `__` and a word character. */
  lemma PatternMatches(name: string, d: string, w: string)
    requires w != [] && IsWordChar(w[0])
    ensures Matches(Pattern(name, Digits(d)), name + "__" + d + "__" + w)
  {
    var p := name + "__" + d + "__" + w;
    var k := |name| + 2;
    assert p[..k] == name + "__";
    assert p[k..][..|d|] == d;
    assert p[k + |d|] == '_' && p[k + |d| + 1] == '_' && p[k + |d| + 2] == w[0];
  }

  /** A path that does not start with the pattern's name and `__` is not matched by it. */
  lemma PatternNeedsName(name: string, meta: MetaPattern, p: string)
    requires !StartsWith(p, name + "__")
    ensures !Matches(Pattern(name, meta), p)
  {
  }

  /** `getSpriteImages()`: the image paths of the asset store, in key order, without the blacklisted ones. */
  function SpriteImages(images: Obj<string>): seq<string> {
    Keep(Values(images), Allowed)
  }

  /**
   * The sprite holds exactly the image paths no filter matches, in the order
   * of the images table.
   */
  lemma SpriteImagesSpec(images: Obj<string>)
    ensures SubSeq(SpriteImages(images), Values(images))
    ensures forall p :: p in SpriteImages(images) <==> p in Values(images) && Allowed(p)
  {
  }

  // ---------------------------------------------------------------- positions

  /**
   * The i-th image's `${x} ${y}`: column `i % rowAmount`, row
   * `(i / rowAmount) | 0`. With no columns, which only an empty list gets,
   * the column is `NaN` and the row `Infinity | 0`, that is 0.
   */
  function Pos(i: nat, rowAmount: nat): string {
    if rowAmount == 0 then "NaN 0"
    else NatToString(Column(i, rowAmount) * IconTextureSize) + " " + NatToString(Row(i, rowAmount) * IconTextureSize)
  }

  function Column(i: nat, rowAmount: nat): nat
    requires rowAmount > 0
  {
    i % rowAmount
  }

  function Row(i: nat, rowAmount: nat): nat
    requires rowAmount > 0
  {
    i / rowAmount
  }

  /** The column and the row give back the index, and the column is within the row. */
  lemma CellIndex(i: nat, rowAmount: nat)
    requires rowAmount > 0
    ensures i == Row(i, rowAmount) * rowAmount + Column(i, rowAmount) && Column(i, rowAmount) < rowAmount
  {
  }

  /** `Pos` for a fixed number of columns. */
  function PosOf(rowAmount: nat): nat -> string {
    (i: nat) => Pos(i, rowAmount)
  }

  /** Two numbers printed around a space can be read back. */
  lemma {:induction false} NatPairInjective(a: nat, b: nat, c: nat, d: nat)
    requires NatToString(a) + " " + NatToString(b) == NatToString(c) + " " + NatToString(d)
    ensures a == c && b == d
  {
    var sa, sb, sc, sd := NatToString(a), NatToString(b), NatToString(c), NatToString(d);
    var s := sa + " " + sb;
    assert s == sc + " " + sd;
    assert forall k :: 0 <= k < |sa| ==> s[k] == sa[k] && IsDigit(s[k]);
    assert forall k :: 0 <= k < |sc| ==> s[k] == sc[k] && IsDigit(s[k]);
    assert s[|sa|] == ' ' && s[|sc|] == ' ';
    if |sa| < |sc| {
      assert false;
    }
    if |sc| < |sa| {
      assert false;
    }
    assert sa == s[..|sa|] == sc;
    assert sb == s[|sa| + 1..] == sd;
    NatToStringInjective(a, c);
    NatToStringInjective(b, d);
  }

  /** Different images get different cells. */
  lemma PosInjective(i: nat, j: nat, rowAmount: nat)
    requires rowAmount > 0
    ensures Pos(i, rowAmount) == Pos(j, rowAmount) <==> i == j
  {
    if Pos(i, rowAmount) == Pos(j, rowAmount) {
      var ci, ri, cj, rj := Column(i, rowAmount), Row(i, rowAmount), Column(j, rowAmount), Row(j, rowAmount);
      NatPairInjective(ci * 16, ri * 16, cj * 16, rj * 16);
      CellIndex(i, rowAmount);
      CellIndex(j, rowAmount);
      assert ci == cj && ri == rj;
    }
  }

  /** The x coordinate stays within the sprite's width of `rowAmount` cells. */
  lemma PosWithinRow(i: nat, rowAmount: nat)
    requires rowAmount > 0
    ensures Column(i, rowAmount) * IconTextureSize <= (rowAmount - 1) * IconTextureSize
  {
    CellIndex(i, rowAmount);
  }

  /** `Object.fromEntries(imageList.map((p, i) => [p, pos(i)]))` for the list `ks`. */
  function SpriteMapOf(ks: seq<string>, pos: nat -> string): Obj<string> {
    if ks == [] then Empty() else Put(SpriteMapOf(ks[..|ks| - 1], pos), ks[|ks| - 1], pos(|ks| - 1))
  }

  /**
   * The map gives each listed path the position of its LAST occurrence in the
   * list (a later entry overwrites an earlier one) and has no other path.
   */
  lemma {:induction false} SpriteMapGet(ks: seq<string>, pos: nat -> string, p: string)
    ensures Get(SpriteMapOf(ks, pos), p) ==
      if p in ks then Some(pos(JsMap.LastIndex(ks, p))) else None
  {
    if ks == [] {
      assert Get(SpriteMapOf(ks, pos), p) == None;
    } else {
      var init, x := ks[..|ks| - 1], ks[|ks| - 1];
      assert ks == init + [x];
      SpriteMapGet(init, pos, p);
      PutLastGet(SpriteMapOf(init, pos), init, x, pos, p);
    }
  }

  /** One more entry `[x, pos(|ks|)]` keeps the last-occurrence reading of the map. */
  lemma PutLastGet(prev: Obj<string>, ks: seq<string>, x: string, pos: nat -> string, p: string)
    requires Get(prev, p) == if p in ks then Some(pos(JsMap.LastIndex(ks, p))) else None
    ensures Get(Put(prev, x, pos(|ks|)), p) ==
      if p in ks + [x] then Some(pos(JsMap.LastIndex(ks + [x], p))) else None
  {
    var cur := Put(prev, x, pos(|ks|));
    if p in ks + [x] {
      JsMap.LastIndexSnoc(ks, x, p);
      assert Get(cur, p) == Some(pos(JsMap.LastIndex(ks + [x], p)));
    } else {
      assert Get(cur, p) == None;
    }
  }

  // ---------------------------------------------------------------- the module state

  /** The module state of src/lib/sprite.ts. */
  class SpriteStore {
    /** `spriteMap`, unset until the first `getPos` */
    var spriteMap: Option<Obj<string>>

    constructor ()
      ensures spriteMap == None
    {
      spriteMap := None;
    }

    /**
     * `getPos(imgPath)`: builds the map on the first call, from the images of
     * the asset store with `rowAmount` columns, and reads it.
     */
    method GetPos(asset: Assets.Asset, rowAmount: nat, imgPath: string) returns (r: Option<string>)
      requires asset.Valid()
      modifies this, asset`images
      ensures asset.Valid()
      ensures old(spriteMap).Some? ==> spriteMap == old(spriteMap) && unchanged(asset)
      ensures old(spriteMap).None? ==>
        var list := SpriteImages(old(Images.ImagesOf(asset)));
        spriteMap == Some(SpriteMapOf(list, PosOf(rowAmount)))
      ensures spriteMap.Some? && r == Get(spriteMap.value, imgPath)
    {
      if spriteMap.None? {
        var images := asset.Images();
        var imageList := Keep(Values(images), Allowed);
        var m := BuildSpriteMap(imageList, rowAmount);
        spriteMap := Some(m);
      }
      r := Get(spriteMap.value, imgPath);
    }
  }

  /** The `Object.fromEntries` loop over the numbered image list. */
  method BuildSpriteMap(imageList: seq<string>, rowAmount: nat) returns (m: Obj<string>)
    ensures m == SpriteMapOf(imageList, PosOf(rowAmount))
  {
    m := Empty();
    var i := 0;
    while i < |imageList|
      invariant 0 <= i <= |imageList|
      invariant m == SpriteMapOf(imageList[..i], PosOf(rowAmount))
    {
      m := BuildNext(imageList, rowAmount, i, m);
      i := i + 1;
    }
    assert imageList[..i] == imageList;
  }

  /** One entry of `Object.fromEntries`: `[imgPath, pos]` written into the object. */
  method BuildNext(imageList: seq<string>, rowAmount: nat, i: nat, prev: Obj<string>) returns (next: Obj<string>)
    requires i < |imageList| && prev == SpriteMapOf(imageList[..i], PosOf(rowAmount))
    ensures next == SpriteMapOf(imageList[..i + 1], PosOf(rowAmount))
  {
    assert imageList[..i + 1][..i] == imageList[..i];
    assert PosOf(rowAmount)(i) == Pos(i, rowAmount);
    next := Put(prev, imageList[i], Pos(i, rowAmount));
  }

  /**
   * After `getPos`, a path has a position exactly when it is a kept image,
   * and that position is the cell of its last place in the kept list.
   */
  lemma GetPosSpec(images: Obj<string>, rowAmount: nat, p: string)
    ensures var list := SpriteImages(images);
      Get(SpriteMapOf(list, PosOf(rowAmount)), p) ==
        if p in Values(images) && Allowed(p) then Some(Pos(JsMap.LastIndex(list, p), rowAmount)) else None
  {
    SpriteMapGet(SpriteImages(images), PosOf(rowAmount), p);
  }
}
