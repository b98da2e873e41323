/**
 * `tree` of src/tool/tree.ts: reading and writing image hashes in the items
 * table of the asset store, `items[source][entry][meta][nbtHash] = imgHash`.
 */
module ItemTree {
  import opened Wrappers
  import opened Text
  import opened JsObject
  import opened Assets

  /** The `meta` argument of `get`: absent, a number or a string. */
  datatype MetaArg = NoMeta | MetaNum(n: int) | MetaStr(s: string)

  /** The arguments of `add`. */
  datatype NewItem = NewItem(source: string, entry: string, meta: Option<int>, nbtHash: Option<string>, imgHash: string)

  /** A stored hash that is neither absent nor `''`. */
  predicate Truthy(v: Option<string>) {
    v.Some? && v.value != ""
  }

  // ---------------------------------------------------------------- get

  /** The meta key `get` looks under: `!meta || meta === '32767' ? 0 : meta`. */
  function GetMetaKey(meta: MetaArg): string {
    match meta
    case NoMeta => "0"
    case MetaNum(n) => if n == 0 then "0" else IntToString(n)
    case MetaStr(s) => if s == "" || s == "32767" then "0" else s
  }

  /** The hash key `get` looks under: `nbtHash || ''`. */
  function GetHashKey(nbtHash: Option<string>): string {
    nbtHash.GetOr("")
  }

  /** `tree.get(source, entry, meta, nbtHash)` on a given items table. */
  function Lookup(items: Tree4<string>, source: string, entry: string, meta: MetaArg, nbtHash: Option<string>): Option<string> {
    Get4(items, source, entry, GetMetaKey(meta), GetHashKey(nbtHash))
  }

  /**
   * A number and its decimal string find the same slot, except for 32767:
   * the string `'32767'` means "any meta" and reads meta 0, the number does not.
   */
  lemma NumberAndStringMeta(items: Tree4<string>, source: string, entry: string, n: int, nbtHash: Option<string>)
    ensures n != 32767 ==>
      Lookup(items, source, entry, MetaNum(n), nbtHash) == Lookup(items, source, entry, MetaStr(IntToString(n)), nbtHash)
    ensures Lookup(items, source, entry, MetaStr("32767"), nbtHash) == Lookup(items, source, entry, NoMeta, nbtHash)
    ensures GetMetaKey(MetaNum(32767)) == "32767"
  {
    assert NatToString(0) == "0";
    assert NatToString(32767) == "32767" by {
      assert NatToString(3) == "3";
      assert NatToString(32) == "32";
      assert NatToString(327) == "327";
      assert NatToString(3276) == "3276";
    }
    if n != 0 && IntToString(n) == "" {
      assert false;
    }
    if n != 32767 && IntToString(n) == "32767" {
      IntToStringInjective(n, 32767);
    }
    if n != 0 && IntToString(n) == "0" {
      IntToStringInjective(n, 0);
    }
  }

  /** Distinct integers print differently. */
  lemma IntToStringInjective(a: int, b: int)
    requires IntToString(a) == IntToString(b)
    ensures a == b
  {
    if a >= 0 && b >= 0 {
      NatToStringValue(a);
      NatToStringValue(b);
    } else if a < 0 && b < 0 {
      assert NatToString(-a) == IntToString(a)[1..];
      assert NatToString(-b) == IntToString(b)[1..];
      NatToStringValue(-a);
      NatToStringValue(-b);
    }
  }

  // ---------------------------------------------------------------- add

  /** The slot `add` writes: `meta ??= 0`, `nbtHash ??= ''`. */
  function AddSlot(item: NewItem): (string, string, string, string) {
    (item.source, item.entry, IntToString(item.meta.GetOr(0)), item.nbtHash.GetOr(""))
  }

  /** `add(item)` on a given items table: what it returns and the table afterwards. */
  function AddTo(items: Tree4<string>, item: NewItem): (r: (Option<string>, Tree4<string>))
    ensures var (a, b, c, d) := AddSlot(item);
      && (Truthy(Get4(items, a, b, c, d)) ==> r == (Get4(items, a, b, c, d), items))
      && (!Truthy(Get4(items, a, b, c, d)) ==>
            && r.0 == None
            && Get4(r.1, a, b, c, d) == Some(item.imgHash)
            && forall a', b', c', d' :: (a', b', c', d') != (a, b, c, d) ==>
                 Get4(r.1, a', b', c', d') == Get4(items, a', b', c', d'))
  {
    var (a, b, c, d) := AddSlot(item);
    var existing := Get4(items, a, b, c, d);
    if Truthy(existing) then (existing, items)
    else
      Put4Frame(items, a, b, c, d, item.imgHash);
      (None, Put4(items, a, b, c, d, item.imgHash))
  }

  /** The `meta` argument that passes an item's meta on to `get`. */
  function AsArg(meta: Option<int>): MetaArg {
    if meta.None? then NoMeta else MetaNum(meta.value)
  }

  /**
   * After `add(x)`, `get` with x's source, entry, meta and nbtHash finds the
   * truthy hash that was already there, or else `x.imgHash`.
   */
  lemma GetAfterAdd(items: Tree4<string>, item: NewItem)
    ensures var (a, b, c, d) := AddSlot(item);
      var before := Get4(items, a, b, c, d);
      Lookup(AddTo(items, item).1, item.source, item.entry, AsArg(item.meta), item.nbtHash)
        == if Truthy(before) then before else Some(item.imgHash)
  {
    assert NatToString(0) == "0";
    if item.meta.Some? && item.meta.value != 0 {
      assert GetMetaKey(AsArg(item.meta)) == IntToString(item.meta.value);
    }
  }

  /** A second `add` of the same item writes nothing and returns the hash the first one stored, when that is truthy. */
  lemma AddTwice(items: Tree4<string>, item: NewItem)
    requires item.imgHash != ""
    ensures var once := AddTo(items, item).1;
      AddTo(once, item) == (Get4(once, AddSlot(item).0, AddSlot(item).1, AddSlot(item).2, AddSlot(item).3), once)
    ensures var once := AddTo(items, item).1;
      Truthy(Get4(once, AddSlot(item).0, AddSlot(item).1, AddSlot(item).2, AddSlot(item).3))
  {
  }

  // ---------------------------------------------------------------- on the asset store

  /** The items table the getter gives: the cached one, or the file's on first access. */
  function ItemsOf(asset: Asset): Tree4<string>
    reads asset
  {
    asset.items.GetOr(asset.files.items)
  }

  /** `tree.get(source, entry, meta, nbtHash)` */
  method Get(asset: Asset, source: string, entry: string, meta: MetaArg, nbtHash: Option<string>) returns (r: Option<string>)
    requires asset.Valid()
    modifies asset`items
    ensures asset.Valid() && asset.items == Some(old(ItemsOf(asset)))
    ensures r == Lookup(old(ItemsOf(asset)), source, entry, meta, nbtHash)
  {
    var items := asset.Items();
    r := Get4(items, source, entry, if meta.NoMeta? || meta == MetaNum(0) || meta == MetaStr("") || meta == MetaStr("32767") then "0"
                                    else if meta.MetaNum? then IntToString(meta.n) else meta.s,
              if nbtHash.Some? then nbtHash.value else "");
  }

  /** `tree.add(item)`: writes into the cached items table in place. */
  method Add(asset: Asset, item: NewItem) returns (r: Option<string>)
    requires asset.Valid()
    modifies asset`items
    ensures asset.Valid() && asset.items.Some?
    ensures (r, asset.items.value) == AddTo(old(ItemsOf(asset)), item)
  {
    var items := asset.Items();
    var next;
    r, next := AddOn(items, item);
    asset.items := Some(next);
  }

  /** The body of `add` on the items table the getter returned. */
  method AddOn(items: Tree4<string>, item: NewItem) returns (r: Option<string>, next: Tree4<string>)
    ensures (r, next) == AddTo(items, item)
  {
    var meta := if item.meta.Some? then item.meta.value else 0;
    var nbtHash := if item.nbtHash.Some? then item.nbtHash.value else "";
    var imgHash := Get4(items, item.source, item.entry, IntToString(meta), nbtHash);
    if imgHash.Some? && imgHash.value != "" {
      return imgHash, items;
    }
    return None, Put4(items, item.source, item.entry, IntToString(meta), nbtHash, item.imgHash);
  }
}
