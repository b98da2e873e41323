/**
 * `treeTool` of src/tool/treeTool.ts: the same reads and writes of the items
 * table as `tree`, except that `get` takes only numeric metas and defaults
 * with `??`, so it never folds `'32767'` or `''` into meta 0.
 */
module TreeTool {
  import opened Wrappers
  import opened Text
  import opened JsObject
  import opened Assets
  import opened ItemTree

  /** `treeTool.get(source, entry, meta, nbtHash)` on a given items table. */
  function ToolLookup(items: Tree4<string>, source: string, entry: string, meta: Option<int>, nbtHash: Option<string>)
    : Option<string>
  {
    Get4(items, source, entry, IntToString(meta.GetOr(0)), nbtHash.GetOr(""))
  }

  /**
   * On numeric metas `treeTool.get` and `tree.get` read the same slot: 0 is
   * the only falsy number, and the number 32767 is not folded by either.
   */
  lemma ToolLookupAgrees(items: Tree4<string>, source: string, entry: string, meta: Option<int>, nbtHash: Option<string>)
    ensures ToolLookup(items, source, entry, meta, nbtHash) == Lookup(items, source, entry, AsArg(meta), nbtHash)
  {
    assert NatToString(0) == "0";
  }

  /** After `treeTool.add(x)`, `treeTool.get` with x's keys finds the truthy hash already there, or else `x.imgHash`. */
  lemma ToolGetAfterAdd(items: Tree4<string>, item: NewItem)
    ensures var (a, b, c, d) := AddSlot(item);
      var before := Get4(items, a, b, c, d);
      ToolLookup(AddTo(items, item).1, item.source, item.entry, item.meta, item.nbtHash)
        == if Truthy(before) then before else Some(item.imgHash)
  {
    ToolLookupAgrees(AddTo(items, item).1, item.source, item.entry, item.meta, item.nbtHash);
    GetAfterAdd(items, item);
  }

  /** `treeTool.get(source, entry, meta, nbtHash)` */
  method ToolGet(asset: Asset, source: string, entry: string, meta: Option<int>, nbtHash: Option<string>) returns (r: Option<string>)
    requires asset.Valid()
    modifies asset`items
    ensures asset.Valid() && asset.items == Some(old(ItemsOf(asset)))
    ensures r == ToolLookup(old(ItemsOf(asset)), source, entry, meta, nbtHash)
  {
    var items := asset.Items();
    r := Get4(items, source, entry, IntToString(if meta.Some? then meta.value else 0), if nbtHash.Some? then nbtHash.value else "");
  }

  /** `treeTool.add(item)`: the same write as `tree.add`. */
  method ToolAdd(asset: Asset, item: NewItem) returns (r: Option<string>)
    requires asset.Valid()
    modifies asset`items
    ensures asset.Valid() && asset.items.Some?
    ensures (r, asset.items.value) == AddTo(old(ItemsOf(asset)), item)
  {
    var items := asset.Items();
    var next;
    r, next := ToolAddOn(items, item);
    asset.items := Some(next);
  }

  /** The body of `treeTool.add` on the items table the getter returned. */
  method ToolAddOn(items: Tree4<string>, item: NewItem) returns (r: Option<string>, next: Tree4<string>)
    ensures (r, next) == AddTo(items, item)
  {
    var meta := if item.meta.Some? then item.meta.value else 0;
    var nbtHash := if item.nbtHash.Some? then item.nbtHash.value else "";
    var imgHash := Get4(items, item.source, item.entry, IntToString(meta), nbtHash);
    if imgHash.Some? && imgHash.value != "" {
      return imgHash, items;
    }
    return None, Put4(items, item.source, item.entry, IntToString(meta), nbtHash, item.imgHash);
  }
}
