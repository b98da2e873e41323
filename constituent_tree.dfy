/**
 * `ConstituentTree` of src/Tree.ts: the tree `source -> entry -> meta ->
 * nbtHash -> sNBT` that collects items while the assets are generated, and
 * its compacted export in which the common "plain item" shapes are written
 * as empty objects.
 */
module ConstituentTree {
  import opened Wrappers
  import opened Text
  import opened JsObject

  /** `new Item(source, entry, meta, hash, nbt?)` */
  datatype Item = Item(source: string, entry: string, meta: int, hash: string, nbt: Option<string>)

  /** The stored values are `string | undefined`. */
  type NbtTree = Tree4<Option<string>>

  /** The exported tree: `undefined` has become `''`. */
  type ExportTree = Tree4<string>

  /** The path an item is stored under: `tree[source][entry][meta][hash]`. */
  function Slot(item: Item): (string, string, string, string) {
    (item.source, item.entry, IntToString(item.meta), item.hash)
  }

  /** What `tree[...]?.[...]?.[...]?.[...]` finds at a path. */
  function At(t: NbtTree, slot: (string, string, string, string)): Option<Option<string>> {
    Get4(t, slot.0, slot.1, slot.2, slot.3)
  }

  /** The stored value is truthy: present, defined and not `''`. */
  predicate Truthy(v: Option<Option<string>>) {
    v.Some? && v.value.Some? && v.value.value != ""
  }

  // ---------------------------------------------------------------- add

  /** `add(item)` on a tree: whether it was added, and the tree afterwards. */
  function AddTo(t: NbtTree, item: Item): (r: (bool, NbtTree))
    ensures r.0 <==> !Truthy(At(t, Slot(item)))
    ensures !r.0 ==> r.1 == t
    ensures r.0 ==> At(r.1, Slot(item)) == Some(item.nbt)
    ensures forall p :: p != Slot(item) ==> At(r.1, p) == At(t, p)
  {
    var (a, b, c, d) := Slot(item);
    if Truthy(Get4(t, a, b, c, d)) then (false, t)
    else
      Put4Frame(t, a, b, c, d, item.nbt);
      (true, Put4(t, a, b, c, d, item.nbt))
  }

  /**
   * Re-adding an item whose nbt is `undefined` or `''` is reported as a new
   * addition again, since `add` tests the stored value and not the key.
   */
  lemma ReAddFalsyNbt(t: NbtTree, item: Item)
    requires item.nbt.None? || item.nbt == Some("")
    ensures AddTo(t, item).0 ==> AddTo(AddTo(t, item).1, item) == (true, AddTo(t, item).1)
  {
    var t1 := AddTo(t, item).1;
    if AddTo(t, item).0 {
      var (a, b, c, d) := Slot(item);
      assert Put4(t1, a, b, c, d, item.nbt) == t1 by {
        PutSame(t1, a, b, c, d);
      }
    }
  }

  /** Writing back the value a path already holds leaves the tree as it was. */
  lemma PutSame<T>(t: Tree4<T>, a: string, b: string, c: string, d: string)
    requires Get4(t, a, b, c, d).Some?
    ensures Put4(t, a, b, c, d, Get4(t, a, b, c, d).value) == t
  {
    var ta := t.vals[a];
    var tb := ta.vals[b];
    var tc := tb.vals[c];
    assert Put(tc, d, tc.vals[d]) == tc;
    assert Put(tb, c, tc) == tb;
    assert Put(ta, b, tb) == ta;
    assert Put(t, a, ta) == t;
  }

  /** A truthy value is never overwritten: a second `add` of the same slot is refused. */
  lemma AddTwiceRefused(t: NbtTree, item: Item, other: Item)
    requires Slot(other) == Slot(item) && Truthy(Some(item.nbt))
    ensures AddTo(t, item).0 ==> AddTo(AddTo(t, item).1, other) == (false, AddTo(t, item).1)
  {
  }

  // ---------------------------------------------------------------- export

  /** `metaIsSingle`: the only key is `''`. */
  predicate MetaIsSingle(metaDict: Obj<Option<string>>) {
    metaDict.keys == [""]
  }

  /** An entry whose only meta is `'0'`, holding only `''`. */
  predicate EntryIsPlain(entry: Obj<Obj<Option<string>>>) {
    entry.keys == ["0"] && MetaIsSingle(entry.vals["0"])
  }

  /** `hash ?? ''` */
  function ExportValue(v: Option<string>): string {
    v.GetOr("")
  }

  function ExportMeta(metaDict: Obj<Option<string>>): Obj<string> {
    if MetaIsSingle(metaDict) then Empty() else MapValues(metaDict, ExportValue)
  }

  function ExportEntry(entry: Obj<Obj<Option<string>>>): Obj<Obj<string>> {
    if EntryIsPlain(entry) then Empty() else MapValues(entry, ExportMeta)
  }

  function ExportSource(source: Obj<Obj<Obj<Option<string>>>>): Obj<Obj<Obj<string>>> {
    MapValues(source, ExportEntry)
  }

  /** `export()` as a value. */
  function Exported(t: NbtTree): ExportTree {
    MapValues(t, ExportSource)
  }

  /**
   * The export keeps every source and every entry, in order. A plain entry
   * becomes `{}`; otherwise every meta is kept, a meta holding only `''`
   * becomes `{}`, and any other meta keeps its hashes with `undefined` written
   * as `''`.
   */
  lemma ExportShape(t: NbtTree, s: string, e: string, m: string, h: string)
    ensures Exported(t).keys == t.keys
    ensures s in t.vals ==> Exported(t).vals[s].keys == t.vals[s].keys
    ensures s in t.vals && e in t.vals[s].vals ==>
      var entry := t.vals[s].vals[e];
      var out := Exported(t).vals[s].vals[e];
      && (EntryIsPlain(entry) ==> out.keys == [])
      && (!EntryIsPlain(entry) ==> out.keys == entry.keys)
      && (!EntryIsPlain(entry) && m in entry.vals && MetaIsSingle(entry.vals[m]) ==> out.vals[m].keys == [])
      && (!EntryIsPlain(entry) && m in entry.vals && !MetaIsSingle(entry.vals[m]) ==>
           out.vals[m].keys == entry.vals[m].keys
           && (h in entry.vals[m].vals ==> out.vals[m].vals[h] == entry.vals[m].vals[h].GetOr("")))
  {
  }

  /** A plain entry is exported as an empty object under its own source and entry. */
  lemma ExportPlainEntry(t: NbtTree, s: string, e: string)
    requires s in t.vals && e in t.vals[s].vals && EntryIsPlain(t.vals[s].vals[e])
    ensures Get2(Exported(t), s, e) == Some(Empty())
  {
  }

  // ---------------------------------------------------------------- the loops of export

  /** The innermost loop: the hashes of one meta. */
  method ExportMetaLoop(metaDict: Obj<Option<string>>) returns (out: Obj<string>)
    ensures out == ExportMeta(metaDict)
  {
    out := Empty();
    if MetaIsSingle(metaDict) {
      return;
    }
    CopyStart(metaDict, ExportValue);
    var i := 0;
    while i < |metaDict.keys|
      invariant 0 <= i <= |metaDict.keys| && CopiedUpTo(out, metaDict, ExportValue, i)
    {
      var key := metaDict.keys[i];
      CopyStep(out, metaDict, ExportValue, i);
      out := Put(out, key, metaDict.vals[key].GetOr(""));
      i := i + 1;
    }
    CopyDone(out, metaDict, ExportValue);
  }

  /** The loop over the metas of one entry, skipped for a plain entry. */
  method ExportEntryLoop(entry: Obj<Obj<Option<string>>>) returns (out: Obj<Obj<string>>)
    ensures out == ExportEntry(entry)
  {
    out := Empty();
    if |entry.keys| == 1 && entry.keys[0] == "0" && MetaIsSingle(entry.vals["0"]) {
      return;
    }
    CopyStart(entry, ExportMeta);
    var i := 0;
    while i < |entry.keys|
      invariant 0 <= i <= |entry.keys| && CopiedUpTo(out, entry, ExportMeta, i)
    {
      var key := entry.keys[i];
      var metaOut := ExportMetaLoop(entry.vals[key]);
      CopyStep(out, entry, ExportMeta, i);
      out := Put(out, key, metaOut);
      i := i + 1;
    }
    CopyDone(out, entry, ExportMeta);
  }

  /** The loop over the entries of one source. */
  method ExportSourceLoop(source: Obj<Obj<Obj<Option<string>>>>) returns (out: Obj<Obj<Obj<string>>>)
    ensures out == ExportSource(source)
  {
    out := Empty();
    CopyStart(source, ExportEntry);
    var i := 0;
    while i < |source.keys|
      invariant 0 <= i <= |source.keys| && CopiedUpTo(out, source, ExportEntry, i)
    {
      var key := source.keys[i];
      var entryOut := ExportEntryLoop(source.vals[key]);
      CopyStep(out, source, ExportEntry, i);
      out := Put(out, key, entryOut);
      i := i + 1;
    }
    CopyDone(out, source, ExportEntry);
  }

  // ---------------------------------------------------------------- the class

  class ConstituentTree {
    var tree: NbtTree

    constructor ()
      ensures tree == Empty()
    {
      tree := Empty();
    }

    /** `add(item)` */
    method Add(item: Item) returns (added: bool)
      modifies this
      ensures (added, tree) == AddTo(old(tree), item)
    {
      var (a, b, c, d) := Slot(item);
      if Truthy(Get4(tree, a, b, c, d)) {
        return false;
      }
      tree := Put4(tree, a, b, c, d, item.nbt);
      return true;
    }

    /** `export()`: the loop over the sources. */
    method Export() returns (out: ExportTree)
      ensures out == Exported(tree)
    {
      out := Empty();
      CopyStart(tree, ExportSource);
      var i := 0;
      while i < |tree.keys|
        invariant 0 <= i <= |tree.keys| && CopiedUpTo(out, tree, ExportSource, i)
      {
        var key := tree.keys[i];
        var sourceOut := ExportSourceLoop(tree.vals[key]);
        CopyStep(out, tree, ExportSource, i);
        out := Put(out, key, sourceOut);
        i := i + 1;
      }
      CopyDone(out, tree, ExportSource);
    }
  }
}
