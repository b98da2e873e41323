/**
 * The disambiguator of src/unclear.ts: it narrows an ambiguous candidate list,
 * lets the user pick one from a menu, and keeps the captures it could not
 * resolve. The terminal menu is an abstract `choose`: given the rows shown, it
 * returns the selected row index or cancels. Colours and prompts are not modelled.
 */
module Unclear {
  import opened Wrappers
  import opened Text
  import opened Sorting
  import opened Lists
  import opened JsMap
  import opened DictEntries
  import Chunk

  // ---------------------------------------------------------------- linesOfMatch

  /**
   * Where `while (start-- && (input[start] !== '\n' || k--));` leaves `start`:
   * the `k + 1`-th line break before `start`, or -1 when there are fewer.
   */
  function Back(s: string, start: nat, k: nat): (r: int)
    requires start <= |s|
    ensures -1 <= r < start
    decreases start
  {
    if start == 0 then -1
    else if s[start - 1] != '\n' then Back(s, start - 1, k)
    else if k == 0 then start - 1
    else Back(s, start - 1, k - 1)
  }

  /**
   * Where `while (input.length > ++end && (input[end] !== '\n' || k--));`
   * leaves `end`: the `k + 1`-th line break after `end`, or past the input.
   */
  function Fwd(s: string, end: nat, k: nat): (r: nat)
    requires end <= |s|
    ensures end < r <= |s| + 1
    ensures r == |s| + 1 ==> end == |s|
    decreases |s| - end
  {
    var e := end + 1;
    if e >= |s| then e
    else if s[e] != '\n' then Fwd(s, e, k)
    else if k == 0 then e
    else Fwd(s, e, k - 1)
  }

  /** `linesOfMatch(match, lines)` without its colouring. */
  method LinesOfMatch(input: string, index: nat, lines: nat) returns (r: string)
    requires index <= |input|
    ensures r == " in line:\n" + Substring(input, Back(input, index, lines), Fwd(input, index, lines)) + "\n"
  {
    var k: int := lines;
    var start: int := index;
    var going := true;
    while going
      invariant -1 <= start <= index
      invariant going ==> 0 <= start && 0 <= k && Back(input, start, k) == Back(input, index, lines)
      invariant !going ==> start == Back(input, index, lines)
      decreases start + 1
    {
      var t := start;
      start := start - 1;
      if t == 0 {
        going := false;
      } else if input[start] == '\n' {
        var t2 := k;
        k := k - 1;
        if t2 == 0 {
          going := false;
        }
      }
    }

    k := lines;
    var end: int := index;
    going := true;
    while going
      invariant index <= end <= |input| + 1
      invariant going ==> end <= |input| && 0 <= k && Fwd(input, end, k) == Fwd(input, index, lines)
      invariant !going ==> end == Fwd(input, index, lines)
      decreases |input| + 1 - end
    {
      end := end + 1;
      if !(|input| > end) {
        going := false;
      } else if input[end] == '\n' {
        var t2 := k;
        k := k - 1;
        if t2 == 0 {
          going := false;
        }
      }
    }
    r := " in line:\n" + Substring(input, start, end) + "\n";
  }

  /** With `k = 0`, `start` stops on the nearest line break before it, or at -1 when there is none. */
  lemma {:induction false} BackNearest(s: string, start: nat)
    requires start <= |s|
    ensures var a := Back(s, start, 0);
      && (a == -1 ==> '\n' !in s[..start])
      && (a >= 0 ==> s[a] == '\n' && '\n' !in s[a + 1..start])
    decreases start
  {
    if start > 0 && s[start - 1] != '\n' {
      BackNearest(s, start - 1);
      assert s[..start] == s[..start - 1] + [s[start - 1]];
      var a := Back(s, start, 0);
      if a >= 0 {
        assert s[a + 1..start] == s[a + 1..start - 1] + [s[start - 1]];
      }
    }
  }

  /** With `k = 0`, `end` stops on the nearest line break after it, or at the end of the input. */
  lemma {:induction false} FwdNearest(s: string, end: nat)
    requires end < |s|
    ensures var b := Fwd(s, end, 0);
      && b <= |s| && (b < |s| ==> s[b] == '\n')
      && '\n' !in s[end + 1..b]
    decreases |s| - end
  {
    var e := end + 1;
    if e < |s| && s[e] != '\n' {
      FwdNearest(s, e);
      var b := Fwd(s, e, 0);
      assert s[end + 1..b] == [s[e]] + s[e + 1..b];
    }
  }

  /**
   * With the default `lines = 0`, the text shown is the line holding
   * `match.index`: from the preceding line break (included) or the start of
   * the input, up to the next line break (excluded) or the end of the input.
   */
  lemma LineOfIndex(s: string, index: nat)
    requires index < |s|
    ensures var a := Back(s, index, 0);
      var b := Fwd(s, index, 0);
      && index < b <= |s|
      && (b < |s| ==> s[b] == '\n') && '\n' !in s[index + 1..b]
      && (a == -1 ==> Substring(s, a, b) == s[..b] && '\n' !in s[..index])
      && (a >= 0 ==> Substring(s, a, b) == s[a..b] && s[a] == '\n' && '\n' !in s[a + 1..index])
  {
    BackNearest(s, index);
    FwdNearest(s, index);
  }

  // ---------------------------------------------------------------- menus

  /** `nbtToString(nbt)` without its colouring: nothing for no NBT, long NBT cut to 49 characters and an ellipsis. */
  function NbtToString(nbt: string): (r: string)
    ensures r == [] <==> nbt == []
    ensures nbt != [] ==> r[0] == ' ' && |r| <= 51
    ensures 0 < |nbt| <= 50 ==> r[1..] == nbt
    ensures |nbt| > 50 ==> StartsWith(r[1..], nbt[..49]) && |r| == 51
  {
    if nbt == [] then ""
    else " " + (if |nbt| > 50 then nbt[..49] + "\U{2026}" else nbt)
  }

  /** How many items `itemArr.slice(0, end)` keeps: a negative `end` counts back from the length. */
  function SliceEnd(n: nat, end: int): (r: nat)
    ensures r <= n
    ensures end >= 0 ==> r == if end < n then end else n
    ensures end < 0 ==> r == if n + end > 0 then n + end else 0
  {
    if end >= 0 then (if end < n then end else n) else if n + end > 0 then n + end else 0
  }

  /** The rows `gridMenuBuilder` shows: the first `height - 8` labels, then a count of the rest. */
  function MenuRows(items: seq<DictEntry>, height: int, showRow: DictEntry -> string): (rows: seq<string>)
    ensures var shown := SliceEnd(|items|, height - 8);
      && |rows| == (if shown < |items| then shown + 1 else shown)
      && (forall i :: 0 <= i < shown ==> rows[i] == showRow(items[i]))
      && (shown < |items| ==> rows[shown] == "{and other " + NatToString(|items| - shown) + " variants}")
  {
    var shown := SliceEnd(|items|, height - 8);
    var trimmed := seq(shown, i requires 0 <= i < shown => showRow(items[i]));
    if shown < |items| then trimmed + ["{and other " + NatToString(|items| - shown) + " variants}"]
    else trimmed
  }

  /**
   * The grid menu: the row index the user selects is read straight from the
   * full list (`itemArr[selectedIndex]`), and cancelling gives `undefined`.
   */
  function GridMenu(items: seq<DictEntry>, height: int, showRow: DictEntry -> string, choose: seq<string> -> Option<nat>)
    : (r: Option<DictEntry>)
    ensures r.Some? <==> choose(MenuRows(items, height, showRow)).Some? && choose(MenuRows(items, height, showRow)).value < |items|
    ensures r.Some? ==> r.value == items[choose(MenuRows(items, height, showRow)).value] && r.value in items
  {
    match choose(MenuRows(items, height, showRow))
    case None => None
    case Some(i) => if i < |items| then Some(items[i]) else None
  }

  /** Selecting the "and other N variants" row picks the first item that was not shown. */
  lemma OtherVariantsRowPicksFirstHidden(items: seq<DictEntry>, height: int, showRow: DictEntry -> string, choose: seq<string> -> Option<nat>)
    requires SliceEnd(|items|, height - 8) < |items|
    requires choose(MenuRows(items, height, showRow)) == Some(SliceEnd(|items|, height - 8))
    ensures GridMenu(items, height, showRow, choose) == Some(items[SliceEnd(|items|, height - 8)])
    ensures MenuRows(items, height, showRow)[SliceEnd(|items|, height - 8)] != showRow(items[SliceEnd(|items|, height - 8)]) ||
      showRow(items[SliceEnd(|items|, height - 8)]) == "{and other " + NatToString(|items| - SliceEnd(|items|, height - 8)) + " variants}"
  {
  }

  datatype MenuKind = ByName | ByMod | ByMeta | AnyVariant

  /** `d.modid`: `DictEntry` has no such field, so it is `undefined` for every entry. */
  function ModId(e: DictEntry): Option<string> {
    None
  }

  /** `_.uniqBy(arr, key).length`: the number of distinct keys. */
  function UniqCount<K(==, !new)>(keys: seq<K>): nat {
    |FirstOccurrences(keys)|
  }

  lemma {:induction false} FirstOccurrencesShorter<K(!new)>(ks: seq<K>)
    ensures |FirstOccurrences(ks)| <= |ks|
  {
    if ks != [] {
      FirstOccurrencesShorter(ks[..|ks| - 1]);
    }
  }

  /** One entry per key is as many as there are entries exactly when the keys are distinct. */
  lemma {:induction false} UniqCountDistinct<K(!new)>(ks: seq<K>)
    ensures UniqCount(ks) == |ks| <==> Distinct(ks)
  {
    if ks != [] {
      var init := ks[..|ks| - 1];
      var last := ks[|ks| - 1];
      UniqCountDistinct(init);
      FirstOccurrencesShorter(init);
      assert ks == init + [last];
      if Distinct(ks) {
        assert Distinct(init);
        assert last !in init;
      }
      if UniqCount(ks) == |ks| {
        assert last !in FirstOccurrences(init);
        assert forall i :: 0 <= i < |init| ==> init[i] in init;
      }
    }
  }

  /** A list of equal keys has one distinct key. */
  lemma {:induction false} UniqCountConstant<K(!new)>(ks: seq<K>, k: K)
    requires ks != [] && forall i :: 0 <= i < |ks| ==> ks[i] == k
    ensures FirstOccurrences(ks) == [k]
  {
    var init := ks[..|ks| - 1];
    if init != [] {
      UniqCountConstant(init, k);
    }
  }

  /**
   * The menu `resolve` offers, first that applies: all names distinct; all
   * mods distinct (`countBy('modid')` all 1); one mod with distinct metas;
   * any variant.
   */
  function Kind(items: seq<DictEntry>): MenuKind {
    if UniqCount(KeySeq(items, (e: DictEntry) => e.name)) == |items| then ByName
    else if Distinct(KeySeq(items, ModId)) then ByMod
    else if UniqCount(KeySeq(items, ModId)) == 1 && Distinct(KeySeq(items, (e: DictEntry) => e.meta)) then ByMeta
    else AnyVariant
  }

  /**
   * As written, grouping by the missing `modid` puts every candidate in one
   * mod: the mod menu is never offered, and the meta menu is offered exactly
   * when names repeat and the metas are distinct.
   */
  lemma KindAsWritten(items: seq<DictEntry>)
    requires items != []
    ensures Kind(items) != ByMod
    ensures Kind(items) == ByName <==> Distinct(KeySeq(items, (e: DictEntry) => e.name))
    ensures Kind(items) == ByMeta <==>
      !Distinct(KeySeq(items, (e: DictEntry) => e.name)) && Distinct(KeySeq(items, (e: DictEntry) => e.meta))
  {
    var names := KeySeq(items, (e: DictEntry) => e.name);
    var mods := KeySeq(items, ModId);
    UniqCountDistinct(names);
    UniqCountConstant(mods, None);
    if |items| >= 2 {
      assert mods[0] == mods[1];
    } else {
      assert Distinct(names);
    }
  }

  function VariantLabel(d: DictEntry): string {
    "[" + d.name + "] <" + d.id + ":" + d.meta + ">" + NbtToString(d.sNbt)
  }

  /** The row text of each menu. */
  function Label(kind: MenuKind, d: DictEntry): string {
    match kind
    case ByName => "[" + d.name + "]"
    case ByMod => "(" + d.modname + ")"
    case ByMeta => "(" + d.meta + ")"
    case AnyVariant => VariantLabel(d)
  }

  // ---------------------------------------------------------------- resolve

  /** Whether a candidate's name is the capture, ignoring case. */
  predicate IsExactName(capture: string, e: DictEntry) {
    ToLower(e.name) == ToLower(capture)
  }

  /** The candidates `resolve` offers: the exact-name matches when there are two or more, otherwise all. */
  function Narrow(capture: string, full: seq<DictEntry>): (r: seq<DictEntry>)
    ensures SubSeq(r, full) && forall e :: e in r ==> e in full
    ensures |Keep(full, e => IsExactName(capture, e))| > 1 ==> forall e :: e in r ==> IsExactName(capture, e)
    ensures |Keep(full, e => IsExactName(capture, e))| <= 1 ==> r == full
  {
    var exact := Keep(full, e => IsExactName(capture, e));
    SubSeqRefl(full);
    if |exact| > 1 then exact else full
  }

  /** What `resolve` answers, and whether it records the capture as not found. */
  function ResolveOutcome(silent: bool, capture: string, full: seq<DictEntry>, height: int,
                          choose: seq<string> -> Option<nat>): (Option<DictEntry>, bool)
  {
    var items := Narrow(capture, full);
    if items == [] || silent then (None, true)
    else (GridMenu(items, height, d => Label(Kind(items), d), choose), false)
  }

  /**
   * `resolve` records the capture exactly when there is nothing to offer or
   * the run is silent, and then answers `undefined` without a menu; any
   * answer is one of the candidates, an exact-name match when two or more
   * candidates have the capture's name.
   */
  lemma ResolveSpec(silent: bool, capture: string, full: seq<DictEntry>, height: int, choose: seq<string> -> Option<nat>)
    ensures var (r, recorded) := ResolveOutcome(silent, capture, full, height, choose);
      && (recorded <==> full == [] || silent)
      && (recorded ==> r.None?)
      && (r.Some? ==> r.value in full)
      && (r.Some? && |Keep(full, e => IsExactName(capture, e))| > 1 ==> IsExactName(capture, r.value))
  {
  }

  // ---------------------------------------------------------------- print

  /** The longest length, the evident intent of `maxLen`. */
  function MaxLen(lens: seq<nat>): (r: nat)
    requires lens != []
    ensures r in lens && forall i :: 0 <= i < |lens| ==> lens[i] <= r
  {
    if |lens| == 1 then lens[0]
    else
      var m := MaxLen(lens[1..]);
      assert forall i :: 1 <= i < |lens| ==> lens[i] == lens[1..][i - 1];
      if lens[0] >= m then lens[0] else m
  }

  /** The order of `.sort()` without a comparator: numbers compared as decimal strings. */
  predicate DecimalLe(a: nat, b: nat) {
    LexLe(NatToString(a), NatToString(b))
  }

  /** `maxLen` as written: `.sort()` on the lengths, then `.pop()`. */
  function MaxLenAsWritten(lens: seq<nat>): nat
    requires lens != []
  {
    Sort(lens, DecimalLe)[|lens| - 1]
  }

  /**
   * The written `maxLen` is one of the lengths, and the greatest of them in
   * the decimal-string order `.sort()` uses (not in numeric order).
   */
  lemma MaxLenAsWrittenSpec(lens: seq<nat>)
    requires lens != []
    ensures MaxLenAsWritten(lens) in lens
    ensures forall i :: 0 <= i < |lens| ==> DecimalLe(lens[i], MaxLenAsWritten(lens))
  {
    var sorted := Sort(lens, DecimalLe);
    SortPermutes(lens, DecimalLe);
    assert sorted[|lens| - 1] in multiset(sorted);
    DecimalLeTotalPreorder();
    SortSorted(lens, DecimalLe);
    forall i | 0 <= i < |lens| ensures DecimalLe(lens[i], MaxLenAsWritten(lens)) {
      assert lens[i] in multiset(sorted);
      var j :| 0 <= j < |sorted| && sorted[j] == lens[i];
      if j < |lens| - 1 {
        assert DecimalLe(sorted[j], sorted[|lens| - 1]);
      } else {
        DecimalLeRefl(lens[i]);
      }
    }
  }

  lemma DecimalLeRefl(a: nat)
    ensures DecimalLe(a, a)
  {
    LexLeTotal(NatToString(a), NatToString(a));
  }

  /** `.sort()`'s order on numbers is a total preorder. */
  lemma DecimalLeTotalPreorder()
    ensures TotalPreorder(DecimalLe)
  {
    forall a, b ensures DecimalLe(a, b) || DecimalLe(b, a) {
      LexLeTotal(NatToString(a), NatToString(b));
    }
    forall a, b, c | DecimalLe(a, b) && DecimalLe(b, c) ensures DecimalLe(a, c) {
      LexLeTransitive(NatToString(a), NatToString(b), NatToString(c));
    }
  }

  /** Two captures of lengths 9 and 10: the written `maxLen` is 9, the longest is 10. */
  lemma MaxLenAsWrittenCounterexample()
    ensures MaxLenAsWritten([9, 10]) == 9
    ensures MaxLen([9, 10]) == 10
  {
    assert NatToString(9) == "9";
    assert NatToString(10) == NatToString(1) + [DigitChar(0)] == "10";
    assert !DecimalLe(9, 10);
    var ten: seq<nat> := [10];
    var both: seq<nat> := [9, 10];
    assert Sort(ten, DecimalLe) == ten by {
      assert ten[1..] == [];
    }
    assert Sort(both, DecimalLe) == Insert(Sort(ten, DecimalLe), 9, DecimalLe) by {
      assert both[1..] == ten;
    }
    assert Insert(ten, 9, DecimalLe) == ten + Insert([], 9, DecimalLe) by {
      assert ten[1..] == [];
    }
  }

  /** `x | 0`: the conversion of a non-negative integer to a signed 32-bit integer. */
  function ToInt32(n: nat): int {
    var m := n % 0x1_0000_0000;
    if m >= 0x8000_0000 then m - 0x1_0000_0000 else m
  }

  /**
   * `(width / (maxLen + 4)) | 0 || 1`. Without a terminal width
   * (`process.stdout.columns` is `undefined`) the quotient is `NaN`, which
   * `| 0` turns into 0.
   */
  function Columns(width: Option<nat>, maxLen: nat): int {
    match width
    case None => 1
    case Some(w) => var q := ToInt32(w / (maxLen + 4)); if q == 0 then 1 else q
  }

  /** For any realistic width the column count is the quotient, floored at 1. */
  lemma ColumnsFloor(w: nat, maxLen: nat)
    requires w < 0x8000_0000
    ensures Columns(Some(w), maxLen) == if w / (maxLen + 4) == 0 then 1 else w / (maxLen + 4)
    ensures Columns(Some(w), maxLen) >= 1
  {
  }

  /** `_.chunk(arr, size)`: no chunks for a size below 1. */
  function LodashChunk<T>(arr: seq<T>, size: int): seq<seq<T>> {
    if size < 1 then [] else Chunk.ChunkArray(arr, size).value
  }

  /** Each capture as a cell `[capture]`, padded to `maxLen`. */
  function Cells(unfounds: seq<string>, maxLen: nat): (r: seq<string>)
    ensures |r| == |unfounds|
    ensures forall i :: 0 <= i < |r| ==> r[i] == "[" + PadEnd(unfounds[i] + "]", maxLen)
  {
    seq(|unfounds|, i requires 0 <= i < |unfounds| => "[" + PadEnd(unfounds[i] + "]", maxLen))
  }

  function Lengths(ss: seq<string>): (r: seq<nat>)
    ensures |r| == |ss| && forall i :: 0 <= i < |ss| ==> r[i] == |ss[i]|
  {
    seq(|ss|, i requires 0 <= i < |ss| => |ss[i]|)
  }

  /** `_.chunk` with a positive size keeps every element, in order, in full rows but the last. */
  lemma LodashChunkLayout<T>(arr: seq<T>, size: int)
    requires size >= 1
    ensures var rows := LodashChunk(arr, size);
      && |rows| == Chunk.CeilDiv(|arr|, size)
      && Chunk.Flatten(rows) == arr
      && (forall i :: 0 <= i < |rows| - 1 ==> |rows[i]| == size)
      && (forall i :: 0 <= i < |rows| ==> 0 < |rows[i]| <= size)
  {
    Chunk.ChunksConcat(arr, size);
    Chunk.ChunkSizes(arr, size);
    var rows := LodashChunk(arr, size);
    forall i | 0 <= i < |rows| ensures 0 < |rows[i]| <= size {
      if i < |rows| - 1 {
        assert |rows[i]| == size;
      }
    }
  }

  /** The grid `print` lays the captures out in: rows of `columns` cells. */
  function Grid(unfounds: seq<string>, width: Option<nat>): seq<seq<string>>
    requires unfounds != []
  {
    var maxLen := MaxLenAsWritten(Lengths(unfounds));
    LodashChunk(Cells(unfounds, maxLen), Columns(width, maxLen))
  }

  /**
   * The grid holds every capture once, in the order they were recorded, in
   * ceil(n / columns) rows of `columns` cells, the last one possibly shorter.
   */
  lemma GridLayout(unfounds: seq<string>, width: Option<nat>)
    requires unfounds != []
    requires width.Some? ==> width.value < 0x8000_0000
    ensures var maxLen := MaxLenAsWritten(Lengths(unfounds));
      var cols := Columns(width, maxLen);
      var rows := Grid(unfounds, width);
      && cols >= 1
      && |rows| == Chunk.CeilDiv(|unfounds|, cols)
      && Chunk.Flatten(rows) == Cells(unfounds, maxLen)
      && (forall i :: 0 <= i < |rows| ==> 0 < |rows[i]| <= cols)
  {
    var maxLen := MaxLenAsWritten(Lengths(unfounds));
    if width.Some? {
      ColumnsFloor(width.value, maxLen);
    }
    LodashChunkLayout(Cells(unfounds, maxLen), Columns(width, maxLen));
  }

  /** The text `print` writes under its heading: the rows, cells joined by two spaces. */
  function PrintText(unfounds: seq<string>, width: Option<nat>): string
    requires unfounds != []
  {
    var rows := Grid(unfounds, width);
    JoinWith(seq(|rows|, i requires 0 <= i < |rows| => JoinWith(rows[i], "  ")), "\n") + "\n"
  }

  // ---------------------------------------------------------------- the class

  class Unclear {
    /** `argv.silent` */
    const silent: bool
    /** The captures that could not be resolved, in order. */
    var unfounds: seq<string>

    constructor (silent: bool)
      ensures this.silent == silent && unfounds == []
    {
      this.silent := silent;
      unfounds := [];
    }

    /** `cantBeFound`: appends the capture. */
    method CantBeFound(capture: string)
      modifies this
      ensures unfounds == old(unfounds) + [capture]
    {
      unfounds := unfounds + [capture];
    }

    /** `doYouMean`: nothing when silent, otherwise the generic menu; it records nothing. */
    method DoYouMean(capture: string, entries: seq<DictEntry>, height: int, choose: seq<string> -> Option<nat>)
      returns (r: Option<DictEntry>)
      ensures silent ==> r.None?
      ensures !silent ==> r == GridMenu(entries, height, VariantLabel, choose)
      ensures r.Some? ==> r.value in entries
    {
      if silent {
        return None;
      }
      r := GridMenu(entries, height, VariantLabel, choose);
    }

    /** `resolve(capture, full_itemArr, match)` */
    method Resolve(capture: string, full: seq<DictEntry>, height: int, choose: seq<string> -> Option<nat>)
      returns (r: Option<DictEntry>)
      modifies this
      ensures r == ResolveOutcome(silent, capture, full, height, choose).0
      ensures unfounds == old(unfounds) + if ResolveOutcome(silent, capture, full, height, choose).1 then [capture] else []
    {
      var exact := Keep(full, e => IsExactName(capture, e));
      var items := if |exact| > 1 then exact else full;
      if items == [] || silent {
        CantBeFound(capture);
        return None;
      }
      var kind := Kind(items);
      r := GridMenu(items, height, d => Label(kind, d), choose);
    }

    /** `print()`: nothing when silent or when every capture was resolved. */
    function Print(width: Option<nat>): (r: Option<string>)
      reads this
      ensures r.None? <==> silent || unfounds == []
    {
      if silent || unfounds == [] then None else Some(PrintText(unfounds, width))
    }
  }
}
