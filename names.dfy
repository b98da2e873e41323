/**
 * `generateNames` of src/tool/names.ts: the names file built from the parsed
 * CraftTweaker log, one JSON array per line: a header per mod, then one line
 * per item.
 */
module Names {
  import opened Wrappers
  import opened Text
  import opened Lists
  import opened JsObject

  /** One entry of a mod's list in the log: `[display, stack, snbt?, burnTime?]`. */
  datatype RawItem = RawItem(display: string, stack: string, snbt: Option<string>)

  /** An element of a line's array: a string or a number. */
  datatype Field = Str(s: string) | Num(n: int)

  /** Displays of this prefix are left out. */
  const FacadePrefix: string := "Cable Facade - "

  // ---------------------------------------------------------------- colour codes

  /** The two characters `ยง` that the UTF-8 section sign `§` reads as in a Thai code page. */
  const CodeLead: char := 'ย'
  const CodeSign: char := 'ง'

  /** `display.replace(/ยง./g, '')`: every `ยง` with the character after it, other than a line terminator, removed, left to right. */
  function StripColor(s: string): (r: string)
    ensures |r| <= |s|
  {
    if |s| >= 3 && s[0] == CodeLead && s[1] == CodeSign && !IsLineTerminator(s[2]) then StripColor(s[3..])
    else if s == [] then []
    else [s[0]] + StripColor(s[1..])
  }

  /** Stripping only removes characters: the rest keep their order. */
  lemma {:induction false} StripColorSubSeq(s: string)
    ensures SubSeq(StripColor(s), s)
  {
    if |s| >= 3 && s[0] == CodeLead && s[1] == CodeSign && !IsLineTerminator(s[2]) {
      StripColorSubSeq(s[3..]);
      SubSeqDrop(StripColor(s[3..]), s, 3);
    } else if s != [] {
      StripColorSubSeq(s[1..]);
      assert ([s[0]] + StripColor(s[1..]))[1..] == StripColor(s[1..]);
    } else {
    }
  }

  /** A subsequence of a suffix is a subsequence of the whole. */
  lemma {:induction false} SubSeqDrop(a: string, s: string, n: nat)
    requires n <= |s| && SubSeq(a, s[n..])
    ensures SubSeq(a, s)
    decreases n
  {
    if n > 0 {
      assert s[1..][n - 1..] == s[n..];
      SubSeqDrop(a, s[1..], n - 1);
    }
  }

  /** A name with no `ย` is left as it is. */
  lemma {:induction false} StripColorPlain(s: string)
    requires CodeLead !in s
    ensures StripColor(s) == s
  {
    if s != [] {
      assert s[0] != CodeLead;
      assert CodeLead !in s[1..];
      StripColorPlain(s[1..]);
    }
  }

  /**
   * One pass can leave a code behind: in `ยยงxงc` it removes `ยงx` and
   * joins the first `ย` with `งc` into a new code.
   */
  lemma StripColorOnePass()
    ensures var s := [CodeLead, CodeLead, CodeSign, 'x', CodeSign, 'c'];
      StripColor(s) == [CodeLead, CodeSign, 'c'] && StripColor(StripColor(s)) == []
  {
    var s := [CodeLead, CodeLead, CodeSign, 'x', CodeSign, 'c'];
    assert StripColor(s[3..][1..][1..]) == ['c'];
    assert StripColor(s[1..]) == StripColor(s[4..]);
  }

  // ---------------------------------------------------------------- item lines

  /** `snbt && snbt !== '{}'` */
  predicate HasNbt(it: RawItem) {
    it.snbt.Some? && it.snbt.value != "" && it.snbt.value != "{}"
  }

  predicate IsFacade(it: RawItem) {
    StartsWith(it.display, FacadePrefix)
  }

  /** The array of one item, or `undefined` for a facade. */
  function ItemLine(it: RawItem): Option<seq<Field>> {
    if IsFacade(it) then None
    else
      var parts := Split(it.stack, ':');
      var id := if |parts| > 1 then parts[1] else "undefined";
      var head := [Str(StripColor(it.display)), Str(parts[0] + ":" + id)];
      var meta := if |parts| > 2 then Some(parts[2]) else None;
      var withMeta :=
        if (meta.Some? && meta.value != "") || HasNbt(it) then head + [if meta.Some? then Str(meta.value) else Num(0)]
        else head;
      Some(if HasNbt(it) then withMeta + [Str(it.snbt.value)] else withMeta)
  }

  /**
   * The fields of an item's line, in order: the display without colour codes,
   * `mod:id` (the stack's text before its first `:`, then `:`, then the
   * piece after that), then `meta ?? 0` when the meta piece is non-empty or
   * there is NBT other than `{}`, then the snbt when there is such NBT.
   */
  lemma ItemLineFields(it: RawItem)
    ensures ItemLine(it).None? <==> IsFacade(it)
    ensures ItemLine(it).Some? ==>
      var line := ItemLine(it).value;
      var parts := Split(it.stack, ':');
      var hasMeta := |parts| > 2 && parts[2] != "";
      && |line| == 2 + (if hasMeta || HasNbt(it) then 1 else 0) + (if HasNbt(it) then 1 else 0)
      && line[0] == Str(StripColor(it.display))
      && line[1].Str? && StartsWith(line[1].s, parts[0] + ":")
      && StartsWith(it.stack, parts[0]) && ':' !in parts[0]
      && (hasMeta ==> line[2] == Str(parts[2]))
      && (!hasMeta && HasNbt(it) ==> line[2] == if |parts| > 2 then Str("") else Num(0))
      && (HasNbt(it) ==> line[|line| - 1] == Str(it.snbt.value))
  {
    SplitHead(it.stack, ':');
    SplitPieces(it.stack, ':');
  }

  /** `.map(...).filter()` over all the items. */
  function ItemLines(items: seq<RawItem>): (r: seq<seq<Field>>)
    ensures |r| <= |items|
  {
    if items == [] then []
    else
      var rest := ItemLines(items[1..]);
      match ItemLine(items[0])
      case None => rest
      case Some(line) => [line] + rest
  }

  /** Item lines are the lines of the items that are not facades, in their order. */
  lemma {:induction false} ItemLinesOfKept(items: seq<RawItem>)
    ensures var kept := Keep(items, (it: RawItem) => !IsFacade(it));
      && |ItemLines(items)| == |kept|
      && forall k :: 0 <= k < |kept| ==> ItemLine(kept[k]) == Some(ItemLines(items)[k])
  {
    if items != [] {
      ItemLinesOfKept(items[1..]);
      var kept := Keep(items, (it: RawItem) => !IsFacade(it));
      var rest := Keep(items[1..], (it: RawItem) => !IsFacade(it));
      if !IsFacade(items[0]) {
        assert kept == [items[0]] + rest;
      }
    }
  }

  /** `_(modMap).values().flatten()` */
  function Flatten(lists: seq<seq<RawItem>>): (r: seq<RawItem>) {
    if lists == [] then [] else lists[0] + Flatten(lists[1..])
  }

  // ---------------------------------------------------------------- headers and output

  /** Every mod has at least one item: the header's `[[, id]]` needs one. */
  predicate AllListed(modMap: Obj<seq<RawItem>>) {
    forall k :: k in modMap.keys ==> modMap.vals[k] != []
  }

  /** `[modName, id.split(':')[0]]` for each mod, in key order. */
  function Headers(modMap: Obj<seq<RawItem>>): seq<seq<Field>>
    requires AllListed(modMap)
  {
    seq(|modMap.keys|, k requires 0 <= k < |modMap.keys| =>
      [Str(modMap.keys[k]), Str(Split(modMap.vals[modMap.keys[k]][0].stack, ':')[0])])
  }

  /** The lines: the headers unshifted before the item lines. */
  function NameLines(modMap: Obj<seq<RawItem>>): seq<seq<Field>>
    requires AllListed(modMap)
  {
    Headers(modMap) + ItemLines(Flatten(Values(modMap)))
  }

  /** `JSON.stringify(arr)`, with the quoting of a string given as `quote`. */
  function RenderLine(line: seq<Field>, quote: string -> string): string {
    "[" + JoinWith(seq(|line|, k requires 0 <= k < |line| => RenderField(line[k], quote)), ",") + "]"
  }

  function RenderField(f: Field, quote: string -> string): string {
    match f
    case Str(s) => quote(s)
    case Num(n) => IntToString(n)
  }

  /** `` `[\n${lines.join(',\n')}\n]` `` */
  function NamesText(lines: seq<string>): string {
    "[\n" + JoinWith(lines, ",\n") + "\n]"
  }

  /** `generateNames`, after `JSON.parse(ctLog)?.all_items` gave `allItems`. */
  function GenerateNames(allItems: Option<Obj<seq<RawItem>>>, quote: string -> string): Result<string> {
    if allItems.None? then Err("something wrong with parseCrafttweakerLog_raw")
    else if !AllListed(allItems.value) then Err("undefined is not iterable")
    else
      var lines := NameLines(allItems.value);
      Ok(NamesText(seq(|lines|, k requires 0 <= k < |lines| => RenderLine(lines[k], quote))))
  }

  /** It throws exactly when the log has no `all_items`, or a mod with no items. */
  lemma GenerateNamesThrows(allItems: Option<Obj<seq<RawItem>>>, quote: string -> string)
    ensures GenerateNames(allItems, quote).Err? <==>
      allItems.None? || exists k :: k in allItems.value.keys && allItems.value.vals[k] == []
    ensures allItems.None? ==> GenerateNames(allItems, quote).msg == "something wrong with parseCrafttweakerLog_raw"
  {
  }

  /**
   * One header per mod comes first, in key order: the mod's name and the
   * namespace of its first item's stack (its text before the first `:`);
   * the item lines follow.
   */
  lemma HeadersFirst(modMap: Obj<seq<RawItem>>)
    requires AllListed(modMap)
    ensures var lines := NameLines(modMap);
      && |lines| == |modMap.keys| + |ItemLines(Flatten(Values(modMap)))|
      && lines[|modMap.keys|..] == ItemLines(Flatten(Values(modMap)))
      && forall k :: 0 <= k < |modMap.keys| ==>
           var stack := modMap.vals[modMap.keys[k]][0].stack;
           && |lines[k]| == 2 && lines[k][0] == Str(modMap.keys[k]) && lines[k][1].Str?
           && StartsWith(stack, lines[k][1].s) && ':' !in lines[k][1].s
           && (|lines[k][1].s| < |stack| ==> stack[|lines[k][1].s|] == ':')
  {
    var lines := NameLines(modMap);
    assert lines[|modMap.keys|..] == ItemLines(Flatten(Values(modMap)));
    forall k | 0 <= k < |modMap.keys|
      ensures var stack := modMap.vals[modMap.keys[k]][0].stack;
        && |lines[k]| == 2 && lines[k][0] == Str(modMap.keys[k]) && lines[k][1].Str?
        && StartsWith(stack, lines[k][1].s) && ':' !in lines[k][1].s
        && (|lines[k][1].s| < |stack| ==> stack[|lines[k][1].s|] == ':')
    {
      var stack := modMap.vals[modMap.keys[k]][0].stack;
      SplitHead(stack, ':');
      SplitPieces(stack, ':');
    }
  }

  /** Occurrences add up over a concatenation. */
  lemma {:induction false} CountAppend(a: string, b: string, c: char)
    ensures Count(a + b, c) == Count(a, c) + Count(b, c)
  {
    if a != [] {
      CountAppend(a[1..], b, c);
      assert (a + b)[1..] == a[1..] + b;
    } else {
      assert a + b == b;
    }
  }

  /** Lines without a newline of their own each take one line of the output, between `[` and `]`. */
  lemma {:induction false} NamesTextLines(lines: seq<string>)
    requires forall k :: 0 <= k < |lines| ==> Count(lines[k], '\n') == 0
    ensures Count(NamesText(lines), '\n') == if lines == [] then 2 else |lines| + 1
  {
    JoinedLines(lines);
    CountAppend("[\n" + JoinWith(lines, ",\n"), "\n]", '\n');
    CountAppend("[\n", JoinWith(lines, ",\n"), '\n');
  }

  lemma {:induction false} JoinedLines(lines: seq<string>)
    requires forall k :: 0 <= k < |lines| ==> Count(lines[k], '\n') == 0
    ensures Count(JoinWith(lines, ",\n"), '\n') == if lines == [] then 0 else |lines| - 1
  {
    if |lines| > 1 {
      JoinedLines(lines[1..]);
      CountAppend(lines[0] + ",\n", JoinWith(lines[1..], ",\n"), '\n');
      CountAppend(lines[0], ",\n", '\n');
    }
  }

  /** A string with no newline, for every `s`: `JSON.stringify` escapes newlines. */
  ghost predicate OneLineQuote(quote: string -> string) {
    forall s :: Count(quote(s), '\n') == 0
  }

  /** A run of digits has no newline. */
  lemma {:induction false} DigitsOneLine(d: string)
    requires AllDigits(d)
    ensures Count(d, '\n') == 0
  {
    if d != [] {
      assert AllDigits(d[1..]);
      DigitsOneLine(d[1..]);
    }
  }

  /** Joining newline-free parts with `,` gives no newline. */
  lemma {:induction false} JoinOneLine(parts: seq<string>)
    requires forall k :: 0 <= k < |parts| ==> Count(parts[k], '\n') == 0
    ensures Count(JoinWith(parts, ","), '\n') == 0
  {
    if |parts| > 1 {
      JoinOneLine(parts[1..]);
      CountAppend(parts[0] + ",", JoinWith(parts[1..], ","), '\n');
      CountAppend(parts[0], ",", '\n');
    }
  }

  /** A rendered line is one line of text. */
  lemma RenderLineOneLine(line: seq<Field>, quote: string -> string)
    requires OneLineQuote(quote)
    ensures Count(RenderLine(line, quote), '\n') == 0
  {
    var parts := seq(|line|, k requires 0 <= k < |line| => RenderField(line[k], quote));
    forall k | 0 <= k < |parts|
      ensures Count(parts[k], '\n') == 0
    {
      if line[k].Num? {
        var n := line[k].n;
        if n < 0 {
          DigitsOneLine(NatToString(-n));
          CountAppend("-", NatToString(-n), '\n');
        } else {
          DigitsOneLine(NatToString(n));
        }
      }
    }
    JoinOneLine(parts);
    CountAppend("[" + JoinWith(parts, ","), "]", '\n');
    CountAppend("[", JoinWith(parts, ","), '\n');
  }

  /**
   * The names file has a line of its own for every header and every item
   * line, between the opening `[` and the closing `]`.
   */
  lemma GenerateNamesLineCount(modMap: Obj<seq<RawItem>>, quote: string -> string)
    requires OneLineQuote(quote) && AllListed(modMap)
    ensures GenerateNames(Some(modMap), quote).Ok?
    ensures var n := |NameLines(modMap)|;
      Count(GenerateNames(Some(modMap), quote).value, '\n') == if n == 0 then 2 else n + 1
  {
    var lines := NameLines(modMap);
    var rendered := seq(|lines|, k requires 0 <= k < |lines| => RenderLine(lines[k], quote));
    forall k | 0 <= k < |rendered|
      ensures Count(rendered[k], '\n') == 0
    {
      RenderLineOneLine(lines[k], quote);
    }
    NamesTextLines(rendered);
  }
}
