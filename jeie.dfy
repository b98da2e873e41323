/**
 * src/tool/jeie.ts: the item an exported icon file stands for. Without a
 * configured source the file name is parsed by
 * `/(?<source>.+?)__(?<entry>.+?)__(?<meta>\d+)(__(?<hash>.+))?/`, searched
 * anywhere in the name; the functions below follow that expression's search
 * order: the leftmost start, the shortest source, the shortest entry, the
 * longest digit run, then the optional hash taking the rest of the line.
 */
module Jeie {
  import opened Wrappers
  import opened Text
  import Images

  /** `__` followed by a digit at position `j`. */
  predicate MetaAt(s: string, j: nat) {
    j + 2 < |s| && s[j] == '_' && s[j + 1] == '_' && IsDigit(s[j + 2])
  }

  /** `(?<entry>.+?)__\d` can take `s[e0..j]` as the entry. */
  predicate EntryOk(s: string, e0: nat, j: nat) {
    e0 < j <= |s| && NoBreak(s, e0, j) && MetaAt(s, j)
  }

  /** The lazy entry, tried from length `j - e0` upwards. */
  function EntryFrom(s: string, e0: nat, j: nat): (r: Option<nat>)
    requires e0 < j <= |s| && NoBreak(s, e0, j)
    ensures r.Some? ==> j <= r.value && EntryOk(s, e0, r.value)
    ensures r.Some? ==> forall j' :: j <= j' < r.value ==> !EntryOk(s, e0, j')
    ensures r.None? ==> forall j' :: j <= j' ==> !EntryOk(s, e0, j')
    decreases |s| - j
  {
    if MetaAt(s, j) then Some(j)
    else if j < |s| && !IsLineTerminator(s[j]) then EntryFrom(s, e0, j + 1)
    else None
  }

  /** The shortest entry starting at `e0`, if any. */
  function EntryStart(s: string, e0: nat): (r: Option<nat>)
    ensures r.Some? ==> EntryOk(s, e0, r.value) && forall j': nat :: j' < r.value ==> !EntryOk(s, e0, j')
    ensures r.None? ==> forall j': nat :: !EntryOk(s, e0, j')
  {
    if e0 < |s| && !IsLineTerminator(s[e0]) then EntryFrom(s, e0, e0 + 1) else None
  }

  /** `(?<source>.+?)__` can take `s[p..i]` as the source, with an entry after it. */
  predicate SourceOk(s: string, p: nat, i: nat) {
    p < i && i + 2 <= |s| && NoBreak(s, p, i) && s[i] == '_' && s[i + 1] == '_' && EntryStart(s, i + 2).Some?
  }

  /** The lazy source, tried from length `i - p` upwards. */
  function SourceFrom(s: string, p: nat, i: nat): (r: Option<nat>)
    requires p < i <= |s| && NoBreak(s, p, i)
    ensures r.Some? ==> i <= r.value && SourceOk(s, p, r.value)
    ensures r.Some? ==> forall i' :: i <= i' < r.value ==> !SourceOk(s, p, i')
    ensures r.None? ==> forall i' :: i <= i' ==> !SourceOk(s, p, i')
    decreases |s| - i
  {
    if i + 2 <= |s| && s[i] == '_' && s[i + 1] == '_' && EntryStart(s, i + 2).Some? then Some(i)
    else if i < |s| && !IsLineTerminator(s[i]) then SourceFrom(s, p, i + 1)
    else None
  }

  /** The shortest source starting at `p`, if any. */
  function SourceStart(s: string, p: nat): (r: Option<nat>)
    ensures r.Some? ==> SourceOk(s, p, r.value) && forall i': nat :: i' < r.value ==> !SourceOk(s, p, i')
    ensures r.None? ==> forall i': nat :: !SourceOk(s, p, i')
  {
    if p < |s| && !IsLineTerminator(s[p]) then SourceFrom(s, p, p + 1) else None
  }

  /** The leftmost start at or after `p` where the expression matches. */
  function MatchFrom(s: string, p: nat): (r: Option<nat>)
    ensures r.Some? ==> p <= r.value && SourceStart(s, r.value).Some?
    ensures r.Some? ==> forall p' :: p <= p' < r.value ==> SourceStart(s, p').None?
    ensures r.None? ==> forall p' :: p <= p' ==> SourceStart(s, p').None?
    decreases |s| - p
  {
    if p >= |s| then None
    else if SourceStart(s, p).Some? then Some(p)
    else MatchFrom(s, p + 1)
  }

  /** The name parts: `meta` is `Number(groups.meta) || 0`. */
  datatype JeieName = JeieName(source: string, entry: string, meta: nat, nbtHash: Option<string>)

  /** The optional `(__(?<hash>.+))?` after the digits ending at `d`. */
  function HashAt(s: string, d: nat): Option<string>
    requires d <= |s|
  {
    if d + 2 < |s| && s[d] == '_' && s[d + 1] == '_' && !IsLineTerminator(s[d + 2]) then Some(s[d + 2..LineEnd(s, d + 2)])
    else None
  }

  /** Where the match starts, where its source ends and where its entry ends. */
  function Parts(s: string): (nat, nat, nat)
    requires MatchFrom(s, 0).Some?
  {
    var p := MatchFrom(s, 0).value;
    var i := SourceStart(s, p).value;
    (p, i, EntryStart(s, i + 2).value)
  }

  /** The name parts of the match ending its entry at `j`. */
  function NameAt(s: string, p: nat, i: nat, j: nat): JeieName
    requires p <= i && i + 2 <= j && j + 2 <= |s|
  {
    var d := DigitsEnd(s, j + 2);
    JeieName(s[p..i], s[i + 2..j], DigitsValue(s[j + 2..d]), HashAt(s, d))
  }

  /** The message `parseJEIEName` throws. */
  function ParseError(fileName: string): string {
    "File Name cannot be parsed: " + fileName
  }

  /** `parseJEIEName(fileName)` */
  function ParseJeieName(fileName: string): Result<JeieName> {
    if MatchFrom(fileName, 0).None? then Err(ParseError(fileName))
    else
      var (p, i, j) := Parts(fileName);
      Ok(NameAt(fileName, p, i, j))
  }

  /**
   * The shape the expression looks for: `s[p..i]`, `__`, `s[i + 2..j]`, `__`
   * and a digit, the two parts non-empty and without line breaks.
   */
  predicate Shape(s: string, p: nat, i: nat, j: nat) {
    && p < i && EntryOk(s, i + 2, j) && NoBreak(s, p, i)
    && s[i] == '_' && s[i + 1] == '_'
  }

  /** `parseJEIEName` throws exactly when the name has no `source__entry__digits` shape anywhere. */
  lemma ParseThrowsIffNoShape(s: string)
    ensures ParseJeieName(s).Err? <==> forall p: nat, i: nat, j: nat :: !Shape(s, p, i, j)
  {
    if ParseJeieName(s).Ok? {
      ParseSound(s);
    } else {
      forall p: nat, i: nat, j: nat | Shape(s, p, i, j)
        ensures false
      {
        ShapeMatches(s, p, i, j);
      }
    }
  }

  /** A shape at `p` with source end `i` makes `p` a start of a match with a source at most that long. */
  lemma ShapeMatches(s: string, p: nat, i: nat, j: nat)
    requires Shape(s, p, i, j)
    ensures SourceOk(s, p, i) && SourceStart(s, p).Some? && MatchFrom(s, 0).Some?
  {
    assert EntryStart(s, i + 2).Some?;
    assert SourceOk(s, p, i);
    assert SourceStart(s, p).None? ==> !SourceOk(s, p, i);
    assert MatchFrom(s, 0).None? ==> SourceStart(s, p).None?;
  }

  /**
   * A parsed name is a shape of the name: the source and the entry are the
   * parts before the first and the second `__`, and neither is empty.
   */
  lemma ParseSound(s: string)
    requires ParseJeieName(s).Ok?
    ensures var (p, i, j) := Parts(s);
      && Shape(s, p, i, j)
      && ParseJeieName(s).value.source == s[p..i] && ParseJeieName(s).value.entry == s[i + 2..j]
  {
  }

  /**
   * The match is the expression's: it starts as far left as possible, its
   * source is the shortest that allows a match there, and its entry the
   * shortest after that source (so the entry may contain `__`).
   */
  lemma ParseLeftmostLazy(s: string)
    requires ParseJeieName(s).Ok?
    ensures var (p, i, j) := Parts(s);
      && (forall p': nat, i': nat, j': nat :: p' < p ==> !Shape(s, p', i', j'))
      && (forall i': nat, j': nat :: i' < i ==> !Shape(s, p, i', j'))
      && (forall j': nat :: j' < j ==> !Shape(s, p, i, j'))
  {
    var (p, i, j) := Parts(s);
    forall p': nat, i': nat, j': nat | p' < p
      ensures !Shape(s, p', i', j')
    {
      if Shape(s, p', i', j') {
        ShapeMatches(s, p', i', j');
      }
    }
    forall i': nat, j': nat | i' < i
      ensures !Shape(s, p, i', j')
    {
      if Shape(s, p, i', j') {
        ShapeMatches(s, p, i', j');
      }
    }
  }

  /**
   * The meta is the value of the longest digit run after the entry, and the
   * hash is present exactly when `__` and a character other than a line
   * terminator follow that run; it then runs to the end of the line.
   */
  lemma ParseMetaHash(s: string)
    requires ParseJeieName(s).Ok?
    ensures var (p, i, j) := Parts(s); ParseJeieName(s).value == NameAt(s, p, i, j) && MetaAt(s, j)
  {
    var (p, i, j) := Parts(s);
    assert EntryOk(s, i + 2, j);
  }

  /** The meta and the hash read after an entry ending at `j`. */
  lemma NameAtMetaHash(s: string, p: nat, i: nat, j: nat)
    requires p <= i && i + 2 <= j && MetaAt(s, j)
    ensures var d := DigitsEnd(s, j + 2);
      var r := NameAt(s, p, i, j);
      && j + 2 < d && r.meta == DigitsValue(s[j + 2..d]) && (d < |s| ==> !IsDigit(s[d]))
      && (r.nbtHash.Some? <==> d + 2 < |s| && s[d] == '_' && s[d + 1] == '_' && !IsLineTerminator(s[d + 2]))
      && (r.nbtHash.Some? ==> var e := LineEnd(s, d + 2); r.nbtHash.value == s[d + 2..e] && (e < |s| ==> IsLineTerminator(s[e])))
  {
  }

  // ---------------------------------------------------------------- getBase

  /** What `getBase` contributes besides the file's path and name. */
  datatype JeieBase = JeieBase(source: string, entry: string, meta: Option<nat>, nbtHash: Option<string>, skipSubstr: bool)

  /**
   * `getBase(file)` for a subfolder configured with `source` and
   * `entry_filter` (the filter's `replace` given as a function): a configured
   * source skips parsing.
   */
  function GetBase(file: string, source: Option<string>, entryFilter: Option<string -> string>): (r: Result<JeieBase>)
    ensures source.Some? && source.value != "" ==> r.Ok? && r.value.skipSubstr && r.value.source == source.value
    ensures source.None? || source.value == "" ==>
      (r.Ok? <==> ParseJeieName(Images.DropPng(file)).Ok?) && (r.Ok? ==> !r.value.skipSubstr)
  {
    var name := Images.DropPng(file);
    if source.Some? && source.value != "" then
      Ok(JeieBase(source.value, if entryFilter.None? then name else entryFilter.value(name), None, None, true))
    else
      match ParseJeieName(name)
      case Err(msg) => Err(msg)
      case Ok(n) => Ok(JeieBase(n.source, n.entry, Some(n.meta), n.nbtHash, false))
  }

  /**
   * A file `source__rest.png` that parses from its first character keeps
   * `rest.png` as its destination name: `fileName.substring(source.length + 2)`
   * drops exactly the source and its separator.
   */
  lemma DestNameOfParsed(file: string)
    requires ParseJeieName(Images.DropPng(file)).Ok? && MatchFrom(Images.DropPng(file), 0) == Some(0)
    ensures var b := GetBase(file, None, None).value;
      && StartsWith(file, b.source + "__")
      && Images.DestFileName(file, b.source, b.skipSubstr) == file[|b.source| + 2..]
  {
    var name := Images.DropPng(file);
    var (_, i, _) := Parts(name);
    var b := GetBase(file, None, None).value;
    assert b.source == name[0..i];
    assert name[..i + 2] == file[..i + 2];
    assert file == b.source + "__" + file[i + 2..];
    Images.DestFileNameDropsSource(b.source, file[i + 2..]);
  }
}
