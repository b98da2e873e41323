/**
 * `baseFromID` (src/base.ts): an item id `source:entry:meta:sNbt` split at `:`.
 * The first three pieces are single split pieces; everything after the third
 * `:` is the sNbt, whose own `:` are kept.
 */
module Base {
  import opened Wrappers
  import opened Text

  datatype Base = Base(source: string, entry: Option<string>, meta: Option<string>, sNbt: Option<string>)

  function At(parts: seq<string>, i: nat): Option<string> {
    if i < |parts| then Some(parts[i]) else None
  }

  function BaseFromId(id: string): (r: Base)
    ensures r.entry.None? <==> Count(id, ':') == 0
    ensures r.meta.None? <==> Count(id, ':') < 2
    ensures r.sNbt.None? <==> Count(id, ':') < 3
    ensures ':' !in r.source && ':' !in r.entry.GetOr("") && ':' !in r.meta.GetOr("")
    ensures StartsWith(id, r.source) && (|r.source| < |id| ==> id[|r.source|] == ':')
  {
    var parts := Split(id, ':');
    SplitPieces(id, ':');
    SplitHead(id, ':');
    Base(parts[0], At(parts, 1), At(parts, 2),
      if |parts| > 3 then Some(Join(parts[3..], ':')) else None)
  }

  lemma JoinFront(parts: seq<string>, c: char)
    requires |parts| >= 2
    ensures Join(parts, c) == parts[0] + [c] + Join(parts[1..], c)
  {
  }

  /** With at least three `:`, joining the four parts with `:` gives back the id. */
  lemma BaseRoundTrip(id: string)
    requires Count(id, ':') >= 3
    ensures var b := BaseFromId(id);
      b.entry.Some? && b.meta.Some? && b.sNbt.Some? &&
      b.source + ":" + b.entry.value + ":" + b.meta.value + ":" + b.sNbt.value == id
  {
    var parts := Split(id, ':');
    SplitPieces(id, ':');
    SplitJoin(id, ':');
    JoinFront(parts, ':');
    JoinFront(parts[1..], ':');
    JoinFront(parts[2..], ':');
    assert parts[1..][1..] == parts[2..];
    assert parts[2..][1..] == parts[3..];
  }

  /** The sNbt keeps every `:` after the third one: it is the rest of the id. */
  lemma SNbtIsRest(id: string)
    requires Count(id, ':') >= 3
    ensures var b := BaseFromId(id);
      b.sNbt.Some? && EndsWith(id, b.sNbt.value) &&
      |b.source| + |b.entry.value| + |b.meta.value| + 3 + |b.sNbt.value| == |id|
  {
    BaseRoundTrip(id);
  }
}
