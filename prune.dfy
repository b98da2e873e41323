/**
 * `prune` of src/tool/prune.ts: in each image directory, the images are
 * grouped by item id (every NBT variant of one item in one group), and the
 * groups of at least 1000 images are unlinked. The ids are read with
 * `/i\/(?<id>[^/]+\/.+?__\d+)__(?<nbtHash>[a-z\d]+).png/`; the functions
 * below follow that expression's search order.
 */
module Prune {
  import opened Wrappers
  import opened Text
  import opened Lists
  import JsMap
  import Chunk

  // ---------------------------------------------------------------- the id expression

  /** The first `/` at or after `k`. */
  function SlashFrom(s: string, k: nat): (r: Option<nat>)
    requires k <= |s|
    ensures r.Some? ==> k <= r.value < |s| && s[r.value] == '/'
    ensures r.Some? ==> forall x :: k <= x < r.value ==> s[x] != '/'
    ensures r.None? ==> forall x :: k <= x < |s| ==> s[x] != '/'
    decreases |s| - k
  {
    if k == |s| then None else if s[k] == '/' then Some(k) else SlashFrom(s, k + 1)
  }

  /** `[a-z\d]` */
  predicate HashChar(c: char) {
    IsLower(c) || IsDigit(c)
  }

  /** The end of the run of hash characters from `k`. */
  function HashEnd(s: string, k: nat): (e: nat)
    requires k <= |s|
    ensures k <= e <= |s| && (forall x :: k <= x < e ==> HashChar(s[x])) && (e < |s| ==> !HashChar(s[e]))
    decreases |s| - k
  {
    if k < |s| && HashChar(s[k]) then HashEnd(s, k + 1) else k
  }

  /** `.png` at `h`: its `.` is unescaped and takes any character but a line terminator. */
  predicate PngAt(s: string, h: nat) {
    h + 4 <= |s| && !IsLineTerminator(s[h]) && s[h + 1] == 'p' && s[h + 2] == 'n' && s[h + 3] == 'g'
  }

  /** The hash run tried from `s[k..h]` downwards, giving back one character at a time until `.png` follows. */
  predicate HashBack(s: string, k: nat, h: nat)
    decreases h
  {
    h > k && (PngAt(s, h) || HashBack(s, k, h - 1))
  }

  /** `(?<nbtHash>[a-z\d]+).png` matches at `k`. */
  predicate HashOk(s: string, k: nat)
    requires k <= |s|
  {
    HashBack(s, k, HashEnd(s, k))
  }

  /** The backtracking hash matches exactly when some non-empty prefix of the hash run is followed by `.png`. */
  lemma {:induction false} HashBackSpec(s: string, k: nat, h: nat)
    ensures HashBack(s, k, h) <==> exists h' :: k < h' <= h && PngAt(s, h')
    decreases h
  {
    if h > k {
      HashBackSpec(s, k, h - 1);
    }
  }

  /** `__\d+__(?<nbtHash>[a-z\d]+).png` matches at `m`; a shorter digit run cannot be followed by `_`. */
  predicate TailOk(s: string, m: nat) {
    && m + 2 < |s| && s[m] == '_' && s[m + 1] == '_' && IsDigit(s[m + 2])
    && var d := DigitsEnd(s, m + 2);
       d + 2 <= |s| && s[d] == '_' && s[d + 1] == '_' && HashOk(s, d + 2)
  }

  /** The first position in `[p, hi)` where `ok` holds. */
  function FirstFrom(p: nat, hi: nat, ok: nat -> bool): (r: Option<nat>)
    ensures r.Some? ==> p <= r.value < hi && ok(r.value)
    ensures r.Some? ==> forall q :: p <= q < r.value ==> !ok(q)
    ensures r.None? ==> forall q :: p <= q < hi ==> !ok(q)
    decreases hi - p
  {
    if p >= hi then None else if ok(p) then Some(p) else FirstFrom(p + 1, hi, ok)
  }

  function TailAt(s: string): nat -> bool {
    (m: nat) => TailOk(s, m)
  }

  /**
   * The lazy `.+?` from `a`: the shortest middle `s[a..m]` without line breaks
   * after which the rest of the expression matches.
   */
  function MidStart(s: string, a: nat): (r: Option<nat>)
    requires a <= |s|
  {
    FirstFrom(a + 1, LineEnd(s, a) + 1, TailAt(s))
  }

  /** `i\/[^/]+\/` at `p`: the folder part can only end at the first `/` after `i/`. */
  function HeadAt(s: string, p: nat): (r: Option<nat>)
    ensures r.Some? ==> p + 2 < r.value < |s|
  {
    if p + 2 <= |s| && s[p] == 'i' && s[p + 1] == '/' then
      match SlashFrom(s, p + 2)
      case Some(e) => if e > p + 2 then Some(e) else None
      case None => None
    else None
  }

  /** The expression matches starting at `p`. */
  predicate MatchAt(s: string, p: nat) {
    HeadAt(s, p).Some? && MidStart(s, HeadAt(s, p).value + 1).Some?
  }

  function MatchesAt(s: string): nat -> bool {
    (p: nat) => MatchAt(s, p)
  }

  /** The leftmost start of a match. */
  function MatchStart(s: string): Option<nat> {
    FirstFrom(0, |s|, MatchesAt(s))
  }

  /** Where the match starts, where its folder ends and where its middle ends. */
  function Parts(s: string): (nat, nat, nat)
    requires MatchStart(s).Some?
  {
    var p := MatchStart(s).value;
    var e := HeadAt(s, p).value;
    (p, e, MidStart(s, e + 1).value)
  }

  /** `imagePath.match(...)?.groups.id` */
  function PathId(s: string): Option<string> {
    if MatchStart(s).None? then None
    else
      var (p, e, m) := Parts(s);
      assert TailOk(s, m) by { assert TailAt(s)(m); }
      Some(s[p + 2..DigitsEnd(s, m + 2)])
  }

  /**
   * The shape the expression looks for: `i/`, a folder without `/`, `/`, a
   * middle without line breaks, `__`, digits, `__`, a hash of `[a-z0-9]`,
   * any character and `png`.
   */
  predicate Shape(s: string, p: nat, e: nat, m: nat) {
    && p + 2 < e < m <= |s| && s[p] == 'i' && s[p + 1] == '/' && s[e] == '/'
    && (forall x :: p + 2 <= x < e ==> s[x] != '/')
    && e + 1 < m && NoBreak(s, e + 1, m) && TailOk(s, m)
  }

  /** A shape at `p` makes `p` a start of a match, with a middle at most as long. */
  lemma ShapeMatches(s: string, p: nat, e: nat, m: nat)
    requires Shape(s, p, e, m)
    ensures HeadAt(s, p) == Some(e) && MatchAt(s, p) && MatchesAt(s)(p) && MatchStart(s).Some?
    ensures MidStart(s, e + 1).value <= m
  {
    LineEndNoBreak(s, e + 1, m);
    assert TailAt(s)(m);
    assert MatchesAt(s)(p);
  }

  /** The match found is a shape. */
  lemma PartsShape(s: string)
    requires MatchStart(s).Some?
    ensures var (p, e, m) := Parts(s); Shape(s, p, e, m)
  {
    var (p, e, m) := Parts(s);
    assert MatchesAt(s)(p);
    assert TailAt(s)(m);
    LineEndNoBreak(s, e + 1, m);
  }

  /** A path has an id exactly when it has the shape somewhere. */
  lemma PathIdIffShape(s: string)
    ensures PathId(s).Some? <==> exists p: nat, e: nat, m: nat :: Shape(s, p, e, m)
  {
    if PathId(s).Some? {
      PartsShape(s);
      var (p, e, m) := Parts(s);
      assert Shape(s, p, e, m);
    } else {
      forall p: nat, e: nat, m: nat | Shape(s, p, e, m)
        ensures false
      {
        ShapeMatches(s, p, e, m);
      }
    }
  }

  /**
   * The id is the text from after `i/` up to the end of the digit run after
   * the middle: the folder, `/`, the item's name and `__meta`.
   */
  lemma PathIdSpec(s: string)
    requires PathId(s).Some?
    ensures var (p, e, m) := Parts(s);
      var d := DigitsEnd(s, m + 2);
      && Shape(s, p, e, m) && PathId(s).value == s[p + 2..d]
      && m + 2 < d && (d < |s| ==> !IsDigit(s[d]))
  {
    PartsShape(s);
  }

  /** The match starts at the leftmost `i/` with a shape, and takes the shortest middle there. */
  lemma PathIdLeftmostLazy(s: string)
    requires PathId(s).Some?
    ensures var (p, e, m) := Parts(s);
      && (forall p': nat, e': nat, m': nat :: p' < p ==> !Shape(s, p', e', m'))
      && (forall m': nat :: m' < m ==> !Shape(s, p, e, m'))
  {
    var (p, e, m) := Parts(s);
    forall p': nat, e': nat, m': nat | p' < p && Shape(s, p', e', m')
      ensures false
    {
      ShapeMatches(s, p', e', m');
    }
    forall m': nat | m' < m && Shape(s, p, e, m')
      ensures false
    {
      ShapeMatches(s, p, e, m');
    }
  }

  // ---------------------------------------------------------------- grouping

  /** The id `prune` never deletes. */
  const Bucketfilled: string := "forge/bucketfilled__0"

  /** `removeTreshold` */
  const RemoveThreshold: nat := 1000

  type Groups = JsMap.Entries<string, seq<string>>

  /** One turn of the inner loop: `map.set(id, (map.get(id) ?? []).concat([imagePath]))` unless skipped. */
  function AddPath(m: Groups, path: string, idOf: string -> Option<string>): Groups {
    match idOf(path)
    case None => m
    case Some(id) =>
      if id == Bucketfilled then m
      else JsMap.Set(m, id, JsMap.Get(m, id).GetOr([]) + [path])
  }

  /** The map after the inner loop has seen `paths`. */
  function Grouped(paths: seq<string>, idOf: string -> Option<string>): Groups {
    if paths == [] then [] else AddPath(Grouped(paths[..|paths| - 1], idOf), paths[|paths| - 1], idOf)
  }

  /** The test that puts a path in the group of `id`. */
  function IdIs(idOf: string -> Option<string>, id: string): string -> bool {
    p => idOf(p) == Some(id)
  }

  /** The paths of `id`, in their order. */
  function GroupOf(paths: seq<string>, id: string, idOf: string -> Option<string>): seq<string> {
    Keep(paths, IdIs(idOf, id))
  }

  /**
   * The map holds, for every id other than `forge/bucketfilled__0` that some
   * path has, all the paths with that id in their order, and nothing else.
   */
  lemma {:induction false} GroupedSpec(paths: seq<string>, id: string, idOf: string -> Option<string>)
    ensures JsMap.Get(Grouped(paths, idOf), id) ==
      if id != Bucketfilled && GroupOf(paths, id, idOf) != [] then Some(GroupOf(paths, id, idOf)) else None
  {
    if paths != [] {
      var n := |paths| - 1;
      var init := paths[..n];
      var last := paths[n];
      GroupedSpec(init, id, idOf);
      assert paths == init + [last];
      KeepAppend(init, [last], IdIs(idOf, id));
      assert [last][1..] == [];
      var before := GroupOf(init, id, idOf);
      if idOf(last) == Some(id) {
        assert GroupOf(paths, id, idOf) == before + [last];
        if id != Bucketfilled {
          assert JsMap.Get(Grouped(init, idOf), id).GetOr([]) == before;
        }
      } else {
        assert GroupOf(paths, id, idOf) == before;
      }
    }
  }

  /** Each id is a key of the map once. */
  lemma {:induction false} GroupedDistinct(paths: seq<string>, idOf: string -> Option<string>)
    ensures JsMap.Distinct(JsMap.KeysOf(Grouped(paths, idOf)))
  {
    if paths != [] {
      GroupedDistinct(paths[..|paths| - 1], idOf);
    }
  }

  /** `paths.length >= removeTreshold` */
  predicate IsBig(g: (string, seq<string>)) {
    |g.1| >= RemoveThreshold
  }

  /** `[...map].filter(([, paths]) => paths.length >= removeTreshold)` */
  function Selected(m: Groups): Groups {
    Keep(m, IsBig)
  }

  /** The paths of the groups, group after group. */
  function PathsOf(gs: Groups): seq<string> {
    if gs == [] then [] else PathsOf(gs[..|gs| - 1]) + gs[|gs| - 1].1
  }

  lemma {:induction false} PathsOfAppend(a: Groups, b: Groups)
    ensures PathsOf(a + b) == PathsOf(a) + PathsOf(b)
    decreases |b|
  {
    if b != [] {
      assert (a + b)[..|a + b| - 1] == a + b[..|b| - 1];
      PathsOfAppend(a, b[..|b| - 1]);
    } else {
      assert a + b == a;
    }
  }

  lemma {:induction false} InPathsOf(gs: Groups, x: string)
    ensures x in PathsOf(gs) <==> exists g :: g in gs && x in g.1
  {
    if gs != [] {
      var n := |gs| - 1;
      InPathsOf(gs[..n], x);
      assert gs == gs[..n] + [gs[n]];
    }
  }

  /** The paths one directory's turn unlinks. */
  function Doomed(paths: seq<string>, idOf: string -> Option<string>): seq<string> {
    PathsOf(Selected(Grouped(paths, idOf)))
  }

  /**
   * A path of a directory is unlinked exactly when it has an id other than
   * `forge/bucketfilled__0` and at least 1000 paths of that directory share
   * that id.
   */
  lemma DoomedSpec(paths: seq<string>, x: string, idOf: string -> Option<string>)
    ensures x in Doomed(paths, idOf) <==>
      x in paths && idOf(x).Some? && idOf(x).value != Bucketfilled && |GroupOf(paths, idOf(x).value, idOf)| >= RemoveThreshold
  {
    var m := Grouped(paths, idOf);
    GroupedDistinct(paths, idOf);
    InPathsOf(Selected(m), x);
    if x in Doomed(paths, idOf) {
      var g :| g in Selected(m) && x in g.1;
      var i :| 0 <= i < |m| && m[i] == g;
      JsMap.GetAt(m, i);
      GroupedSpec(paths, g.0, idOf);
      assert g.1 == GroupOf(paths, g.0, idOf);
    }
    if x in paths && idOf(x).Some? && idOf(x).value != Bucketfilled && |GroupOf(paths, idOf(x).value, idOf)| >= RemoveThreshold {
      var id := idOf(x).value;
      GroupedSpec(paths, id, idOf);
      assert x in GroupOf(paths, id, idOf);
      assert JsMap.Get(m, id).Some?;
      var i := JsMap.IndexOf(m, id).value;
      assert m[i] == (id, GroupOf(paths, id, idOf));
      assert m[i] in Selected(m);
    }
  }

  // ---------------------------------------------------------------- the loops

  /** One directory: group its images, then unlink the big groups chunk by chunk. */
  method PruneDir(allImages: seq<string>) returns (unlinked: seq<string>)
    ensures unlinked == Doomed(allImages, PathId)
  {
    var groups: Groups := [];
    var i := 0;
    while i < |allImages|
      invariant 0 <= i <= |allImages|
      invariant groups == Grouped(allImages[..i], PathId)
    {
      var imagePath := allImages[i];
      assert allImages[..i + 1][..i] == allImages[..i];
      var id := PathId(imagePath);
      i := i + 1;
      if id.None? {
        continue;
      }
      if id.value == Bucketfilled {
        continue;
      }
      groups := JsMap.Set(groups, id.value, JsMap.Get(groups, id.value).GetOr([]) + [imagePath]);
    }
    assert allImages[..i] == allImages;
    var selected := Keep(groups, IsBig);
    Chunk.ChunksConcat(selected, Chunk.DefaultSize);
    var chunks := Chunk.ChunkArray(selected, Chunk.DefaultSize).value;
    unlinked := [];
    var c := 0;
    while c < |chunks|
      invariant 0 <= c <= |chunks|
      invariant unlinked == PathsOf(Chunk.Flatten(chunks[..c]))
    {
      unlinked := UnlinkChunk(unlinked, chunks[..c], chunks[c]);
      assert chunks[..c + 1][..c] == chunks[..c];
      c := c + 1;
    }
    assert chunks[..c] == chunks;
  }

  /** `Promise.all(chunk.map(call))`: every path of every group of the chunk. */
  method UnlinkChunk(unlinked: seq<string>, done: seq<Groups>, chunk: Groups) returns (next: seq<string>)
    requires unlinked == PathsOf(Chunk.Flatten(done))
    ensures next == PathsOf(Chunk.Flatten(done + [chunk]))
  {
    next := unlinked;
    var g := 0;
    assert Chunk.Flatten(done) + chunk[..0] == Chunk.Flatten(done);
    while g < |chunk|
      invariant 0 <= g <= |chunk|
      invariant next == PathsOf(Chunk.Flatten(done) + chunk[..g])
    {
      assert chunk[..g + 1] == chunk[..g] + [chunk[g]];
      PathsOfAppend(Chunk.Flatten(done) + chunk[..g], [chunk[g]]);
      assert Chunk.Flatten(done) + chunk[..g + 1] == Chunk.Flatten(done) + chunk[..g] + [chunk[g]];
      next := next + chunk[g].1;
      g := g + 1;
    }
    assert chunk[..g] == chunk;
    assert (done + [chunk])[..|done|] == done;
  }

  /** What all the directories' turns unlink, directory after directory. */
  function PruneAll(dirs: seq<seq<string>>, idOf: string -> Option<string>): seq<string> {
    if dirs == [] then [] else PruneAll(dirs[..|dirs| - 1], idOf) + Doomed(dirs[|dirs| - 1], idOf)
  }

  /** `prune()`, given the images of each directory in glob order. */
  method RunPrune(dirs: seq<seq<string>>) returns (unlinked: seq<string>)
    ensures unlinked == PruneAll(dirs, PathId)
  {
    unlinked := [];
    var i := 0;
    while i < |dirs|
      invariant 0 <= i <= |dirs|
      invariant unlinked == PruneAll(dirs[..i], PathId)
    {
      var doomed := PruneDir(dirs[i]);
      assert dirs[..i + 1][..i] == dirs[..i];
      unlinked := unlinked + doomed;
      i := i + 1;
    }
    assert dirs[..i] == dirs;
  }

  /**
   * Groups do not span directories: a path is unlinked exactly when, within
   * one directory that holds it, its id is shared by at least 1000 paths.
   */
  lemma {:induction false} PruneAllSpec(dirs: seq<seq<string>>, x: string, idOf: string -> Option<string>)
    ensures x in PruneAll(dirs, idOf) <==>
      exists i :: 0 <= i < |dirs| && x in Doomed(dirs[i], idOf)
  {
    if dirs != [] {
      var n := |dirs| - 1;
      var init := dirs[..n];
      PruneAllSpec(init, x, idOf);
      assert PruneAll(dirs, idOf) == PruneAll(init, idOf) + Doomed(dirs[n], idOf);
      if x in PruneAll(init, idOf) {
        var i :| 0 <= i < |init| && x in Doomed(init[i], idOf);
        assert init[i] == dirs[i];
      }
      if exists i :: 0 <= i < |dirs| && x in Doomed(dirs[i], idOf) {
        var i :| 0 <= i < |dirs| && x in Doomed(dirs[i], idOf);
        if i < n {
          assert init[i] == dirs[i];
        }
      }
    }
  }
}
