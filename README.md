# mc-icons, modelled in Dafny

mc-icons rewrites Markdown documentation about Minecraft modpacks: every item
mention written as `[Item Name]`, optionally followed by ` (option)`, is
resolved to one or more game items of an asset index and replaced by their
icons. This project models the resolution core of that program and proves
properties of it:

- the asset index: ids split into source, entry, meta and sNbt
  (`src/base.ts`), the four-level tree and flat name dictionary built from
  the name table (`src/assetEx.ts`), and the lookup by id with its fixed
  fallback order for a missing meta (`""`, `0`, `"0"`, `"*"`, then the first
  key) and a missing sNbt;
- the lookups the cascade is given (`src/searcher.ts`): by command string
  `<id>`, by id, and the Levenshtein fallback with its threshold rule, over
  an edit distance that is proved a metric-like function (zero exactly on
  equal strings, symmetric, bounded by the lengths);
- the capture pattern and the bracket search up to the sorted list of
  replacements (`src/searcher.ts`, `src/iconizeMatch.ts`);
- the modifiers `(Every)` and `(Any)` and how `refine` strips them and
  composes their filters (`src/modifiers.ts`);
- the resolution cascade of `iconizeMatch`: the four attempts (command
  string, exact lower-case name with its preference for a single `minecraft`
  item, trie search, Levenshtein) and the four filter steps (identity,
  option, same image, modifiers);
- the disambiguator (`src/unclear.ts`): its narrowing to exact names, its
  three menu kinds chosen by the shape of the candidates, its record of
  captures that were not found, and the column layout of its summary;
- `getIcon` and its lazily built tables, the constituent tree of an item
  and the item tree of the tooling (`src/getIcon.ts`, `src/Tree.ts`,
  `src/tool/tree.ts`, `src/tool/treeTool.ts`);
- the tooling's stores and passes: the nbt registry, the assets caches,
  names, the JEI exporter records, images, pruning and the sprite layout
  (`src/tool/*.ts`), and `chunkArray` (`src/lib/chunk.ts`); `callInChunks`
  appears only as the chunk loop of `Prune.PruneDir`.

Conventions of the model:

- A plain JavaScript object is `JsObject.Obj`: its keys come back in the
  order JavaScript gives them, array-index keys ascending first and the
  other keys in insertion order. So "the first value" of an object is the one
  under its numerically smallest index key, not the first one written.
- A JavaScript `Map` is `JsMap`, an insertion-ordered list of pairs in which
  a later `set` of a key overwrites the value in place.
- `_.sortBy` and `Array.prototype.sort` are the stable insertion sort of
  `Sorting`, proved sorted, a permutation and stable.
- Everything the core reads from outside is a parameter: the loaded JSON
  tables, the trie search, the icon key of an entry, image hashing, file
  sets, the menu the user answers (a `choose` function that may cancel), the
  terminal size, the sprite's `rowAmount` and the `localeCompare` tie order.
- A JavaScript exception is the `Err` of a `Result`.

Behaviours of the code that the model follows, though a reader might
expect otherwise:

- The cascade does not stop at the first attempt that yields candidates:
  when the option filter empties a non-empty attempt, `iconizeMatch` goes on
  to the next attempt (`src/iconizeMatch.ts:81-98`), unless `(Any)` is
  given: then the emptied list becomes `[undefined]` and is returned
  (Finding 1). An exact-name attempt
  whose single `minecraft` item is filtered out likewise falls back to all
  the items of that name.
- A modifier's `final` flag is set when the list it is GIVEN is non-empty,
  not when its result is non-empty (`src/modifiers.ts:20-21`); the two
  differ only for `(Any)` on an empty list, which is Finding 1 below.
- The Levenshtein fallback reads the second-best distance unconditionally,
  so a name dictionary of fewer than two entries throws
  (`src/searcher.ts:82-83`); the model returns an error there.
- The summary of captures not found takes its cell width from `.sort()` on
  the capture lengths, which compares numbers as strings (Finding 2). The
  layout of `print` is modelled with that width, as written.

## Model

| member | source | states |
|---|---|---|
| Base.BaseFromId | src/base.ts:3-6 | the entry is missing exactly when the id has no `:`, the meta when it has fewer than two, the sNbt when it has fewer than three; source, entry and meta hold no `:`; the source is the id's prefix up to its first `:` |
| Base.BaseRoundTrip | src/base.ts:3-6 | with at least three `:`, `source:entry:meta:sNbt` rebuilds the id exactly (the `rest.join(':')` undoes the split) |
| Base.SNbtIsRest | src/base.ts:5 | the sNbt is the whole remainder of the id after the third `:`, its own `:` included |
| Chunk.CeilDiv | src/lib/chunk.ts:13 | `Math.ceil(n / d)`: the least count of `d`-sized pieces covering `n` |
| Chunk.ChunkArray | src/lib/chunk.ts:12-15 | fails (RangeError) exactly for size 0 on a non-empty array; a negative size gives no chunks; otherwise there are `ceil(n / size)` chunks |
| Chunk.ChunksConcat | src/lib/chunk.ts:12-15 | the chunks concatenate back to the array |
| Chunk.ChunkSizes | src/lib/chunk.ts:14 | every chunk but the last has exactly `size` elements, the last between 1 and `size` |
| Chunk.FlattenPrefix | src/lib/chunk.ts:13-14 | the first `k` chunks concatenate to the first `min(k * size, n)` elements |
| Chunk.EmptyInput | src/lib/chunk.ts:3-12 | the default size is 64, and an empty array gives no chunks for any size |
| Nbt.AddNbt | src/tool/nbt.ts:5-10 | with a falsy hash or sNbt, or an sNbt already registered, nothing changes; otherwise the sNbt is registered and the hash reads it back, every other hash unchanged |
| Nbt.GetsNbt | src/tool/nbt.ts:12-14 | a falsy hash reads `undefined` |
| Nbt.AddNbtConsistent | src/tool/nbt.ts:5-10 | every stored sNbt stays in `existsNbt` |
| Nbt.GetAfterAdd | src/tool/nbt.ts:5-14 | after a successful add the hash reads the sNbt back |
| Nbt.RegisteredOnce | src/tool/nbt.ts:6 | an sNbt is registered once: a second add of it, under any hash, changes nothing |
| Nbt.NewSNbtOverwritesHash | src/tool/nbt.ts:6-8 | a new sNbt under a hash in use replaces what that hash reads |
| Nbt.NbtStore.Add | src/tool/nbt.ts:5-10 | the module state becomes `AddNbt` of the old state |
| Nbt.NbtStore.Lookup | src/tool/nbt.ts:12-14 | reads what `GetsNbt` reads on the module state |
| Nbt.NbtStore.constructor | src/tool/nbt.ts:1-3 | the module starts with no sNbt registered and no hash set, a consistent registry |
| ItemTree.NumberAndStringMeta | src/tool/tree.ts:10-12 | `get` reads the same slot for a number and its decimal string, except that the string `'32767'` reads meta 0 (like no meta) while the number 32767 does not |
| ItemTree.AddTo | src/tool/tree.ts:19-36 | when the slot already holds a truthy hash, `add` returns it and leaves the table alone; otherwise it returns `undefined`, the slot holds the new hash and every other slot is unchanged |
| ItemTree.GetAfterAdd | src/tool/tree.ts:4-36 | after `add(x)`, `get` with x's keys reads the truthy hash already there, else x's hash |
| ItemTree.AddTwice | src/tool/tree.ts:30-35 | a second `add` of the same item changes nothing and returns the hash the first one stored |
| ItemTree.Get | src/tool/tree.ts:4-13 | returns `Lookup` on the items table the getter gives, which is now cached |
| ItemTree.Add | src/tool/tree.ts:19-36 | the returned value and the cached items table are `AddTo` of the table before |
| ItemTree.AddOn | src/tool/tree.ts:26-35 | the body of `add` computes `AddTo` |
| TreeTool.ToolLookupAgrees | src/tool/treeTool.ts:4-11 | on numeric metas `treeTool.get` reads the same slot as `tree.get` |
| TreeTool.ToolGetAfterAdd | src/tool/treeTool.ts:4-33 | after `treeTool.add(x)`, `treeTool.get` with x's keys reads the truthy hash already there, else x's hash |
| TreeTool.ToolGet | src/tool/treeTool.ts:4-11 | returns `ToolLookup` on the items table the getter gives |
| TreeTool.ToolAdd | src/tool/treeTool.ts:17-33 | the returned value and the cached items table are `AddTo` of the table before |
| TreeTool.ToolAddOn | src/tool/treeTool.ts:24-32 | the body of `treeTool.add` computes `AddTo` |
| Assets.InverseUpToSound | src/tool/assets.ts:69-72 | every sNbt the `forEach` has registered maps to a hash that holds it |
| Assets.InverseUpToComplete | src/tool/assets.ts:69-72 | every visited sNbt is registered, under its own hash when no later visited hash holds it |
| Assets.InverseSpec | src/tool/assets.ts:66-73 | `nbtHash[sNbt]` is a hash holding that sNbt for every sNbt of the table, and the last such hash in key order |
| Assets.LenNaturalTotalPreorder | src/tool/assets.ts:87-89 | `lenNaturalSort` (shorter first, ties by the locale comparison) is a total preorder whenever the tie comparison is |
| Assets.LexLeTotalPreorder | src/tool/assets.ts:97 | the default `sort()` order on strings is a total preorder |
| Assets.SortedKeys | src/tool/assets.ts:95 | the sorted key list holds exactly the keys of the names table |
| Assets.SortedKeysDistinct | src/tool/assets.ts:95 | the sorted key list has no repeats |
| Assets.RebuiltUpToKeys | src/tool/assets.ts:94-98 | `newNames` lists the sorted keys written so far, in order, when none is an array index |
| Assets.RebuiltUpToVals | src/tool/assets.ts:97 | every key of `newNames` holds its old list sorted |
| Assets.SortedNamesSpec | src/tool/assets.ts:93-100 | the rebuilt names table lists its names shortest first, has the same names, and each id list is sorted and a permutation of the old one |
| Assets.Asset.constructor | src/tool/assets.ts:7-25 | every cached asset starts unset |
| Assets.Asset.Images | src/tool/assets.ts:37-39 | returns the cached images table, loading it on first access, and caches it |
| Assets.Asset.Items | src/tool/assets.ts:41-43 | returns the cached items tree, loading it on first access, and caches it |
| Assets.Asset.Modpacks | src/tool/assets.ts:45-47 | returns the loaded modpacks table and caches it |
| Assets.Asset.Mods | src/tool/assets.ts:49-51 | returns the loaded mods table and caches it |
| Assets.Asset.Names | src/tool/assets.ts:53-55 | returns the cached names table, loading it on first access, and caches it |
| Assets.Asset.Nbt | src/tool/assets.ts:57-59 | returns the loaded nbt table and caches it |
| Assets.Asset.NbtHash | src/tool/assets.ts:65-73 | returns the inverse of the nbt table, built once and cached |
| Assets.Asset.SaveNames | src/tool/assets.ts:91-100 | an unset names table stays unset; a loaded one is replaced by its rebuilt, sorted form |
| Assets.RebuildNames | src/tool/assets.ts:94-98 | the loop fills `newNames` with every sorted key, in order |
| Assets.RebuildNext | src/tool/assets.ts:97 | one step writes the next sorted key |
| Images.Slashes | src/tool/images.ts:58 | every `\` becomes `/`: same length, no `\` left |
| Images.TrimImgPath | src/tool/images.ts:56-61 | the trimmed path holds no `\` |
| Images.TrimImgFile | src/tool/images.ts:51-61 | `trimImgPath` undoes `i/${img}.png`, and `i\${img}.png` up to slashes, so `i\minecraft\dirt.png` gives `minecraft/dirt` |
| Images.SlashesAppend | src/tool/images.ts:58 | the global replace works piece by piece |
| Images.PrunedUpToSpec | src/tool/images.ts:36-43 | after the loop has visited some entries, a visited entry whose file is gone is deleted and every other entry is untouched |
| Images.PrunedUpToSize | src/tool/images.ts:36-43 | the entries left plus the skipped count equal the entries there were |
| Images.OldIndexSound | src/tool/images.ts:37-39 | the path index maps a path only to a hash whose image is that path and whose file exists |
| Images.OldIndexComplete | src/tool/images.ts:37-39 | every kept entry has its path in the index |
| Images.AppendStored | src/tool/images.ts:76-84 | with the old index loaded and a destination given, a stored hash (from `tree.get` of the item, else from the index) is returned without hashing, writing or copying |
| Images.AppendKnown | src/tool/images.ts:88-89 | a hash already in the table is returned, `isAdded` unset, and the table is unchanged |
| Images.AppendNew | src/tool/images.ts:92-108 | a new hash is recorded under `trimImgPath(newImgPath ?? imgPath)`, every other entry stays, and `isAdded` is set only when a destination was given and the copy succeeded |
| Images.AppendThenKnown | src/tool/images.ts:88-92 | once an image is recorded under a non-empty path, appending an image with the same hash changes nothing |
| Images.DestFileNameDropsSource | src/tool/images.ts:142-144 | for `source__rest` the destination file name is `rest` |
| Images.ImageStore.constructor | src/tool/images.ts:26 | `oldPathHash` starts unset |
| Images.ImageStore.InitOld | src/tool/images.ts:28-49 | the path index, the pruned image table and the skipped count are those the loop specification gives for all entries |
| Images.ImageStore.InitStep | src/tool/images.ts:37-43 | one pass keeps and indexes the entry or deletes and counts it |
| Images.ImageStore.AppendImage | src/tool/images.ts:67-110 | the resolved value and the new image table are `AppendOutcome` of the old state; the items table is unchanged |
| Images.ImageStore.LookupStored | src/tool/images.ts:76-79 | reads the stored hash the specification names |
| Images.AppendHashedTo | src/tool/images.ts:86-108 | after hashing, the resolved value and the image table are `AppendHashed` of the old table |
| Images.AppendHashedOn | src/tool/images.ts:88-107 | the same on the image table itself |
| Prune.SlashFrom | src/tool/prune.ts:19 | finds the first `/` at or after a position, or reports there is none |
| Prune.HashEnd | src/tool/prune.ts:19 | the end of the maximal `[a-z\d]` run from a position |
| Prune.HashBackSpec | src/tool/prune.ts:19 | the backtracking `[a-z\d]+` followed by `.png` matches exactly when some non-empty prefix of the hash run is followed by `.png` |
| Prune.FirstFrom | src/tool/prune.ts:19 | the regular expression's search order: the first position in a range where the rest matches, none before it |
| Prune.HeadAt | src/tool/prune.ts:19 | `i\/[^/]+\/` ends at the first `/` after `i/`, past a non-empty folder |
| Prune.ShapeMatches | src/tool/prune.ts:19 | a path with the `i/dir/name__digits__hash.png` shape at a position has a match starting there, with a middle at most that long |
| Prune.PartsShape | src/tool/prune.ts:19 | the match found has that shape |
| Prune.PathIdIffShape | src/tool/prune.ts:19-21 | a path yields an id exactly when it has the shape somewhere; the others are skipped |
| Prune.PathIdSpec | src/tool/prune.ts:19-22 | the id runs from after `i/` to the end of the digit run: folder, `/`, name and `__meta` |
| Prune.PathIdLeftmostLazy | src/tool/prune.ts:19 | the match is the leftmost one and takes the shortest middle (`.+?`) there |
| Prune.GroupedSpec | src/tool/prune.ts:17-26 | the map holds, for every id other than `forge/bucketfilled__0` that some path has, all the paths with that id in their order, and nothing else |
| Prune.GroupedDistinct | src/tool/prune.ts:25 | each id is a key of the map once |
| Prune.PathsOfAppend | src/tool/prune.ts:30-32 | the paths of two lists of groups concatenate |
| Prune.InPathsOf | src/tool/prune.ts:32 | a path is unlinked by a list of groups exactly when one of the groups holds it |
| Prune.DoomedSpec | src/tool/prune.ts:17-33 | within one directory a path is unlinked exactly when it has an id other than `forge/bucketfilled__0` shared by at least 1000 of the directory's paths |
| Prune.PruneDir | src/tool/prune.ts:14-33 | one directory's turn unlinks exactly the paths of the selected groups, chunk after chunk |
| Prune.UnlinkChunk | src/tool/prune.ts:32 | one chunk unlinks every path of each of its groups |
| Prune.RunPrune | src/tool/prune.ts:8-35 | `prune` unlinks, directory after directory, what each directory's turn selects |
| Prune.PruneAllSpec | src/tool/prune.ts:13-34 | groups never span directories: a path is unlinked exactly when one directory holding it selects it |
| Sprite.PatternMatches | src/lib/sprite.ts:4-12 | a blacklist pattern matches every path starting with its name, `__`, its meta, `__` and a word character |
| Sprite.PatternNeedsName | src/lib/sprite.ts:4-12 | a pattern never matches a path that does not start with its name and `__` (the patterns are anchored) |
| Sprite.SpriteImagesSpec | src/lib/sprite.ts:16-25 | the sprite images are the image paths no filter matches, in the order of the images table |
| Sprite.CellIndex | src/lib/sprite.ts:37-38 | the column `i % rowAmount` and the row `(i / rowAmount) \| 0` give back the index, the column within the row |
| Sprite.NatPairInjective | src/lib/sprite.ts:37-38 | two numbers written around a space can be read back |
| Sprite.PosInjective | src/lib/sprite.ts:14-39 | different indexes get different `x y` positions |
| Sprite.PosWithinRow | src/lib/sprite.ts:14-37 | the x coordinate stays within the sprite's `rowAmount` cells of 16 pixels |
| Sprite.SpriteMapGet | src/lib/sprite.ts:33-40 | `Object.fromEntries` gives each listed path the position of its last occurrence and has no other path |
| Sprite.PutLastGet | src/lib/sprite.ts:33-40 | one more entry keeps that last-occurrence reading |
| Sprite.SpriteStore.constructor | src/lib/sprite.ts:27 | `spriteMap` starts unset |
| Sprite.SpriteStore.GetPos | src/lib/sprite.ts:28-43 | the map is built once, from the sprite images of the current image table, then left alone; the result is what the map holds for the path |
| Sprite.BuildSpriteMap | src/lib/sprite.ts:33-40 | the map built is the entries of the numbered image list written in order |
| Sprite.BuildNext | src/lib/sprite.ts:35-39 | one entry writes the i-th path with the i-th position |
| Sprite.GetPosSpec | src/lib/sprite.ts:16-43 | a path has a position exactly when it is a non-blacklisted image, and that position is the cell of its last place in the kept list |
| Names.StripColor | src/tool/names.ts:24 | removing colour codes never lengthens the display |
| Names.StripColorSubSeq | src/tool/names.ts:24 | stripping only removes characters; the rest keep their order |
| Names.StripColorPlain | src/tool/names.ts:24 | a display without `ย` is unchanged |
| Names.StripColorOnePass | src/tool/names.ts:24 | the global replace is one left-to-right pass: `ยยงxงc` becomes `ยงc`, which still holds a code |
| Names.ItemLineFields | src/tool/names.ts:20-30 | a facade gives no line; otherwise the fields are the stripped display, `mod:id` with `mod` the stack's text before its first `:`, then `meta ?? 0` when the meta piece is non-empty or there is NBT other than `{}`, then the snbt when there is such NBT |
| Names.ItemLines | src/tool/names.ts:17-32 | there are at most as many item lines as items |
| Names.ItemLinesOfKept | src/tool/names.ts:17-32 | the item lines are the lines of the non-facade items, one each, in their order |
| Names.GenerateNamesThrows | src/tool/names.ts:12-36 | `generateNames` throws exactly when the log has no `all_items`, or has a mod with no items (whose header cannot be destructured), with the source's message in the first case |
| Names.HeadersFirst | src/tool/names.ts:33-40 | one header per mod comes first, in key order: the mod's name and the namespace of its first stack (its text before the first `:`); the item lines follow |
| Names.CountAppend | src/tool/names.ts:42 | newlines add up over a concatenation |
| Names.NamesTextLines | src/tool/names.ts:42 | `[\n${lines.join(',\n')}\n]` puts each one-line entry on its own line between `[` and `]` |
| Names.JoinedLines | src/tool/names.ts:42 | joining one-line entries with `,\n` adds one newline between each two |
| Names.RenderLineOneLine | src/tool/names.ts:30-37 | a rendered array is one line of text when strings are quoted without newlines |
| Names.GenerateNamesLineCount | src/tool/names.ts:3-43 | the names file has a line for every header and every item line, between the opening `[` and the closing `]` |
| Jeie.EntryFrom | src/tool/jeie.ts:47 | the lazy `(?<entry>.+?)` grows one character at a time: the first end from which `__` and a digit follow, none earlier |
| Jeie.EntryStart | src/tool/jeie.ts:47 | the shortest non-empty entry, without line breaks, followed by `__` and a digit |
| Jeie.SourceFrom | src/tool/jeie.ts:47 | the lazy `(?<source>.+?)` grows one character at a time: the first end with `__` and an entry after it |
| Jeie.SourceStart | src/tool/jeie.ts:47 | the shortest non-empty source at a position |
| Jeie.MatchFrom | src/tool/jeie.ts:45-48 | `match` finds the leftmost start where the expression matches |
| Jeie.ParseThrowsIffNoShape | src/tool/jeie.ts:44-51 | `parseJEIEName` throws exactly when the name has no `source__entry__digits` shape anywhere |
| Jeie.ShapeMatches | src/tool/jeie.ts:47 | any such shape makes its start a match start with a source at most that long |
| Jeie.ParseSound | src/tool/jeie.ts:47-54 | the source and entry returned are the non-empty parts before the first and second `__` of a shape |
| Jeie.ParseLeftmostLazy | src/tool/jeie.ts:47-54 | the match starts leftmost, its source is the shortest there and its entry the shortest after that, so the entry may contain `__` |
| Jeie.ParseMetaHash | src/tool/jeie.ts:47-57 | the parsed name is the one read at the match's parts, whose entry is followed by `__` and a digit |
| Jeie.NameAtMetaHash | src/tool/jeie.ts:47-56 | the meta is the value of the longest digit run after the entry; the hash is present exactly when `__` and a non-line-terminator follow the run, and then runs to the end of the line |
| Jeie.GetBase | src/tool/jeie.ts:24-38 | with a configured source, parsing is skipped: the source is kept and `skipSubstr` set; without one, `getBase` fails exactly when the name without `.png` cannot be parsed, and `skipSubstr` is unset |
| Jeie.DestNameOfParsed | src/tool/jeie.ts:24-38 | a parsed file `source__rest.png` whose match starts at its first character gets `rest.png` as its destination name |
| ConstituentTree.AddTo | src/Tree.ts:27-34 | `add` reports an addition exactly when the slot holds no truthy value; a refused add leaves the tree alone; an addition stores `item.nbt` at the slot; no other slot changes |
| ConstituentTree.ReAddFalsyNbt | src/Tree.ts:28-33 | re-adding an item whose nbt is `undefined` or `''` is reported as an addition again, because `add` tests the stored value and not the key |
| ConstituentTree.PutSame | src/Tree.ts:30-32 | writing back the value a slot already holds leaves the tree as it was |
| ConstituentTree.AddTwiceRefused | src/Tree.ts:28-29 | a truthy value is never overwritten: a second add of its slot is refused |
| ConstituentTree.ExportShape | src/Tree.ts:36-73 | the export keeps every source and entry in order; an entry whose only meta is `'0'` holding only `''` becomes `{}`; otherwise every meta is kept, a meta holding only `''` becomes `{}`, and any other keeps its hashes with `undefined` written as `''` |
| ConstituentTree.ExportPlainEntry | src/Tree.ts:53-58 | a plain entry is exported as an empty object under its own source and entry |
| ConstituentTree.ExportMetaLoop | src/Tree.ts:60-67 | the innermost loop writes the compacted meta |
| ConstituentTree.ExportEntryLoop | src/Tree.ts:52-68 | the loop over an entry's metas writes the compacted entry, skipping a plain one |
| ConstituentTree.ExportSourceLoop | src/Tree.ts:49-69 | the loop over a source's entries writes the compacted source |
| ConstituentTree.ConstituentTree.constructor | src/Tree.ts:25 | the tree starts empty |
| ConstituentTree.ConstituentTree.Add | src/Tree.ts:27-34 | the result and the new tree are `AddTo` of the old tree |
| ConstituentTree.ConstituentTree.Export | src/Tree.ts:36-73 | `export()` returns the compacted tree and changes nothing |
| GetIcon.HashesUpToKeys | src/getIcon.ts:20-22 | the inverse holds exactly the sNbt values of the visited hashes |
| GetIcon.HashesUpToFirst | src/getIcon.ts:20-22 | `??=` keeps each sNbt under the first visited hash that registers it |
| GetIcon.NbtHashMapFirstWins | src/getIcon.ts:12-23 | after `init`, the first hash of `nbt.json` registering an sNbt is the one the inverse names for it |
| GetIcon.MetaKey | src/getIcon.ts:35 | `meta \|\| 0`: an absent or zero meta reads slot `0`, a positive one its decimal string |
| GetIcon.Stack | src/getIcon.ts:35-39 | the slot `meta \|\| 0` when the definition has it, otherwise `Object.values(definition)[0]`; none exactly when the definition has no metas |
| GetIcon.ImageHash | src/getIcon.ts:48-55 | the stack slot read is `''` without a registered sNbt and `nbtHashMap[sNbt]` with one; that slot's hash when the stack has it, otherwise `Object.values(stack)[0]`; missing exactly when the stack is empty |
| GetIcon.Lookup | src/getIcon.ts:25-66 | `undefined` exactly when source/entry has no definition; a path returned is never empty |
| GetIcon.LookupThrows | src/getIcon.ts:45-63 | the three data-integrity throws with their messages: no metas, no nbts, a hash with no path; otherwise the stored path |
| GetIcon.LookupFindsIcon | src/getIcon.ts:35-65 | an item whose meta slot, the slot its sNbt's hash names and the image path are in place resolves to that path |
| GetIcon.LookupPlainIcon | src/getIcon.ts:50-54 | without an sNbt, or with an unregistered one, the image is the one in slot `''` |
| GetIcon.RegisteredNbtFindsIcon | src/getIcon.ts:12-66 | with the inverse built from `nbt.json`, an item stored under the first hash that registers its sNbt resolves to that slot's image |
| GetIcon.NbtHashMapAsWrittenCounterexample | src/getIcon.ts:20-22 | the inverse as written (`nbtHashMap[sNbt] ??= assetsImages[nbtHash]`) misses a registered item's nbt slot that the intended inverse finds |
| GetIcon.SampleInverses | src/getIcon.ts:20-22 | on the sample the as-written inverse is empty while the intended one maps `{a:1}` to `h1` |
| GetIcon.SampleLookup | src/getIcon.ts:50-65 | the sample item reads slot `h1` exactly when the inverse names it, and slot `''` otherwise |
| GetIcon.IconStore.constructor | src/getIcon.ts:7-11 | nothing is initialised yet |
| GetIcon.IconStore.Init | src/getIcon.ts:12-23 | `init` builds the inverse on the first call and does nothing afterwards |
| GetIcon.IconStore.GetIcon | src/getIcon.ts:25-66 | runs `init`, then returns `Lookup` with the inverse built from `nbt.json` |
| AssetEx.Capitalize | src/assetEx.ts:11 | replacing a space and a lower-case letter by that letter in upper case never lengthens the string and leaves no space followed by a lower-case letter; the first character is lower-case exactly when the input's is |
| AssetEx.CapitalizeNoMatch | src/assetEx.ts:11 | on a string with no space before a lower-case letter the replace is the identity |
| AssetEx.CapitalizeIdempotent | src/assetEx.ts:11 | applying the replace twice gives the same string as applying it once |
| AssetEx.KeepAbbrChars | src/assetEx.ts:12 | `.replace(/[\Wa-z]/g, '')` leaves only upper-case letters, digits and `_` |
| AssetEx.Abbr1 | src/assetEx.ts:9-14 | the abbreviation uses only `[a-z0-9_]` |
| AssetEx.Abbr1MatchesSpec | src/assetEx.ts:9-14 | `abbr1` keeps exactly the upper-case letters, digits, underscores and lower-case letters right after a space, lower-cased, in order (an independent one-pass reading) |
| AssetEx.AbbrSpecNotAfterSpace | src/assetEx.ts:11 | a space only matters before a lower-case letter |
| AssetEx.ToLowerAppend | src/assetEx.ts:13 | lower-casing works piece by piece |
| AssetEx.ModpackMap | src/assetEx.ts:71-84 | no whitelist without a modpack option; an unknown modpack or one without sources throws; otherwise the whitelist is the modpack's sources plus `gas`, `fluid` and `placeholder` |
| AssetEx.MakeEntry | src/assetEx.ts:45-62 | the entry keeps the name and the id, with the id's source and entry, a missing meta as `''` and a missing sNbt as `''` |
| AssetEx.Row | src/assetEx.ts:43-44 | the (name, id) pairs of one name, in list order |
| AssetEx.FoldLeftConcat | src/assetEx.ts:43-44 | running the loops over two runs of pairs in turn is running them over the concatenation |
| AssetEx.FoldLast | src/assetEx.ts:44-66 | the last pair is the last step of the loops |
| AssetEx.FoldNamesIsFold | src/assetEx.ts:43-68 | the two nested loops fold the flattened (name, id) pairs in order |
| AssetEx.FoldLeftNext | src/assetEx.ts:44 | one more id of the inner loop is one more step |
| AssetEx.FoldDictionary | src/assetEx.ts:43-68 | the dictionary is one entry per admitted id, in iteration order, repeated ids listed again |
| AssetEx.FoldKeysSlots | src/assetEx.ts:64-66 | every slot of the lookup tree holds an entry belonging to it, and every admitted id's slot is filled (a repeated key overwrites its slot) |
| AssetEx.SelectMeta | src/assetEx.ts:29-32 | an explicit meta other than `*` and `32767` is looked up exactly; otherwise the slots are tried in the order `''`, `0` (the same key as `'0'`), `'*'`, then `Object.values(def)[0]`, and a meta is found exactly when the definition has one |
| AssetEx.SelectNbt | src/assetEx.ts:35 | a non-empty sNbt is looked up exactly; otherwise the slots are tried in the order `''`, `'{}'`, then `Object.values(dm)[0]`, and an entry is found exactly when the meta has one |
| AssetEx.LookupById | src/assetEx.ts:22-36 | `getById` gives `undefined` when the source or the entry is unknown |
| AssetEx.LookupFindsOwnSlot | src/assetEx.ts:25-35 | on a well-keyed tree an id with a non-wildcard meta whose slot is filled finds an entry of that slot |
| AssetEx.IndexedIdFound | src/assetEx.ts:22-68 | every admitted id whose meta is not a wildcard is found again by `getById`, as an entry with the same source, entry, meta and sNbt |
| AssetEx.AssetEx.constructor | src/assetEx.ts:20 | nothing is indexed yet |
| AssetEx.AssetEx.InitDict | src/assetEx.ts:38-69 | `initDict` fills the list and the tree as the loops specify, or throws the modpack error |
| AssetEx.AssetEx.GetById | src/assetEx.ts:22-36 | builds the index on first use, then reads the tree with the fallbacks |
| AssetEx.AssetEx.NameDictionary | src/assetEx.ts:86-90 | builds the index on first use and returns the list |
| AssetEx.RunInitDict | src/assetEx.ts:43-68 | the loops build the index the fold over all pairs gives, or throw the modpack error at the first id |
| AssetEx.AddIds | src/assetEx.ts:44-67 | the inner loop adds the ids of one name in order |
| AssetEx.AddIdStep | src/assetEx.ts:45-66 | one id is skipped when not admitted; otherwise its entry is pushed and written into its tree slot |
| AssetEx.BuildIndexErr | src/assetEx.ts:46-78 | with some id to index, an unknown modpack makes `initDict` throw |
| AssetEx.BuildIndexOk | src/assetEx.ts:43-68 | with no id to index the modpack is never consulted |
| Searcher.GetByIdIn | src/searcher.ts:57-60 | `getByID` answers a one-element list holding exactly the entry the index finds for the id, and `undefined` exactly when it finds none |
| Searcher.GetById | src/searcher.ts:57-60 | `getByID` throws exactly when building the index throws, and otherwise answers the lookup |
| Searcher.GetByID | src/searcher.ts:57-60 | `getByID` on the asset object builds the index on first use; it throws only when that first build throws, and otherwise answers the lookup in the built tree |
| Searcher.CommandId | src/searcher.ts:66 | `/^<(.+)>$/` matches exactly a capture of at least three characters that starts with `<`, ends with `>` and has no line terminator in between; the group is non-empty and wrapping it in `<` `>` gives back the capture |
| Searcher.GetByCommandString | src/searcher.ts:62-68 | a capture that is not a command string answers `undefined`; one that is answers `getByID` of the enclosed id |
| Searcher.CommandIdOfWrapped | src/searcher.ts:66 | a non-empty id without line breaks, written as `<id>`, is read back as that id |
| Searcher.CommandStringFindsSlot | src/searcher.ts:62-68 | `<id>` for an indexed id finds exactly one entry, the one in that id's own slot |
| Searcher.Scores | src/searcher.ts:77-80 | each entry is paired with its edit distance from the lowercased capture, in dictionary order |
| Searcher.ByDistanceTotalPreorder | src/searcher.ts:81 | `_.sortBy(lev, 0)` sorts by a total preorder: the distance alone |
| Searcher.LevDict | src/searcher.ts:81 | the sorted list has one item per dictionary entry |
| Searcher.LevDictSpec | src/searcher.ts:81 | the sorted list is a permutation of the scored dictionary, ascending by distance, and entries at the same distance keep their dictionary order |
| Searcher.Entries | src/searcher.ts:85 | `levDict.map(o => o[1])` keeps the entries, item by item |
| Searcher.LevinshteinResolver | src/searcher.ts:72-86 | throws exactly when the dictionary has fewer than two entries; answers one entry exactly when the best distance is strictly below the second and within the threshold, that entry being the best; otherwise the whole dictionary in distance order |
| Searcher.WinnerIsStrictlyClosest | src/searcher.ts:82-85 | a single answer is a dictionary entry strictly closer to the capture than every other entry, within the threshold |
| Searcher.DefaultThresholdExactOnly | src/searcher.ts:115 | with the default threshold 0 a single answer is only ever an entry whose lowercased name equals the lowercased capture |
| Levenshtein.LevSelf | src/searcher.ts:79 | a name is at distance 0 from itself |
| Levenshtein.LevLowerBound | src/searcher.ts:79 | the distance is at least the difference of the lengths |
| Levenshtein.LevUpperBound | src/searcher.ts:79 | the distance is at most the length of the longer string |
| Levenshtein.LevZeroIff | src/searcher.ts:79 | distance 0 exactly when the two strings are equal |
| Levenshtein.LevSymmetric | src/searcher.ts:79 | the distance does not depend on the order of its arguments |
| Brackets.Target | src/searcher.ts:124-127 | a found entry becomes its display name and the base `[source, entry, meta, sNbt]` |
| Brackets.Targets | src/searcher.ts:124-127 | `dicts.map(...)` converts every found entry, in order |
| Brackets.Runs | src/searcher.ts:109-118 | there is one `iconizeMatch` outcome per match |
| Brackets.RunsAt | src/searcher.ts:111-118 | the outcome at a position is that match's `iconizeMatch` with the fixed lookups |
| Brackets.CollectFromMatches | src/searcher.ts:109-130 | every collected replacement stands for at least one item (`!dicts?.length` is skipped), comes from a match of the document, and there are no more replacements than matches |
| Brackets.CollectStart | src/searcher.ts:102 | the loop starts with `replaces` empty and nothing recorded |
| Brackets.CollectStep | src/searcher.ts:120-129 | a resolved match appends its replacement, if any, and its recorded captures, and the loop goes on with the next match |
| Brackets.CollectThrow | src/searcher.ts:111-118 | a match whose resolution throws ends the search with that error, keeping the captures recorded up to it |
| Brackets.CollectDone | src/searcher.ts:109-130 | after the last match the collected list is the result |
| Brackets.LongerFirstTotalPreorder | src/searcher.ts:137 | the comparator `b.from.length - a.from.length` is a total preorder |
| Brackets.SortReplaces | src/searcher.ts:137 | sorting keeps the number of replacements |
| Brackets.SortReplacesSpec | src/searcher.ts:136-137 | the sorted list is a permutation of the collected one, longest matched text first, and equal lengths keep document order (a stable sort) |
| Brackets.ResolveAt | src/searcher.ts:111-118 | one `iconizeMatch` call answers that match's outcome and appends exactly the captures it records to the unfound list |
| Brackets.ResolveMatches | src/searcher.ts:109-137 | the loop answers the first thrown error, or the collected replacements sorted longest first, and the unfound list grows by exactly the captures recorded along the way |
| Brackets.BracketsSearch | src/searcher.ts:97-137 | `bracketsSearch` up to the sorted replacement list, over every `[capture]` of the document in order |
| Capture.Run | src/iconizeMatch.ts:20 | a greedy character-class run: every character in it belongs to the class and the one after it, if any, does not |
| Capture.TailAt | src/iconizeMatch.ts:20 | `(?<tail>\s+\((?<option>[^)]+)\))`: at least one whitespace character, then `(`, a non-empty option without `)`, and `)` |
| Capture.MatchAt | src/iconizeMatch.ts:19-20 | a match at a position is the text found there, starting with `[capture]` for a non-empty capture without brackets, not directly followed by `(`; without an option the text is exactly `[capture]` |
| Capture.LinkIsNoMatch | src/iconizeMatch.ts:20 | `(?!\()`: bracket text directly followed by `(`, a Markdown link, is not matched |
| Capture.ScanUnfold | src/iconizeMatch.ts:19-20 | the global search takes a match found at the current position and goes on after its end, or moves one character on |
| Capture.AllFoundCons | src/iconizeMatch.ts:19-20 | a match found at its own index in front of matches found after it keeps every match found at its index |
| Capture.ScanSound | src/searcher.ts:109 | every match `matchAll` reports is the match of `capture_rgx` at its own index, at or after the search start |
| Capture.DisjointCons | src/iconizeMatch.ts:19-20 | a match ending before a disjoint list starts keeps it disjoint |
| Capture.ScanDisjoint | src/searcher.ts:109 | the matches `matchAll` reports do not overlap, and come in document order |
| IconizeMatch.FilterByOption | src/iconizeMatch.ts:22-39 | without an option all candidates; with one, exactly the candidates it admits (a digit option matches the meta, any other is a lowercase prefix of the mod abbreviation, the mod name or the source), in their order |
| IconizeMatch.SameImageKeepsCandidates | src/iconizeMatch.ts:76 | the same-image step keeps only candidates it was given |
| IconizeMatch.SameImageEmpty | src/iconizeMatch.ts:76 | the same-image step keeps nothing of an empty list |
| IconizeMatch.RunStepsCons | src/iconizeMatch.ts:87-91 | a step that leaves one candidate or sets `final` returns; otherwise the next step gets its result |
| IconizeMatch.StepsUnrolled | src/iconizeMatch.ts:73-91 | the four filter steps in order: unchanged, by option, same image, by modifiers, each returning on a single candidate, the last also on `final` |
| IconizeMatch.StepsOutcome | src/iconizeMatch.ts:73-97 | a single candidate is returned untouched; everything returned is one of the attempt's candidates and never empty; several are returned only under `(Every)`; what falls through is empty or, without modifiers, several reduced candidates |
| IconizeMatch.CollectIdsSpec | src/iconizeMatch.ts:111-114 | the exact-name collection throws exactly when some `getByID` throws, and otherwise holds exactly the entries the ids find |
| IconizeMatch.ExactAttempts | src/iconizeMatch.ts:108-121 | at most two exact-name attempts, and none exactly when `names_low` has no non-empty name for the lowercased capture |
| IconizeMatch.ExactAttemptsSpec | src/iconizeMatch.ts:111-120 | a first exact attempt is the lone `minecraft` entry among the exact matches; the last one is all exact matches collected from the ids of the name |
| IconizeMatch.Attempts | src/iconizeMatch.ts:103-128 | the attempts in order: command string, the exact-name attempts, the trie, Levenshtein |
| IconizeMatch.CascadeAppend | src/iconizeMatch.ts:81-98 | an attempt that does not end empty decides the cascade and later attempts are not looked at |
| IconizeMatch.CascadeShape | src/iconizeMatch.ts:81-101 | the disambiguator is only asked with more than one candidate and no modifier, no empty list is returned, and a failure comes from a throwing attempt |
| IconizeMatch.RunFilterSteps | src/iconizeMatch.ts:85-91 | the inner loop over `filterSteps` computes exactly the steps' outcome |
| IconizeMatch.RunAttempts | src/iconizeMatch.ts:80-101 | the outer loop answers what the cascade decides; the unfound list grows only when the disambiguator records the raw capture |
| IconizeMatch.IconizeMatch | src/iconizeMatch.ts:41-101 | a blank capture or `x`/`X` answers `undefined`; otherwise the refined capture drives the attempts, and the result and the recorded captures are those of the cascade |
| IconizeMatch.CommandStringDecides | src/iconizeMatch.ts:105 | a command string that finds its entry is the match's result, whatever the later attempts do |
| IconizeMatch.ExactNameBeforeTrie | src/iconizeMatch.ts:105-125 | when the command string finds nothing, a deciding exact-name attempt is the result, before the trie and Levenshtein |
| IconizeMatch.EmptiedAttemptAsWritten | src/modifiers.ts:21 | on an attempt the option emptied, the corrected `(Any)` ends it empty, while the written one returns `[undefined]` |
| Modifiers.Pattern | src/modifiers.ts:20-21 | each modifier's literal, lowercased, is a non-empty text in parentheses |
| Modifiers.SpaceRun | src/modifiers.ts:20-21 | `\s*` is the longest run of white space at a position |
| Modifiers.OccursLaterFrom | src/modifiers.ts:20-21 | an occurrence from a later position is an occurrence from an earlier one |
| Modifiers.OccursLater | src/modifiers.ts:20-21 | an occurrence at a position is an occurrence from every earlier position |
| Modifiers.MatchAt | src/modifiers.ts:20-21 | a match of `\s*PAT\s*` at a position ends after it and within the text |
| Modifiers.ReplaceFlag | src/modifiers.ts:9-10 | the replace callback, which sets `isMatch`, runs exactly when the pattern occurs case-insensitively in the capture |
| Modifiers.ReplaceNoMatch | src/modifiers.ts:9-10 | without a match the replace leaves the text unchanged |
| Modifiers.ReplaceNoMatchWhole | src/modifiers.ts:9-10 | without a match the whole capture is unchanged by the replace |
| Modifiers.CreateModifierSpec | src/modifiers.ts:6-16 | a modifier returns its filter exactly when its pattern occurs; otherwise the refined capture is the capture trimmed |
| Modifiers.CreateModifierTrims | src/modifiers.ts:9-11 | the refined capture is always trimmed |
| Modifiers.MapModifiers | src/modifiers.ts:25-32 | the loop threads the reassigned capture through the modifiers in order and keeps the filters of those that matched, in list order |
| Modifiers.Refine | src/modifiers.ts:24-32 | `refine` runs `(Every)` then `(Any)` on the raw capture |
| Modifiers.RunTwo | src/modifiers.ts:25-32 | with two modifiers the second runs on the capture the first left |
| Modifiers.OccursInSlice | src/modifiers.ts:9-11 | an occurrence in a slice of the text is an occurrence in the text |
| Modifiers.OccursInPart | src/modifiers.ts:9-11 | an occurrence in a part of the text is an occurrence in the whole |
| Modifiers.OccursInTrim | src/modifiers.ts:11 | trimming never creates an occurrence of a pattern |
| Modifiers.RefineFiltersOf | src/modifiers.ts:24-32 | for modifiers that behave as `createModifier` does: `(Every)` is kept exactly when it occurs, the kept filters are both, one or none, and with neither pattern the capture is only trimmed |
| Modifiers.RefineFilters | src/modifiers.ts:24-32 | `refine` keeps `(Every)` exactly when it occurs in the raw capture, keeps at most both filters in list order, and with neither pattern only trims the capture |
| Modifiers.Filter | src/modifiers.ts:20-21 | `(Every)` keeps the list, `(Any)` keeps its first candidate (none of an empty list, the intended reading); `final` is set exactly when the list is non-empty |
| Modifiers.ModifierFilterResult | src/modifiers.ts:36-43 | the reduce cuts the list to its first candidate when `(Any)` was kept and leaves it otherwise; `final` is set exactly when some filter was kept and the list is non-empty |
| Modifiers.ModifierFilterNone | src/modifiers.ts:36-43 | with no filter the reduce returns the list unchanged with `final` false |
| Modifiers.FilterAsWritten | src/modifiers.ts:21 | the written `(Any)` filter always answers a one-element list, `[d[0]]` |
| Modifiers.Lift | src/modifiers.ts:21 | candidates as a list that may hold `undefined`, item by item |
| Modifiers.ModifierFilterAsWrittenAgrees | src/modifiers.ts:20-21 | on a non-empty list the written filters and the corrected ones agree |
| Modifiers.ModifierFilterAsWrittenOnEmpty | src/modifiers.ts:21 | on an empty list the written `(Any)` answers `[undefined]` where the corrected one answers nothing |
| Unclear.Back | src/unclear.ts:12-14 | the backward scan stops on the `lines + 1`-th line break before the match, or at -1 when there are fewer |
| Unclear.Fwd | src/unclear.ts:16-18 | the forward scan stops on the `lines + 1`-th line break after the match, or at the end of the input (one past it only when the match is at the very end) |
| Unclear.LinesOfMatch | src/unclear.ts:11-21 | the two loops leave `start` and `end` where the scans stop, and the text is the input between them |
| Unclear.BackNearest | src/unclear.ts:14 | with `lines = 0`, `start` is the nearest line break before the match, and -1 only when there is none |
| Unclear.FwdNearest | src/unclear.ts:18 | with `lines = 0`, `end` is the nearest line break after the match, or the end of the input with no line break in between |
| Unclear.LineOfIndex | src/unclear.ts:11-21 | the default call shows exactly the line holding the match, with its leading line break when there is one |
| Unclear.NbtToString | src/unclear.ts:23-28 | nothing for no NBT; otherwise a space and the NBT, cut to 49 characters and an ellipsis when longer than 50 |
| Unclear.SliceEnd | src/unclear.ts:32 | `slice(0, end)` keeps `end` items, counting a negative `end` back from the length, never more than there are |
| Unclear.MenuRows | src/unclear.ts:30-34 | the menu shows the labels of the first `height - 8` items and, when some are hidden, one more row counting them |
| Unclear.GridMenu | src/unclear.ts:35-38 | the answer is the item at the selected row index of the full list, and `undefined` when the menu is cancelled or the index is past the list |
| Unclear.OtherVariantsRowPicksFirstHidden | src/unclear.ts:34-38 | selecting the "and other N variants" row answers the first hidden item |
| Unclear.FirstOccurrencesShorter | src/unclear.ts:113 | keeping one item per key never gives more items |
| Unclear.UniqCountDistinct | src/unclear.ts:112-113 | `uniqBy` keeps every item exactly when the keys are distinct |
| Unclear.UniqCountConstant | src/unclear.ts:118 | `uniqBy` of items with one key keeps one |
| Unclear.KindAsWritten | src/unclear.ts:112-145 | because entries have no `modid`, the mod menu is never offered; the name menu is offered exactly when names are distinct, the meta menu exactly when names repeat and metas are distinct |
| Unclear.Narrow | src/unclear.ts:103-106 | the offered items are the exact-name matches when there are two or more of them, otherwise all candidates, in their order |
| Unclear.ResolveSpec | src/unclear.ts:98-155 | `resolve` records the capture exactly when there is nothing to offer or the run is silent, and then answers `undefined`; any answer is a candidate, and an exact-name match when two or more candidates bear the capture's name |
| Unclear.MaxLen | src/unclear.ts:54-57 | the intended `maxLen`: a length of some capture, and no capture is longer |
| Unclear.MaxLenAsWrittenSpec | src/unclear.ts:54-57 | the `maxLen` `print` computes is one of the lengths and the greatest of them in the decimal-string order of `.sort()` |
| Unclear.DecimalLeTotalPreorder | src/unclear.ts:56 | `.sort()` without a comparator orders numbers by a total preorder, their decimal strings compared |
| Unclear.MaxLenAsWrittenCounterexample | src/unclear.ts:54-57 | for captures of lengths 9 and 10 the written `sort().pop()` gives 9, while the longest is 10 |
| Unclear.ColumnsFloor | src/unclear.ts:58-59 | for a terminal narrower than 2^31 the column count is the width divided by `maxLen + 4`, and at least 1 |
| Unclear.Cells | src/unclear.ts:62-64 | each capture becomes a cell `[capture]` padded to `maxLen`, in recorded order |
| Unclear.Lengths | src/unclear.ts:54-55 | the length of each capture, in order |
| Unclear.LodashChunkLayout | src/unclear.ts:61-66 | `_.chunk` with a positive size keeps every cell in order, in full rows except a shorter last one |
| Unclear.GridLayout | src/unclear.ts:54-69 | with `maxLen` as `print` computes it (the string-sorted `.sort().pop()`), `print` lays out every recorded capture once, in order, in ceil(n / columns) rows of at most `columns` cells, with at least one column |
| Unclear.Unclear.constructor | src/unclear.ts:42-45 | a new disambiguator has recorded nothing and keeps the `silent` flag |
| Unclear.Unclear.CantBeFound | src/unclear.ts:73-75 | `cantBeFound` appends the capture to the unfound list |
| Unclear.Unclear.DoYouMean | src/unclear.ts:77-96 | `doYouMean` answers `undefined` when silent, and otherwise the generic menu's pick, which is one of the entries |
| Unclear.Unclear.Resolve | src/unclear.ts:98-155 | `resolve` answers and records exactly what the resolution outcome says |
| Unclear.Unclear.Print | src/unclear.ts:47-71 | `print` writes nothing exactly when the run is silent or every capture was resolved |
| JsObject.Put | src/tool/images.ts:92 | `o[k] = v` sets the key and leaves every other key; an existing key keeps its place, a new non-index key is enumerated last |
| JsObject.Delete | src/tool/images.ts:41 | `delete o[k]` removes exactly that key |
| JsObject.Values | src/lib/sprite.ts:17 | `Object.values` lists the value of each key in enumeration order |
| JsObject.First | src/getIcon.ts:38 | `Object.values(o)[0]` is absent exactly for an object with no key |
| JsObject.FirstIsSmallestIndex | src/getIcon.ts:38 | when an object has an array-index key, `Object.values(o)[0]` is the value under the smallest one |
| JsObject.PutNextKey | src/assetEx.ts:81 | writing the keys of an enumeration, in that order, into a fresh object reproduces the order |
| JsObject.MapValues | src/assetEx.ts:81 | an object with every value transformed keeps its keys and their order |
| JsObject.CopyDone | src/assetEx.ts:81 | a finished key-by-key copy loop has built the transformed object |
| JsMap.IndexOf | src/iconizeMatch.ts:76 | a key's position in a `Map` is its first and only slot, and absent exactly when the key is not there |
| JsMap.Set | src/iconizeMatch.ts:76 | `map.set` makes the key read the new value, leaves other keys, and appends only a new key |
| JsMap.LastIndexSnoc | src/lib/sprite.ts:33-35 | an appended key becomes its own last occurrence; other keys keep theirs |
| JsMap.FromEntriesSpec | src/iconizeMatch.ts:76 | `new Map(entries)` has one entry per distinct key, in first-occurrence order, holding the value of the last entry with that key |
| JsMap.DedupByKeySpec | src/iconizeMatch.ts:76 | the same-image list keeps one candidate per icon, ordered by the first candidate with that icon, and that one is the last candidate with it |
| Sorting.SortPermutes | src/searcher.ts:137 | the stable sort returns a permutation of its input |
| Sorting.SortSorted | src/searcher.ts:137 | under a total preorder the result is ascending |
| Sorting.SortStable | src/searcher.ts:137 | elements the order cannot tell apart keep their input order |
| Text.ToLower | src/iconizeMatch.ts:108 | lowercasing maps every character and keeps the length |
| Text.TrimStart | src/modifiers.ts:11 | the leading white space, and only it, is removed |
| Text.TrimEnd | src/modifiers.ts:11 | the trailing white space, and only it, is removed |
| Text.TrimIdempotent | src/modifiers.ts:11 | trimming a trimmed text changes nothing |
| Text.TrimEmptyIffAllSpace | src/iconizeMatch.ts:61 | `!rawCapture.trim()` holds exactly for a capture made only of white space |
| Text.NatToStringValue | src/unclear.ts:34 | the decimal text of a number reads back as that number |
| Text.NatToStringInjective | src/unclear.ts:34 | different numbers print differently |
| Text.SplitJoin | src/base.ts:4 | joining the pieces of `split(':')` gives the id back |
| Text.SplitPieces | src/base.ts:4 | `split(c)` gives one piece more than there are separators, none containing it |
| Text.SplitHead | src/base.ts:4 | the first piece of `split(c)` is the text before the first separator |
| Text.PadEnd | src/unclear.ts:63 | `padEnd(n)` keeps the text as a prefix and reaches at least `n` characters |
| Text.LexLeTotal | src/tool/assets.ts:97 | the default string order compares any two strings |
| Text.LexLeTransitive | src/tool/assets.ts:97 | the default string order is transitive |
| Text.LexLeAntisymmetric | src/tool/assets.ts:97 | strings the default order puts both ways are equal |
| Lists.Keep | src/iconizeMatch.ts:117 | `filter` keeps exactly the elements satisfying the predicate, in their order |
| Lists.KeepAll | src/iconizeMatch.ts:117 | a filter every element passes returns the list |
| Lists.KeepAppend | src/iconizeMatch.ts:117 | filtering a concatenation is the concatenation of the filtered parts |
| JsObject.InsertIndexOrdered | src/getIcon.ts:38 | a new array-index key goes among the index keys in ascending numeric order, keeping the keys distinct and in enumeration order |
| JsObject.IndexKeyInjective | src/assetEx.ts:32 | two array-index keys with the same numeric value are the same key, as `def[0]` and `def['0']` are |
| Text.Substring | src/unclear.ts:20 | `substring` clamps its bounds to the text and never answers more than the text |

## Left out

- File and network I/O: loading and saving JSON, globbing, `unlink`, `mkdir`, `copyFile`, and image hashing. The data they give or take is a parameter or a result of the model.
- Terminal rendering: colours (`chalk`), `terminal-kit` menus and prompts. The menu is an abstract `choose` function over the offered rows that may cancel.
- `JSON.stringify` escaping. Stringified values are compared as opaque strings.
- The floating-point `rowCount` of the sprite. `rowAmount` is an input, and only the integer cell arithmetic is modelled.
- `Number` precision and float division in the summary's column count. Only the `| 0` truncation of the integer quotient is modelled.
- `localeCompare`: a tie order `tieLe` is a parameter, required to be a total preorder.
- Asynchronous ordering. `callInChunks` is modelled only as the chunk loop of Prune.PruneDir, one chunk after another; the concurrency of `grabImages` is not modelled beyond the destination name of each image.
- Console output and the progress log of the tooling.
- The short-URL replacement phase of `bracketsSearch` (`src/searcher.ts:157-201`), which calls the `is.gd` service.
- The trie (`src/trie.ts`, the `@committed/trie-search` package). Its search is an abstract function given to the cascade.
- `asset.names_low` is an input table, not rebuilt from `asset.names`.
- `toLowerCase` and `toLocaleLowerCase` are modelled on ASCII only. Other characters are left unchanged.
- Properties inherited from `Object.prototype` are not modelled as keys of a plain object.
- Error message texts are approximate. Only which calls throw is modelled.
- `src/cli.ts`, `src/index.ts`, `src/lib/isgd.ts`, `src/tool/sprite.ts`, `src/tool/placeholder.ts`, `src/tool/preparse.ts` and `src/tool/images/index.ts` are not part of this model: they are command-line wiring, network calls and image processing.
- Brackets.BracketsSearch: stops before `unclear.print()`, which is modelled on its own as Unclear.Unclear.Print.
- IconizeMatch.IconizeMatch: runs the corrected `(Any)` of Finding 1; as written, an attempt the option filter empties ends in `[undefined]` under `(Any)`, which IconizeMatch.EmptiedAttemptAsWritten exhibits.
- IconizeMatch.RunAttempts: moves on past an attempt the option filter empties even under `(Any)`, where the code as written returns `[undefined]` (Finding 1).
- IconizeMatch.RunFilterSteps: ends an emptied list empty under `(Any)`, where the code as written gives `[undefined]` (Finding 1).
- GetIcon.IconStore: its `nbtHashMap` is the corrected inverse of Finding 3, not the one as written.
- Assets.SortedNamesSpec: assumes that no name key is an array index, so that the object's key order is the insertion order.
- Assets.RebuiltUpToKeys: assumes that no name key is an array index.
- Unclear.GridLayout: covers terminal widths below 2^31 only, where `| 0` is plain truncation.
- Unclear.ColumnsFloor: covers terminal widths below 2^31 only.
- Unclear.Unclear.Print: states only when nothing is printed. The layout of what is printed is stated by Unclear.GridLayout.
- Text.ToLower: covers ASCII letters only.
- JavaScript strings are sequences of UTF-16 code units, while a Dafny `char` is a Unicode scalar value. For text outside the Basic Multilingual Plane the model differs in `.length` (Brackets.LongerFirst, Unclear.Lengths, Unclear.MaxLen, Text.Substring), in the edit distance, which the `fast-levenshtein` package computes on char codes, in the order of `.sort()` without a comparator (Text.LexLe, used by Assets.SortIds), and in a regex `.` consuming one code unit (Names.StripColor, Jeie, Prune).
- Jeie.NameAt: reads the meta digits as an exact natural number, while `Number(groups.meta) || 0` rounds runs beyond 2^53 and gives `Infinity` for about 309 digits or more.

## Findings

| source | as written | input that shows it | evidently intended | confidence | as-written member | corrected member |
|---|---|---|---|---|---|---|
| src/modifiers.ts:21 | `(Any)` maps a list `d` to `[d[0]]`, so an empty list becomes `[undefined]`, one element, and `iconizeMatch` returns it as a result | `[Foo (Any)] (ic2)` where the attempt has two candidates and neither is from a mod matching `ic2`: the option filter empties the list and `(Any)` turns it into `[undefined]` | an empty list stays empty, so the cascade moves on to its next attempt | not executed | Modifiers.ModifierFilterAsWrittenOnEmpty | Modifiers.ModifierFilterResult |
| src/unclear.ts:54-57 | the capture lengths are sorted with `.sort()`, which compares numbers as strings, and the last one is taken as the longest | captures of lengths 9 and 10: `[9, 10].sort()` is `[10, 9]`, so `maxLen` is 9 | the largest length, 10 | not executed | Unclear.MaxLenAsWrittenCounterexample | Unclear.MaxLen |
| src/getIcon.ts:20-22 | the inverse table stores `assetsImages[nbtHash]`, an image path, under each sNbt | item `src:e` whose stack has slot `''` (image `p0`) and slot `h1` (image `p1`), with `nbt.json` mapping `h1` to `{a:1}` and `images.json` holding no key `h1`: `getIcon` of `src:e` with sNbt `{a:1}` reads slot `''` and gives `p0` | the table maps each sNbt to its hash, so the lookup reads slot `h1` and gives `p1` | not executed | GetIcon.NbtHashMapAsWrittenCounterexample | GetIcon.NbtHashMapFirstWins |
