/**
 * One indexed item (`DictEntry`, src/searcher.ts): its display name, its id
 * and the id's parts, and the name of the mod that defines it.
 */
module DictEntries {
  import opened Wrappers

  datatype DictEntry = DictEntry(
    name: string,
    name_low: string,
    id: string,
    modname: string,
    modAbbr: string,
    source: string,
    /** `undefined` for an id without `:` */
    entry: Option<string>,
    meta: string,
    sNbt: string)

  /** The property key an entry is stored under: `undefined` becomes "undefined". */
  function EntryKey(entry: Option<string>): string {
    entry.GetOr("undefined")
  }

  /** The lookup-tree slot `source -> entry -> meta -> sNbt` an entry belongs to. */
  function SlotOf(e: DictEntry): (string, string, string, string) {
    (e.source, EntryKey(e.entry), e.meta, e.sNbt)
  }
}
