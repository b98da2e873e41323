/**
 * src/tool/nbt.ts: the registry of serialized NBT (`sNbt`) strings met while
 * generating assets, keyed by their hash (`sNbtMap`), and the set of the
 * strings already registered (`existsNbt`), both module-level state.
 */
module Nbt {
  import opened Wrappers
  import opened JsObject

  /** A string that is not `undefined` and not `''`. */
  predicate Truthy(s: Option<string>) {
    s.Some? && s.value != ""
  }

  /** The registry's state: `sNbtMap` and `existsNbt`. */
  datatype Registry = Registry(sNbtMap: Obj<string>, existsNbt: set<string>)

  /** Every stored sNbt is in `existsNbt`. */
  predicate Consistent(r: Registry) {
    forall h :: h in r.sNbtMap.vals ==> r.sNbtMap.vals[h] in r.existsNbt
  }

  /** `addNbt(nbtHash, sNbt)` on a state. */
  function AddNbt(r: Registry, nbtHash: Option<string>, sNbt: Option<string>): (r': Registry)
    ensures !Truthy(nbtHash) || !Truthy(sNbt) || sNbt.value in r.existsNbt ==> r' == r
    ensures Truthy(nbtHash) && Truthy(sNbt) && sNbt.value !in r.existsNbt ==>
      && r'.existsNbt == r.existsNbt + {sNbt.value}
      && Get(r'.sNbtMap, nbtHash.value) == Some(sNbt.value)
      && forall h :: h != nbtHash.value ==> Get(r'.sNbtMap, h) == Get(r.sNbtMap, h)
  {
    if Truthy(nbtHash) && Truthy(sNbt) && sNbt.value !in r.existsNbt then
      Registry(Put(r.sNbtMap, nbtHash.value, sNbt.value), r.existsNbt + {sNbt.value})
    else r
  }

  /** `getsNbt(nbtHash)` */
  function GetsNbt(r: Registry, nbtHash: Option<string>): (s: Option<string>)
    ensures !Truthy(nbtHash) ==> s.None?
  {
    if Truthy(nbtHash) then Get(r.sNbtMap, nbtHash.value) else None
  }

  /** Adding keeps every stored sNbt registered. */
  lemma AddNbtConsistent(r: Registry, nbtHash: Option<string>, sNbt: Option<string>)
    requires Consistent(r)
    ensures Consistent(AddNbt(r, nbtHash, sNbt))
  {
    var r' := AddNbt(r, nbtHash, sNbt);
    forall h | h in r'.sNbtMap.vals
      ensures r'.sNbtMap.vals[h] in r'.existsNbt
    {
      assert Get(r'.sNbtMap, h).Some?;
    }
  }

  /** After a successful add, the hash reads back the sNbt. */
  lemma GetAfterAdd(r: Registry, nbtHash: string, sNbt: string)
    requires nbtHash != "" && sNbt != "" && sNbt !in r.existsNbt
    ensures GetsNbt(AddNbt(r, Some(nbtHash), Some(sNbt)), Some(nbtHash)) == Some(sNbt)
  {
  }

  /**
   * An sNbt is registered at most once: once added, a later call with the
   * same sNbt changes nothing, whatever hash it comes with.
   */
  lemma RegisteredOnce(r: Registry, h1: string, h2: string, sNbt: string)
    requires h1 != ""
    ensures var r1 := AddNbt(r, Some(h1), Some(sNbt));
      AddNbt(r1, Some(h2), Some(sNbt)) == r1
  {
  }

  /** A new sNbt under a hash already in use replaces what that hash read back. */
  lemma NewSNbtOverwritesHash(r: Registry, h: string, s1: string, s2: string)
    requires h != "" && s1 != "" && s2 != "" && s1 != s2 && s1 !in r.existsNbt && s2 !in r.existsNbt
    ensures GetsNbt(AddNbt(AddNbt(r, Some(h), Some(s1)), Some(h), Some(s2)), Some(h)) == Some(s2)
  {
  }

  /** The module state of src/tool/nbt.ts. */
  class NbtStore {
    var sNbtMap: Obj<string>
    var existsNbt: set<string>

    function State(): Registry
      reads this
    {
      Registry(sNbtMap, existsNbt)
    }

    constructor ()
      ensures sNbtMap == Empty() && existsNbt == {}
      ensures Consistent(State())
    {
      sNbtMap := Empty();
      existsNbt := {};
    }

    /** `addNbt(nbtHash, sNbt)` */
    method Add(nbtHash: Option<string>, sNbt: Option<string>)
      modifies this
      ensures State() == AddNbt(old(State()), nbtHash, sNbt)
    {
      if Truthy(nbtHash) && Truthy(sNbt) && sNbt.value !in existsNbt {
        existsNbt := existsNbt + {sNbt.value};
        sNbtMap := Put(sNbtMap, nbtHash.value, sNbt.value);
      }
    }

    /** `getsNbt(nbtHash)` */
    function Lookup(nbtHash: Option<string>): (s: Option<string>)
      reads this
      ensures s == GetsNbt(State(), nbtHash)
    {
      if nbtHash.Some? && nbtHash.value != "" then Get(sNbtMap, nbtHash.value) else None
    }
  }
}
