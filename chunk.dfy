/**
 * `chunkArray` (src/lib/chunk.ts): `Array.from({ length: Math.ceil(n / size) },
 * (_, i) => array.slice(i * size, i * size + size))`.
 */
module Chunk {
  import opened Wrappers

  const DefaultSize: int := 64

  function CeilDiv(n: nat, d: nat): (r: nat)
    requires d > 0
    ensures r * d >= n && (r == 0 || (r - 1) * d < n)
  {
    (n + d - 1) / d
  }

  function Min(a: int, b: int): int { if a <= b then a else b }

  /** The i-th chunk: `array.slice(i * size, i * size + size)`. */
  function ChunkAt<T>(arr: seq<T>, size: nat, i: nat): seq<T>
    requires size > 0 && i * size <= |arr|
  {
    arr[i * size..Min(i * size + size, |arr|)]
  }

  /**
   * A negative size makes the length `ceil` of a negative number, which
   * `Array.from` clamps to 0. Size 0 gives length `Infinity` for a non-empty
   * array (a `RangeError`) and `NaN`, read as 0, for an empty one.
   */
  function ChunkArray<T>(arr: seq<T>, size: int): (r: Result<seq<seq<T>>>)
    ensures r.Err? <==> size == 0 && arr != []
    ensures r.Ok? && size <= 0 ==> r.value == []
    ensures r.Ok? && size > 0 ==> |r.value| == CeilDiv(|arr|, size)
  {
    if size < 0 then Ok([])
    else if size == 0 then (if arr == [] then Ok([]) else Err("RangeError: Invalid array length"))
    else
      var n := CeilDiv(|arr|, size);
      Ok(seq(n, i requires 0 <= i < n => ChunkAt(arr, size, i)))
  }

  function Flatten<T>(chunks: seq<seq<T>>): seq<T> {
    if chunks == [] then [] else Flatten(chunks[..|chunks| - 1]) + chunks[|chunks| - 1]
  }

  lemma MulMonotone(a: nat, b: nat, c: nat)
    requires a <= b
    ensures a * c <= b * c
  {
  }

  /** The i-th chunk starts inside the array. */
  lemma ChunkStart(n: nat, size: nat, i: nat)
    requires size > 0 && i < CeilDiv(n, size)
    ensures i * size < n
  {
    MulMonotone(i, CeilDiv(n, size) - 1, size);
  }

  lemma {:induction false} FlattenPrefix<T>(arr: seq<T>, size: nat, k: nat)
    requires size > 0 && k <= CeilDiv(|arr|, size)
    ensures Flatten(ChunkArray(arr, size).value[..k]) == arr[..Min(k * size, |arr|)]
  {
    var cs := ChunkArray(arr, size).value;
    if k > 0 {
      FlattenPrefix(arr, size, k - 1);
      var lo := (k - 1) * size;
      assert k * size == lo + size;
      ChunkStart(|arr|, size, k - 1);
      var hi := Min(lo + size, |arr|);
      assert cs[..k][..k - 1] == cs[..k - 1];
      assert cs[k - 1] == arr[lo..hi];
      assert arr[..hi] == arr[..lo] + arr[lo..hi];
    }
  }

  /** The chunks concatenate back to the input. */
  lemma ChunksConcat<T>(arr: seq<T>, size: int)
    requires size > 0
    ensures ChunkArray(arr, size).Ok? && Flatten(ChunkArray(arr, size).value) == arr
  {
    var cs := ChunkArray(arr, size).value;
    FlattenPrefix(arr, size, |cs|);
    assert cs[..|cs|] == cs;
    assert |cs| * size >= |arr|;
  }

  /** Every chunk but the last holds exactly `size` elements; the last one is non-empty. */
  lemma ChunkSizes<T>(arr: seq<T>, size: int)
    requires size > 0
    ensures var cs := ChunkArray(arr, size).value;
      && (forall i :: 0 <= i < |cs| - 1 ==> |cs[i]| == size)
      && (cs != [] ==> 0 < |cs[|cs| - 1]| <= size)
  {
    var cs := ChunkArray(arr, size).value;
    var n := |cs|;
    forall i | 0 <= i < n - 1 ensures |cs[i]| == size {
      ChunkStart(|arr|, size, i + 1);
      assert (i + 1) * size == i * size + size;
    }
    if n > 0 {
      ChunkStart(|arr|, size, n - 1);
    }
  }

  /** The default size is 64, and an empty array gives no chunks whatever the size. */
  lemma EmptyInput<T>(size: int)
    ensures ChunkArray<T>([], size) == Ok([])
    ensures ChunkArray<T>([], DefaultSize) == Ok([]) && DefaultSize == 64
  {
  }
}
