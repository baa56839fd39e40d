/** The height cache: one last-measured pixel height per row, kept as long as
    the item list, filled with the estimated row height for rows never measured,
    and corrected in place when a mounted row reports its real height. */
module HeightStore {
  import opened U32

  /** Every row is assumed to be 100px tall until it has been measured. */
  const ESTIMATED_ITEM_HEIGHT: u32 := 100

  /** `heights.resize(total, ESTIMATED_ITEM_HEIGHT)`. */
  function Resized(h: seq<u32>, total: nat): (r: seq<u32>)
    ensures |r| == total
    ensures forall i :: 0 <= i < |h| && i < total ==> r[i] == h[i]
    ensures forall i :: |h| <= i < total ==> r[i] == ESTIMATED_ITEM_HEIGHT
  {
    if total <= |h| then h[..total] else h + seq(total - |h|, _ => ESTIMATED_ITEM_HEIGHT)
  }

  /** The write-back of a measured height for row `idx`: an index past the end
      is ignored, and so is a value equal to the one stored. */
  function Written(h: seq<u32>, idx: nat, measured: u32): (r: seq<u32>)
    ensures |r| == |h|
    ensures forall i :: 0 <= i < |h| && i != idx ==> r[i] == h[i]
    ensures idx < |h| ==> r[idx] == measured
  {
    if idx < |h| && h[idx] != measured then h[idx := measured] else h
  }

  /** The cache changes exactly when the index is in range and the value is new. */
  lemma WrittenChangesIff(h: seq<u32>, idx: nat, measured: u32)
    ensures Written(h, idx, measured) != h <==> idx < |h| && h[idx] != measured
  {
    if idx < |h| && h[idx] != measured {
      assert Written(h, idx, measured)[idx] != h[idx];
    }
  }

  /** Writing the same measurement twice: the second write is a no-op. */
  lemma WrittenIdempotent(h: seq<u32>, idx: nat, measured: u32)
    ensures Written(Written(h, idx, measured), idx, measured) == Written(h, idx, measured)
  {
  }

  /** Aligning the cache to the current length a second time changes nothing. */
  lemma ResizedIdempotent(h: seq<u32>, total: nat)
    ensures Resized(Resized(h, total), total) == Resized(h, total)
  {
  }

  /** Shrinking and growing the list keeps the measured heights of the rows
      that survive both, and resets the others to the estimate. */
  lemma ResizedTwice(h: seq<u32>, m: nat, n: nat)
    ensures forall i :: 0 <= i < n ==>
      Resized(Resized(h, m), n)[i] == (if i < |h| && i < m then h[i] else ESTIMATED_ITEM_HEIGHT)
  {
  }

  /** The per-list height cache (a `Vec<u32>` held in a signal). */
  class HeightCache {
    var heights: seq<u32>

    /** `vec![ESTIMATED_ITEM_HEIGHT; total]` on first render. */
    constructor (total: nat)
      ensures heights == seq(total, _ => ESTIMATED_ITEM_HEIGHT)
    {
      heights := seq(total, _ => ESTIMATED_ITEM_HEIGHT);
    }

    /** Keeps the cache length aligned with the item count; reports whether it
        had to resize. */
    method Sync(total: nat) returns (resized: bool)
      modifies this
      ensures resized == (|old(heights)| != total)
      ensures heights == Resized(old(heights), total)
      ensures |heights| == total
    {
      resized := |heights| != total;
      if resized {
        heights := Resized(heights, total);
      } else {
        assert heights[..total] == heights;
      }
    }

    /** Stores a row's measured height; reports whether the cache changed. */
    method WriteBack(idx: nat, measured: u32) returns (written: bool)
      modifies this
      ensures written == (idx < |old(heights)| && old(heights)[idx] != measured)
      ensures heights == Written(old(heights), idx, measured)
      ensures written ==> heights == old(heights)[idx := measured]
      ensures !written ==> heights == old(heights)
    {
      written := idx < |heights| && heights[idx] != measured;
      if written {
        heights := heights[idx := measured];
      }
    }
  }

  /** Two successive identical measurements of the same row: only the first
      can change the cache. */
  method WriteBackTwice(cache: HeightCache, idx: nat, measured: u32) returns (first: bool, second: bool)
    modifies cache
    ensures !second
    ensures cache.heights == Written(old(cache.heights), idx, measured)
  {
    first := cache.WriteBack(idx, measured);
    second := cache.WriteBack(idx, measured);
  }
}
