/** The range resolver: from the scroll offset, the viewport and the buffer it
    picks the contiguous block of rows to render and the heights of the two
    spacers that stand in for the rows above and below it. */
module RangeResolver {
  import opened U32
  import opened Search
  import opened PrefixSums
  import opened HeightStore

  /** Where the list runs: in a browser (wasm) with a measured window height,
      or anywhere else, where there is no live viewport. */
  datatype Platform = Wasm(viewportHeight: u32) | Native

  /** Rows `renderStart .. endIdx - 1` are rendered between a top spacer and a
      bottom spacer of the given pixel heights. */
  datatype Window = Window(renderStart: nat, endIdx: nat, topSpacer: u32, bottomSpacer: u32)

  /** The viewport height used for the range: the measured height but never
      below one estimated row in a browser, and eight estimated rows elsewhere. */
  function ViewportPx(p: Platform): (r: u32)
    ensures r >= ESTIMATED_ITEM_HEIGHT
    ensures p.Native? ==> r == 8 * ESTIMATED_ITEM_HEIGHT
    ensures p.Wasm? ==> r >= p.viewportHeight && (r == p.viewportHeight || r == ESTIMATED_ITEM_HEIGHT)
  {
    match p
    case Wasm(v) => Max(v, ESTIMATED_ITEM_HEIGHT)
    case Native => SatMul(ESTIMATED_ITEM_HEIGHT, 8)
  }

  /** The buffer, given in estimated rows, converted to pixels: `(buffer as u32)
      .saturating_mul(100)`. */
  function BufferPx(buffer: nat): (r: u32)
    ensures Truncate(buffer) * ESTIMATED_ITEM_HEIGHT <= U32_MAX ==> r == Truncate(buffer) * ESTIMATED_ITEM_HEIGHT
    ensures Truncate(buffer) * ESTIMATED_ITEM_HEIGHT > U32_MAX ==> r == U32_MAX
    ensures buffer * ESTIMATED_ITEM_HEIGHT <= U32_MAX ==> r == buffer * ESTIMATED_ITEM_HEIGHT
    ensures buffer % U32_MODULUS == 0 ==> r == 0
  {
    SatMul(Truncate(buffer), ESTIMATED_ITEM_HEIGHT)
  }

  /** `item_at(y)`: `partition_point(acc <= y)` minus one, saturating at 0; the
      greatest index whose cumulative height is at most `y`. */
  function ItemAt(prefix: seq<u32>, y: u32): (r: nat)
    requires Monotone(prefix)
    ensures |prefix| > 0 ==> r < |prefix|
    ensures |prefix| > 0 && prefix[0] <= y ==> prefix[r] <= y
    ensures forall j :: r < j < |prefix| ==> y < prefix[j]
    ensures (|prefix| == 0 || y < prefix[0]) ==> r == 0
  {
    MonotonePartitioned(prefix, AtMost(y));
    var count := PartitionPoint(prefix, AtMost(y));
    if count == 0 then 0 else count - 1
  }

  /** `partition_point(acc < target)`: the smallest index whose cumulative height
      reaches `target`, or the length of `prefix` when none does. */
  function FirstAtLeast(prefix: seq<u32>, target: u32): (r: nat)
    requires Monotone(prefix)
    ensures r <= |prefix|
    ensures r < |prefix| ==> target <= prefix[r]
    ensures forall j :: 0 <= j < r ==> prefix[j] < target
  {
    MonotonePartitioned(prefix, Below(target));
    PartitionPoint(prefix, Below(target))
  }

  /** `current_scroll.min(total_height.saturating_sub(1))`. */
  function ClampScroll(scroll: u32, totalHeight: u32): (r: u32)
    ensures r <= scroll
    ensures totalHeight > 0 ==> r < totalHeight
    ensures scroll < totalHeight ==> r == scroll
    ensures totalHeight > 0 && scroll >= totalHeight ==> r == totalHeight - 1
    ensures totalHeight == 0 ==> r == 0
  {
    Min(scroll, SatSub(totalHeight, 1))
  }

  /** Top of the buffered region: `bufferPx` above the clamped scroll offset,
      or the top of the list. */
  function StartOffset(scroll: u32, totalHeight: u32, bufferPx: u32): (r: u32)
    ensures r <= ClampScroll(scroll, totalHeight)
    ensures bufferPx <= ClampScroll(scroll, totalHeight) ==> r + bufferPx == ClampScroll(scroll, totalHeight)
    ensures ClampScroll(scroll, totalHeight) < bufferPx ==> r == 0
  {
    SatSub(ClampScroll(scroll, totalHeight), bufferPx)
  }

  /** Bottom of the buffered region: viewport and buffer below the clamped
      scroll offset, saturating; strictly past the offset once the viewport
      is at least one pixel tall. */
  function EndTarget(scroll: u32, totalHeight: u32, viewportPx: u32, bufferPx: u32): (r: u32)
    ensures ClampScroll(scroll, totalHeight) <= r
    ensures viewportPx >= 1 && totalHeight > 0 ==> ClampScroll(scroll, totalHeight) < r
    ensures ClampScroll(scroll, totalHeight) + viewportPx + bufferPx <= U32_MAX ==>
      r == ClampScroll(scroll, totalHeight) + viewportPx + bufferPx
    ensures ClampScroll(scroll, totalHeight) + viewportPx + bufferPx > U32_MAX ==> r == U32_MAX
  {
    SatAdd(SatAdd(ClampScroll(scroll, totalHeight), viewportPx), bufferPx)
  }

  /** The well-formed prefix index the resolver is handed: one entry per row
      after a leading 0, non-decreasing, with the total as its last entry. */
  predicate IsIndex(prefix: seq<u32>, totalHeight: u32, total: nat) {
    |prefix| == total + 1 && prefix[0] == 0 && Monotone(prefix) && totalHeight == prefix[total]
  }

  /** `(render_start, end_idx)` before the degenerate-window guard. */
  function Range(prefix: seq<u32>, totalHeight: u32, total: nat, scroll: u32, viewportPx: u32, bufferPx: u32): (r: (nat, nat))
    requires IsIndex(prefix, totalHeight, total)
    ensures r.0 <= total && r.1 <= total
    ensures total == 0 ==> r == (0, 0)
    ensures total > 0 && totalHeight > 0 ==>
      var y := StartOffset(scroll, totalHeight, bufferPx);
      r.0 < total && prefix[r.0] <= y < prefix[r.0 + 1]
    ensures total > 0 ==>
      var target := EndTarget(scroll, totalHeight, viewportPx, bufferPx);
      (forall j :: 0 <= j < r.1 ==> prefix[j] < target) && (r.1 < total ==> target <= prefix[r.1])
  {
    if total == 0 then (0, 0)
    else
      var renderStart := ItemAt(prefix, StartOffset(scroll, totalHeight, bufferPx));
      var endIdx := Min(FirstAtLeast(prefix, EndTarget(scroll, totalHeight, viewportPx, bufferPx)), total);
      (renderStart, endIdx)
  }

  /** The full resolver pass: range, guard and spacers. */
  function Resolve(prefix: seq<u32>, totalHeight: u32, total: nat, scroll: u32, viewportPx: u32, bufferPx: u32): (w: Window)
    requires IsIndex(prefix, totalHeight, total)
    ensures w.renderStart <= w.endIdx <= total
    ensures total == 0 ==> w == Window(0, 0, 0, 0)
    ensures total > 0 && totalHeight > 0 ==> w.renderStart < w.endIdx
    ensures w.topSpacer == prefix[w.renderStart]
    ensures w.topSpacer + (prefix[w.endIdx] as int - prefix[w.renderStart] as int) + w.bottomSpacer == totalHeight
    ensures var r := Range(prefix, totalHeight, total, scroll, viewportPx, bufferPx);
      w.renderStart == r.0
      && w.endIdx == (if total > 0 && r.1 <= r.0 then Min(r.0 + 1, total) else r.1)
  {
    var r := Range(prefix, totalHeight, total, scroll, viewportPx, bufferPx);
    var renderStart := r.0;
    var endIdx := if total > 0 && r.1 <= renderStart then Min(renderStart + 1, total) else r.1;
    Window(renderStart, endIdx, prefix[renderStart], SatSub(totalHeight, prefix[endIdx]))
  }

  /** One render pass over the aligned height cache `heights` (one entry per item). */
  function RenderPass(heights: seq<u32>, scroll: u32, platform: Platform, buffer: nat): (w: Window)
    ensures |heights| == 0 ==> w == Window(0, 0, 0, 0)
    ensures |heights| > 0 ==> w.renderStart < w.endIdx <= |heights|
    ensures w.topSpacer == Prefix(heights)[w.renderStart]
    ensures w.topSpacer + (Prefix(heights)[w.endIdx] as int - Prefix(heights)[w.renderStart] as int) + w.bottomSpacer
            == Prefix(heights)[|heights|]
  {
    var prefix := Prefix(heights);
    assert |heights| > 0 ==> prefix[|heights|] >= 1 by {
      if |heights| > 0 { PrefixPositive(heights, |heights|); }
    }
    Resolve(prefix, prefix[|heights|], |heights|, scroll, ViewportPx(platform), BufferPx(buffer))
  }

  /** The `(index, item)` pairs handed to `render_item`, in the order rendered:
      `items.iter().skip(start).take(end - start).enumerate()` re-based at `start`. */
  function VisibleRows<T>(items: seq<T>, w: Window): (rows: seq<(nat, T)>)
    requires w.renderStart <= w.endIdx <= |items|
    ensures |rows| == w.endIdx - w.renderStart
    ensures forall k :: 0 <= k < |rows| ==> rows[k].0 == w.renderStart + k && rows[k].1 == items[rows[k].0]
    ensures forall j, k :: 0 <= j < k < |rows| ==> rows[j].0 < rows[k].0
  {
    var slice := items[w.renderStart..w.endIdx];
    seq(|slice|, i requires 0 <= i < |slice| => (w.renderStart + i, slice[i]))
  }

  /** For an offset below the last entry of a well-formed index, `item_at`
      returns the row whose span `[prefix[r], prefix[r + 1])` contains it, and
      no other row's span does. */
  lemma ItemAtContains(prefix: seq<u32>, y: u32)
    requires |prefix| > 0 && prefix[0] == 0 && Monotone(prefix)
    requires y < prefix[|prefix| - 1]
    ensures ItemAt(prefix, y) < |prefix| - 1
    ensures prefix[ItemAt(prefix, y)] <= y < prefix[ItemAt(prefix, y) + 1]
    ensures forall i :: 0 <= i < |prefix| - 1 && prefix[i] <= y < prefix[i + 1] ==> i == ItemAt(prefix, y)
  {
  }

  /** The same for the prefix array built from the height cache. */
  lemma RowAtOffset(h: seq<u32>, y: u32)
    requires y < Prefix(h)[|h|]
    ensures ItemAt(Prefix(h), y) < |h|
    ensures Prefix(h)[ItemAt(Prefix(h), y)] <= y < Prefix(h)[ItemAt(Prefix(h), y) + 1]
    ensures forall i :: 0 <= i < |h| && Prefix(h)[i] <= y < Prefix(h)[i + 1] ==> i == ItemAt(Prefix(h), y)
  {
    ItemAtContains(Prefix(h), y);
  }

  /** With a viewport of at least one pixel the window computed before the
      guard is never empty, so the at-least-one-row guard leaves it unchanged. */
  lemma GuardIdle(prefix: seq<u32>, totalHeight: u32, total: nat, scroll: u32, viewportPx: u32, bufferPx: u32)
    requires IsIndex(prefix, totalHeight, total)
    requires total > 0 && totalHeight > 0 && viewportPx >= 1
    ensures var r := Range(prefix, totalHeight, total, scroll, viewportPx, bufferPx);
      r.0 < r.1 && Resolve(prefix, totalHeight, total, scroll, viewportPx, bufferPx).endIdx == r.1
  {
    var r := Range(prefix, totalHeight, total, scroll, viewportPx, bufferPx);
    var target := EndTarget(scroll, totalHeight, viewportPx, bufferPx);
    assert prefix[r.0] < target;
    assert forall j :: 0 <= j <= r.0 ==> prefix[j] <= prefix[r.0];
  }

  lemma GuardNeverFires(h: seq<u32>, scroll: u32, viewportPx: u32, bufferPx: u32)
    requires |h| > 0 && viewportPx >= 1
    ensures var p := Prefix(h);
      var r := Range(p, p[|h|], |h|, scroll, viewportPx, bufferPx);
      r.0 < r.1 && Resolve(p, p[|h|], |h|, scroll, viewportPx, bufferPx).endIdx == r.1
  {
    PrefixPositive(h, |h|);
    GuardIdle(Prefix(h), Prefix(h)[|h|], |h|, scroll, viewportPx, bufferPx);
  }

  /** A non-empty list always renders at least one row. */
  lemma AtLeastOneRow(h: seq<u32>, scroll: u32, viewportPx: u32, bufferPx: u32)
    requires |h| > 0
    ensures var p := Prefix(h);
      var w := Resolve(p, p[|h|], |h|, scroll, viewportPx, bufferPx);
      w.renderStart < w.endIdx <= |h|
  {
    PrefixPositive(h, |h|);
  }

  /** A one-row list renders exactly that row, with empty spacers, whatever the scroll offset. */
  lemma SingleRowAlwaysRendered(h: seq<u32>, scroll: u32, viewportPx: u32, bufferPx: u32)
    requires |h| == 1
    ensures Resolve(Prefix(h), Prefix(h)[1], 1, scroll, viewportPx, bufferPx) == Window(0, 1, 0, 0)
  {
    AtLeastOneRow(h, scroll, viewportPx, bufferPx);
  }

  /** The rendered rows cover the buffered viewport `[start, end_target)`, cut
      at the end of the list, and the first rendered row reaches into it. */
  lemma WindowCovers(prefix: seq<u32>, totalHeight: u32, total: nat, scroll: u32, viewportPx: u32, bufferPx: u32)
    requires IsIndex(prefix, totalHeight, total)
    requires total > 0 && totalHeight > 0
    ensures var w := Resolve(prefix, totalHeight, total, scroll, viewportPx, bufferPx);
      var start := StartOffset(scroll, totalHeight, bufferPx);
      prefix[w.renderStart] <= start < prefix[w.renderStart + 1]
      && Min(EndTarget(scroll, totalHeight, viewportPx, bufferPx), totalHeight) <= prefix[w.endIdx]
  {
    var r := Range(prefix, totalHeight, total, scroll, viewportPx, bufferPx);
    var w := Resolve(prefix, totalHeight, total, scroll, viewportPx, bufferPx);
    assert r.1 <= w.endIdx;
    if r.1 < total {
      assert prefix[r.1] <= prefix[w.endIdx];
    }
  }

  lemma WindowCoversViewport(h: seq<u32>, scroll: u32, viewportPx: u32, bufferPx: u32)
    requires |h| > 0
    ensures var p := Prefix(h);
      var w := Resolve(p, p[|h|], |h|, scroll, viewportPx, bufferPx);
      var start := StartOffset(scroll, p[|h|], bufferPx);
      p[w.renderStart] <= start < p[w.renderStart + 1]
      && Min(EndTarget(scroll, p[|h|], viewportPx, bufferPx), p[|h|]) <= p[w.endIdx]
  {
    PrefixPositive(h, |h|);
    WindowCovers(Prefix(h), Prefix(h)[|h|], |h|, scroll, viewportPx, bufferPx);
  }

  /** When nothing overflows, the top spacer is the height of the rows above the
      window, the bottom spacer that of the rows below it, and together with
      the rendered rows they add up to the total height. */
  lemma SpacersMatchHeights(h: seq<u32>, scroll: u32, viewportPx: u32, bufferPx: u32)
    requires ClampedSum(h) <= U32_MAX
    ensures var p := Prefix(h);
      var w := Resolve(p, p[|h|], |h|, scroll, viewportPx, bufferPx);
      w.topSpacer == ClampedSum(h[..w.renderStart])
      && w.bottomSpacer == ClampedSum(h[w.endIdx..])
      && w.topSpacer + ClampedSum(h[w.renderStart..w.endIdx]) + w.bottomSpacer == ClampedSum(h)
  {
    var p := Prefix(h);
    var w := Resolve(p, p[|h|], |h|, scroll, viewportPx, bufferPx);
    PrefixDifference(h, w.renderStart, w.endIdx);
    TotalIsSum(h);
  }
}
