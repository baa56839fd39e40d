/** One render of `RecycleList`, with the reactive plumbing taken out: align
    the height cache with the items, rebuild the prefix index, resolve the
    window and hand the visible `(index, item)` pairs to the caller. */
module RecycleList {
  import opened U32
  import opened PrefixSums
  import opened HeightStore
  import opened RangeResolver

  method Render<T>(cache: HeightCache, items: seq<T>, scroll: u32, platform: Platform, buffer: nat)
    returns (w: Window, rows: seq<(nat, T)>)
    modifies cache
    ensures cache.heights == Resized(old(cache.heights), |items|)
    ensures w == RenderPass(cache.heights, scroll, platform, buffer)
    ensures w.renderStart <= w.endIdx <= |items|
    ensures rows == VisibleRows(items, w)
  {
    var _ := cache.Sync(|items|);
    var prefix, totalHeight := BuildPrefix(cache.heights);
    w := Resolve(prefix, totalHeight, |items|, scroll, ViewportPx(platform), BufferPx(buffer));
    rows := VisibleRows(items, w);
  }
}
