/** Concrete sessions of the engine: a 2000-row list of estimated-height rows,
    rendered with an 800px viewport and a 12-row buffer. Off the browser the
    scroll offset is always 0, so only the top of the list is rendered there;
    a scrolled list is rendered in an 800px-tall browser window. */
module Scenarios {
  import opened U32
  import opened PrefixSums
  import opened HeightStore
  import opened RangeResolver

  /** The height cache of 2000 rows that have not been measured yet. */
  function Estimated2000(): (h: seq<u32>)
    ensures |h| == 2000
    ensures forall i :: 0 <= i < 2000 ==> h[i] == ESTIMATED_ITEM_HEIGHT
  {
    seq(2000, _ => ESTIMATED_ITEM_HEIGHT)
  }

  /** At the top of the list: rows 0..19 (2000px = viewport + buffer) are
      rendered, nothing is above them, and 198000px of rows lie below. */
  lemma ScrolledToTop()
    ensures RenderPass(Estimated2000(), 0, Native, 12) == Window(0, 20, 0, 198000)
  {
    var h := Estimated2000();
    var p := Prefix(h);
    UniformPrefix(2000, ESTIMATED_ITEM_HEIGHT, 2000);
    var total := p[2000];
    assert total == 200000;
    assert ViewportPx(Native) == 800 && BufferPx(12) == 1200;
    var r := Range(p, total, 2000, 0, 800, 1200);
    UniformPrefix(2000, ESTIMATED_ITEM_HEIGHT, r.0);
    UniformPrefix(2000, ESTIMATED_ITEM_HEIGHT, 20);
    UniformPrefix(2000, ESTIMATED_ITEM_HEIGHT, r.1);
    assert r == (0, 20);
    GuardNeverFires(h, 0, 800, 1200);
  }

  /** Scrolled 5000px down in an 800px-tall browser window: the buffered
      region starts at 3800px, in row 38, and ends at 7000px, so rows 38..69
      are rendered. */
  lemma ScrolledTo5000()
    ensures RenderPass(Estimated2000(), 5000, Wasm(800), 12) == Window(38, 70, 3800, 193000)
  {
    var h := Estimated2000();
    var p := Prefix(h);
    UniformPrefix(2000, ESTIMATED_ITEM_HEIGHT, 2000);
    var total := p[2000];
    assert ViewportPx(Wasm(800)) == 800 && BufferPx(12) == 1200;
    assert total == 200000;
    assert StartOffset(5000, total, 1200) == 3800;
    assert EndTarget(5000, total, 800, 1200) == 7000;
    var r := Range(p, total, 2000, 5000, 800, 1200);
    assert r.0 == 38 by {
      UniformPrefix(2000, ESTIMATED_ITEM_HEIGHT, r.0);
      UniformPrefix(2000, ESTIMATED_ITEM_HEIGHT, r.0 + 1);
      assert 100 * r.0 <= 3800 < 100 * (r.0 + 1);
    }
    UniformPrefix(2000, ESTIMATED_ITEM_HEIGHT, 70);
    assert r.1 == 70 by {
      UniformPrefix(2000, ESTIMATED_ITEM_HEIGHT, r.1);
    }
    UniformPrefix(2000, ESTIMATED_ITEM_HEIGHT, 38);
    GuardNeverFires(h, 5000, 800, 1200);
    var w := Resolve(p, total, 2000, 5000, 800, 1200);
    assert w.renderStart == 38 && w.endIdx == 70;
    assert w == Window(38, 70, 3800, 193000);
    assert RenderPass(h, 5000, Wasm(800), 12) == w;
  }

  /** Row 5 is measured at 250px instead of the estimated 100px: rows 0..5 keep
      their offsets, and every later offset, the total height included, grows
      by exactly 150px. */
  lemma RowFiveMeasured()
    ensures var h := Estimated2000();
      var h' := Written(h, 5, 250);
      (forall i :: 0 <= i <= 5 ==> Prefix(h')[i] == Prefix(h)[i])
      && (forall i :: 5 < i <= 2000 ==> Prefix(h')[i] == Prefix(h)[i] as int + 150)
      && Prefix(h')[2000] == 200150
  {
    var h := Estimated2000();
    var h' := Written(h, 5, 250);
    assert h' == h[5 := 250];
    UniformPrefix(2000, ESTIMATED_ITEM_HEIGHT, 2000);
    PrefixIsCappedSum(h, 2000);
    assert h[..2000] == h;
    assert ClampedSum(h) == 200000;
    ClampedSumUpdate(h, 5, 250);
    PrefixAgreesBelow(h, 5, 250);
    PrefixShiftsAbove(h, 5, 250);
  }

  /** The list shrinks from 2000 to 500 rows: the cache keeps the first 500
      heights, including a measured one. */
  method ShrinkAfterMeasuring() returns (heights: seq<u32>)
    ensures |heights| == 500
    ensures heights[5] == 250
    ensures forall i :: 0 <= i < 500 && i != 5 ==> heights[i] == ESTIMATED_ITEM_HEIGHT
  {
    var cache := new HeightCache(2000);
    var first := cache.WriteBack(5, 250);
    var second := cache.WriteBack(5, 250);
    assert first && !second;
    var resized := cache.Sync(500);
    assert resized;
    heights := cache.heights;
  }
}
