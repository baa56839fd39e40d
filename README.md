# RecycleList virtualization engine, in Dafny

`RecycleList` is a Dioxus component that renders only the visible slice of a
long list of rows with different heights. Rows are placed between a top spacer
and a bottom spacer, so the height of the scrollable region stays right. This
project models the engine inside the component's render function and proves
properties about it. The engine has four parts, and all of its arithmetic is
on integers:

- **Height cache** (`heights.dfy`, module `HeightStore`). This is a `Vec<u32>`
  with one last-measured height per row. Rows that were never measured hold
  the 100px estimate. The class `HeightCache` holds the cache as a `seq<u32>`
  field.
  - `Sync` keeps the cache as long as the item list.
  - `WriteBack` stores a measured height. It ignores an index past the end
    and a value equal to the one already stored.
  - The pure functions `Resized` and `Written` specify the two methods.
- **Prefix-sum index** (`prefix.dfy`, module `PrefixSums`). `BuildPrefix` is
  the memo's loop. It pushes `prefix[i] ⊕ max(1, h[i])` for each row, where
  `⊕` is saturating u32 addition. It is proved equal to the function `Prefix`.
  `Prefix` is in turn related to `ClampedSum`, the exact, unbounded sum of
  the clamped heights. That relation is: each entry is the true running
  total, capped at `U32_MAX`.
- **Range resolver** (`range.dfy`, module `RangeResolver`). It resolves the
  window from the scroll offset, the viewport and the buffer. It uses the
  two `partition_point` searches: `ItemAt` is the predecessor search and
  `FirstAtLeast` is the lower-bound search. `Range` is the pair
  `(render_start, end_idx)` before the degenerate-window guard. `Resolve`
  applies the guard and computes the spacers. `RenderPass` adds the viewport
  and buffer conversion.
- **Window** (`VisibleRows`). These are the `(index, item)` pairs handed to
  `render_item`, in ascending order.

`search.dfy` (module `Search`) models `slice::partition_point` as a binary
search. `u32.dfy` (module `U32`) holds the saturating u32 operations.
`recycle_list.dfy` runs one render end to end. `scenarios.dfy` works through
four concrete sessions on a 2000-row list: scrolled to the top, scrolled to
5000px in a browser window, row 5 measured at 250px, and the list cut to 500 rows.

Two details of the code matter for what is proved:
- The cache itself does not clamp heights to 1px. Only the prefix builder
  counts each row as `max(1, h)`. The measured value is at least 1 only
  because of the floating-point conversion at `src/lib.rs:253`, which is not
  modelled.
- The prefix array is strictly increasing unless the sum of the clamped
  heights overflows u32 (`PrefixStrict`). Once it saturates, entries can repeat.

The degenerate-window guard (`src/lib.rs:206-208`) never changes the result
in the program as written. The viewport is always at least 100px, so the end
target lies strictly past the clamped scroll offset. The lower-bound search
therefore already returns an index past `render_start` (`GuardIdle`,
`GuardNeverFires`). The guard matters only for a zero-height viewport. It is
modelled all the same, and `Resolve` is stated for any viewport.

## Model

| member | source | states |
|---|---|---|
| `U32.SatAdd` | src/lib.rs:171-175 | the result is at least either operand and at most their sum, and equals the sum unless it is `U32_MAX` |
| `U32.SatSub` | src/lib.rs:194-195 | the result never exceeds `a`; it is the exact difference when `b <= a` and 0 otherwise |
| `U32.SatMul` | src/lib.rs:160 | the exact product when it fits in u32, otherwise `U32_MAX` |
| `U32.Truncate` | src/lib.rs:160 | `buffer as u32` keeps values that fit and otherwise differs by a multiple of 2^32 |
| `Search.Bisect` | src/lib.rs:191 | a binary search between `lo` and `hi` on a partitioned sequence returns the split point: every earlier element satisfies the probe and no later one does |
| `Search.PartitionPoint` | src/lib.rs:201 | `partition_point` returns the index of the first element that fails the probe: all before it pass, none after it does |
| `HeightStore.Resized` | src/lib.rs:62-64 | after `resize(total, 100)` the cache has `total` entries, the entries below `min(old length, total)` are unchanged, and new entries are 100 |
| `HeightStore.Written` | src/lib.rs:255-259 | the write-back keeps the length, leaves every other row unchanged, and stores the measured height at an in-range index |
| `HeightStore.WrittenChangesIff` | src/lib.rs:256-258 | the cache changes if and only if the index is in range and the measured value differs from the stored one |
| `HeightStore.WrittenIdempotent` | src/lib.rs:256-258 | writing the same measurement a second time is a no-op |
| `HeightStore.ResizedIdempotent` | src/lib.rs:62-64 | aligning the cache to the same length twice equals doing it once |
| `HeightStore.ResizedTwice` | src/lib.rs:62-64 | after a shrink and a regrow, rows that were kept by both keep their height, and all other rows hold the estimate |
| `HeightStore.HeightCache.constructor` | src/lib.rs:59 | a new cache has `total` entries, each equal to the 100px estimate |
| `HeightStore.HeightCache.Sync` | src/lib.rs:61-64 | it resizes exactly when the length differs from the item count. The new cache is `Resized(old, total)` |
| `HeightStore.HeightCache.WriteBack` | src/lib.rs:254-259 | it reports a change exactly when the index is in range and the value is new. Only `heights[idx]` changes, and otherwise nothing does |
| `HeightStore.WriteBackTwice` | src/lib.rs:255-259 | of two identical write-backs, the second reports no change |
| `PrefixSums.Clamp1` | src/lib.rs:175 | `max(1, h)` is 1 when `h == 0` and `h` otherwise |
| `PrefixSums.Prefix` | src/lib.rs:168-177 | the prefix array has `n + 1` entries, its first entry is 0, `prefix[i+1] == SatAdd(prefix[i], max(1, h[i]))`, and it is non-decreasing |
| `PrefixSums.BuildPrefix` | src/lib.rs:164-181 | the loop pushes exactly the array `Prefix(heights)`, and `total_height` is its last entry |
| `PrefixSums.PrefixIsCappedSum` | src/lib.rs:170-177 | each entry is the exact sum of the clamped heights before it, capped at `U32_MAX` |
| `PrefixSums.TotalIsSum` | src/lib.rs:178 | `total_height` is the exact sum of the clamped heights when that sum fits in u32 |
| `PrefixSums.PrefixStrict` | src/lib.rs:168-177 | the prefix array is strictly increasing unless the exact sum of the clamped heights exceeds `U32_MAX` |
| `PrefixSums.PrefixPositive` | src/lib.rs:175 | every entry after the first is at least 1, so a non-empty list has positive total height |
| `PrefixSums.PrefixDifference` | src/lib.rs:168-178 | with no overflow, `prefix[i]` is the height of rows `0..i`, `prefix[j] - prefix[i]` is the height of rows `i..j`, and `total - prefix[j]` is the height of the rows from `j` on |
| `PrefixSums.ClampedSumUpdate` | src/lib.rs:175 | replacing one height changes the exact sum by the difference of the clamped values |
| `PrefixSums.PrefixAgreesBelow` | src/lib.rs:168-177 | changing row `k` leaves prefix entries `0..k` unchanged |
| `PrefixSums.PrefixShiftsAbove` | src/lib.rs:168-178 | with no overflow, changing row `k` shifts every later entry, the total included, by the difference between the new and old clamped heights |
| `PrefixSums.UniformPrefix` | src/lib.rs:168-177 | if every row has height `c >= 1` and `n * c` fits in u32, entry `i` is `i * c` |
| `RangeResolver.ViewportPx` | src/lib.rs:150-159 | the viewport is at least 100px. It is 800px off wasm. On wasm it is the measured height raised to 100 |
| `RangeResolver.BufferPx` | src/lib.rs:160 | the buffer is first truncated to 32 bits (`buffer mod 2^32`). The buffer in pixels is that value times 100 when the product fits, and `U32_MAX` when it does not |
| `RangeResolver.ItemAt` | src/lib.rs:191 | `item_at(y)` is the greatest index whose prefix entry is at most `y`. It is 0 when there is none |
| `RangeResolver.FirstAtLeast` | src/lib.rs:201 | the smallest index whose prefix entry reaches `target`, or the length if no entry does |
| `RangeResolver.ClampScroll` | src/lib.rs:194 | the clamped offset is the scroll offset when it is below the total height, `total_height - 1` when it is not, and 0 for an empty list |
| `RangeResolver.StartOffset` | src/lib.rs:195 | the buffered region starts `buffer_px` above the clamped offset, or at 0 when the clamped offset is below `buffer_px` |
| `RangeResolver.EndTarget` | src/lib.rs:198-200 | the end target is the clamped offset plus viewport plus buffer when that fits, and `U32_MAX` when it does not. It is strictly beyond the offset whenever the viewport is non-empty |
| `RangeResolver.Range` | src/lib.rs:187-204 | with `total == 0` the range is `(0, 0)`. Otherwise `render_start` is the row containing the buffered start offset, and `end_idx` is the first index reaching the end target, clamped to `total` |
| `RangeResolver.Resolve` | src/lib.rs:187-211 | `render_start <= end_idx <= total`, the empty list gives `(0, 0, 0, 0)`, and a list with positive height renders at least one row. `render_start` is the pre-guard start and `end_idx` is the pre-guard end, or `min(render_start + 1, total)` when the guard fires. `top_spacer == prefix[render_start]`, and top spacer plus window height plus bottom spacer equals `total_height` |
| `RangeResolver.RenderPass` | src/lib.rs:149-211 | a full pass over an aligned cache: an empty list gives an empty window with zero spacers. A non-empty list renders at least one row. The top spacer is the prefix entry at the first rendered row. The spacers and the window add up to the total height |
| `RangeResolver.VisibleRows` | src/lib.rs:235-241 | the rendered pairs are `(render_start + k, items[render_start + k])` for `k < end_idx - render_start`, in strictly ascending index order |
| `RangeResolver.ItemAtContains` | src/lib.rs:191 | for `y` below the total, `item_at(y)` is the unique row `r` with `prefix[r] <= y < prefix[r+1]` |
| `RangeResolver.RowAtOffset` | src/lib.rs:191 | the same, for the prefix array built from the heights |
| `RangeResolver.GuardIdle` | src/lib.rs:206-208 | a viewport of at least 1px and a positive total height give `render_start < end_idx` before the guard, so the guard changes nothing |
| `RangeResolver.GuardNeverFires` | src/lib.rs:206-208 | the same, for every non-empty list of heights |
| `RangeResolver.AtLeastOneRow` | src/lib.rs:194-208 | a non-empty list always gets `render_start < end_idx <= total` |
| `RangeResolver.SingleRowAlwaysRendered` | src/lib.rs:194-208 | a one-row list always gets the window `[0, 1)` with zero spacers, whatever the scroll offset |
| `RangeResolver.WindowCovers` | src/lib.rs:195-201 | the rendered rows start at or above the buffered start offset, and the first of them reaches past it. They extend to the end target or to the end of the list |
| `RangeResolver.WindowCoversViewport` | src/lib.rs:195-201 | the same, for the prefix array built from the heights |
| `RangeResolver.SpacersMatchHeights` | src/lib.rs:210-211 | with no overflow, the top spacer is the height of the rows above the window and the bottom spacer is the height of the rows below it. Together with the rendered rows they sum to the total |
| `Scenarios.Estimated2000` | src/lib.rs:59 | a cache of 2000 unmeasured rows, every entry 100 |
| `Scenarios.ScrolledToTop` | src/lib.rs:187-211 | 2000 rows of 100px, off wasm, buffer 12, scroll 0: the window is rows 0..19, the top spacer is 0 and the bottom spacer is 198000 |
| `Scenarios.ScrolledTo5000` | src/lib.rs:187-211 | the same list scrolled to 5000px in an 800px-tall browser window: the window is rows 38..69, the top spacer is 3800 and the bottom spacer is 193000 |
| `Scenarios.RowFiveMeasured` | src/lib.rs:255-259 | measuring row 5 at 250px keeps entries 0..5 and raises every later entry by 150, so the total becomes 200150 |
| `Scenarios.ShrinkAfterMeasuring` | src/lib.rs:62-64 | after a write-back and a cut from 2000 to 500 rows, the cache holds 500 entries, the measured row keeps 250, and the rest are 100 |
| `RecycleList.Render` | src/lib.rs:147-241 | one render aligns the cache and builds the prefix index. It resolves the window `RenderPass` defines and passes `VisibleRows` of that window to `render_item` |

## Left out

- Dioxus rendering is not modelled: `rsx!`, element keys, the `onmounted` wiring, signals and `use_memo` (src/lib.rs:50-59, 212-271). The model rebuilds the prefix index on every render. The memo's only job is to skip that rebuild when the heights are unchanged, and the prefix array is a function of the heights, so skipping it changes nothing.
- The wasm scroll listener is not modelled: its registration and teardown (`use_effect`, `Closure`, `add_event_listener`, `remove_event_listener`, `use_drop`, src/lib.rs:67-145). This is host I/O and lifecycle. The scroll offset and the measured viewport height are inputs to the model.
- Off wasm the scroll offset is never written and stays at its initial 0 (src/lib.rs:49-50). `RangeResolver.RenderPass` and `RecycleList.Render` still take the offset as a free input on both platforms, so they also cover offsets a native render never sees.
- The floating-point conversions to u32 are not modelled: the window height, the page-relative scroll offset and the measured row height (src/lib.rs:84-95, 122-123, 221-223, 253). Their u32 results are inputs.
- The asynchronous measurement (`spawn`, `get_client_rect().await`, src/lib.rs:251-252) is not modelled. Only the synchronous write-back it ends with is kept.
- `HeightStore.HeightCache.WriteBack`: the source goes through `with_mut`, which notifies the signal's subscribers even when nothing was written. The returned flag reports only whether the cache contents changed.
- `Search.PartitionPoint`: the standard library's own binary search is not reproduced step by step. On a partitioned sequence the partition point is unique, so any correct search returns the same index.
- Index width: `usize` indices and `items.len()` are unbounded naturals. `buffer as u32` truncation is modelled explicitly (`U32.Truncate`).
- `recycle_list` (src/lib.rs:275-288) is a positional-argument wrapper and is not modelled.
- preview/main.rs is a demo application and is not part of this model.
