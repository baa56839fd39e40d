/** The cumulative-height index rebuilt from the height cache: entry `i` is the
    saturating sum of the first `i` row heights, each counted as at least 1px. */
module PrefixSums {
  import opened U32
  import opened Search

  /** `height.max(1)`: a row never counts as less than one pixel. */
  function Clamp1(h: u32): (r: u32)
    ensures r >= 1 && r >= h
    ensures h >= 1 ==> r == h
    ensures h < 1 ==> r == 1
  {
    if h < 1 then 1 else h
  }

  /** The prefix array for heights `h`. */
  function Prefix(h: seq<u32>): (p: seq<u32>)
    ensures |p| == |h| + 1
    ensures p[0] == 0
    ensures forall i :: 0 <= i < |h| ==> p[i + 1] == SatAdd(p[i], Clamp1(h[i]))
    ensures Monotone(p)
    decreases |h|
  {
    if h == [] then [0]
    else
      var q := Prefix(h[..|h| - 1]);
      var p := q + [SatAdd(q[|h| - 1], Clamp1(h[|h| - 1]))];
      assert forall i :: 0 <= i < |h| ==> p[i] <= p[|h|];
      p
  }

  /** Reference definition: the exact (unbounded) sum of the clamped heights. */
  function ClampedSum(h: seq<u32>): nat
    decreases |h|
  {
    if h == [] then 0 else ClampedSum(h[..|h| - 1]) + Clamp1(h[|h| - 1])
  }

  /** The prefix-sum loop of the memo: pushes one running total per row. */
  method BuildPrefix(heights: seq<u32>) returns (prefix: seq<u32>, totalHeight: u32)
    ensures prefix == Prefix(heights)
    ensures totalHeight == prefix[|heights|]
  {
    prefix := [0];
    for i := 0 to |heights|
      invariant prefix == Prefix(heights[..i])
    {
      assert heights[..i + 1][..i] == heights[..i];
      var next := SatAdd(prefix[|prefix| - 1], Clamp1(heights[i]));
      prefix := prefix + [next];
    }
    assert heights[..|heights|] == heights;
    totalHeight := prefix[|prefix| - 1];
  }

  lemma {:induction false} ClampedSumAppend(a: seq<u32>, b: seq<u32>)
    ensures ClampedSum(a + b) == ClampedSum(a) + ClampedSum(b)
    decreases |b|
  {
    if b == [] {
      assert a + b == a;
    } else {
      ClampedSumAppend(a, b[..|b| - 1]);
      assert (a + b)[..|a + b| - 1] == a + b[..|b| - 1];
    }
  }

  /** Each prefix entry is the true running total, capped at `U32_MAX`. */
  lemma {:induction false} PrefixIsCappedSum(h: seq<u32>, i: nat)
    requires i <= |h|
    ensures Prefix(h)[i] == Min(ClampedSum(h[..i]), U32_MAX)
  {
    if i > 0 {
      PrefixIsCappedSum(h, i - 1);
      assert h[..i][..i - 1] == h[..i - 1];
    }
  }

  /** `total_height` is the exact sum of the clamped heights unless it overflows u32. */
  lemma TotalIsSum(h: seq<u32>)
    requires ClampedSum(h) <= U32_MAX
    ensures Prefix(h)[|h|] == ClampedSum(h)
  {
    PrefixIsCappedSum(h, |h|);
    assert h[..|h|] == h;
  }

  /** Without saturation the prefix array is strictly increasing. */
  lemma PrefixStrict(h: seq<u32>)
    requires ClampedSum(h) <= U32_MAX
    ensures forall i, j :: 0 <= i < j <= |h| ==> Prefix(h)[i] < Prefix(h)[j]
  {
    var p := Prefix(h);
    forall i, j | 0 <= i < j <= |h|
      ensures p[i] < p[j]
    {
      StepStrict(h, j);
      assert p[i] <= p[j - 1];
    }
  }

  lemma StepStrict(h: seq<u32>, j: nat)
    requires 0 < j <= |h| && ClampedSum(h) <= U32_MAX
    ensures Prefix(h)[j - 1] < Prefix(h)[j]
  {
    PrefixExactBelow(h, j - 1);
    PrefixExactBelow(h, j);
    assert h[..j][..j - 1] == h[..j - 1];
  }

  /** A non-empty list always has positive total height. */
  lemma PrefixPositive(h: seq<u32>, i: nat)
    requires 0 < i <= |h|
    ensures Prefix(h)[i] >= 1
  {
    var p := Prefix(h);
    assert p[1] == SatAdd(p[0], Clamp1(h[0]));
    assert p[1] <= p[i];
  }

  /** Without saturation, entry `i` is the height of the rows above `i`, and the
      difference of two entries is the height of the rows between them. */
  lemma ClampedSumSplit(h: seq<u32>, k: nat)
    requires k <= |h|
    ensures ClampedSum(h[..k]) + ClampedSum(h[k..]) == ClampedSum(h)
  {
    assert h[..k] + h[k..] == h;
    ClampedSumAppend(h[..k], h[k..]);
  }

  lemma PrefixExactBelow(h: seq<u32>, i: nat)
    requires i <= |h|
    requires ClampedSum(h) <= U32_MAX
    ensures Prefix(h)[i] == ClampedSum(h[..i])
  {
    ClampedSumSplit(h, i);
    PrefixIsCappedSum(h, i);
  }

  lemma PrefixDifference(h: seq<u32>, i: nat, j: nat)
    requires i <= j <= |h|
    requires ClampedSum(h) <= U32_MAX
    ensures Prefix(h)[i] == ClampedSum(h[..i])
    ensures Prefix(h)[i] + ClampedSum(h[i..j]) == Prefix(h)[j]
    ensures Prefix(h)[j] + ClampedSum(h[j..]) == Prefix(h)[|h|]
  {
    PrefixExactBelow(h, i);
    PrefixExactBelow(h, j);
    TotalIsSum(h);
    ClampedSumSplit(h, j);
    ClampedSumSplit(h[..j], i);
    assert h[..j][..i] == h[..i];
    assert h[..j][i..] == h[i..j];
  }

  /** Changing row `k` leaves every prefix entry up to `k` as it was. */
  lemma PrefixAgreesBelow(h: seq<u32>, k: nat, v: u32)
    requires k < |h|
    ensures forall i :: 0 <= i <= k ==> Prefix(h[k := v])[i] == Prefix(h)[i]
  {
    forall i | 0 <= i <= k
      ensures Prefix(h[k := v])[i] == Prefix(h)[i]
    {
      PrefixIsCappedSum(h, i);
      PrefixIsCappedSum(h[k := v], i);
      assert h[k := v][..i] == h[..i];
    }
  }

  /** Replacing one height changes the exact sum by the difference of the clamped values. */
  lemma ClampedSumUpdate(h: seq<u32>, k: nat, v: u32)
    requires k < |h|
    ensures ClampedSum(h[k := v]) + Clamp1(h[k]) == ClampedSum(h) + Clamp1(v)
  {
    var h' := h[k := v];
    ClampedSumSplit(h, k + 1);
    ClampedSumSplit(h', k + 1);
    assert h'[k + 1..] == h[k + 1..];
    var a, a' := h[..k + 1], h'[..k + 1];
    assert a[..k] == a'[..k] == h[..k];
  }

  /** Changing row `k` from its old height to `v` moves every later prefix entry,
      the total included, by exactly the difference of the clamped heights, as
      long as neither list overflows u32. */
  lemma PrefixShiftsAbove(h: seq<u32>, k: nat, v: u32)
    requires k < |h|
    requires ClampedSum(h) <= U32_MAX && ClampedSum(h[k := v]) <= U32_MAX
    ensures forall i :: k < i <= |h| ==> Prefix(h[k := v])[i] + Clamp1(h[k]) == Prefix(h)[i] + Clamp1(v)
  {
    var h' := h[k := v];
    forall i | k < i <= |h|
      ensures Prefix(h')[i] + Clamp1(h[k]) == Prefix(h)[i] + Clamp1(v)
    {
      PrefixExactBelow(h, i);
      PrefixExactBelow(h', i);
      assert h'[..i] == h[..i][k := v];
      ClampedSumUpdate(h[..i], k, v);
    }
  }

  lemma MulMonotone(i: nat, n: nat, c: nat)
    requires i <= n
    ensures i * c <= n * c
  {
  }

  /** A cache holding only the estimate: entry `i` is `i` rows of that height. */
  lemma {:induction false} UniformPrefix(n: nat, c: u32, i: nat)
    requires c >= 1 && i <= n
    requires n * c <= U32_MAX
    ensures Prefix(seq(n, _ => c))[i] == i * c
  {
    var h := seq(n, _ => c);
    var p := Prefix(h);
    if i > 0 {
      UniformPrefix(n, c, i - 1);
      assert p[i] == SatAdd(p[i - 1], Clamp1(h[i - 1]));
      assert Clamp1(h[i - 1]) == c;
      assert (i - 1) * c + c == i * c;
      MulMonotone(i, n, c);
    }
  }
}
