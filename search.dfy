/** `slice::partition_point` over a sequence of cumulative heights. The engine
    asks it two questions, "how many entries are at most `y`" and "how many
    entries are below `t`"; both predicates are captured by `Probe`. */
module Search {
  import opened U32

  /** The predicate handed to `partition_point`: `|&acc| acc <= y` or `|&acc| acc < t`. */
  datatype Probe = AtMost(y: u32) | Below(t: u32)

  predicate Holds(p: Probe, acc: u32) {
    match p
    case AtMost(y) => acc <= y
    case Below(t) => acc < t
  }

  /** Non-decreasing: the shape of every prefix-sum array the engine builds. */
  predicate Monotone(s: seq<u32>) {
    forall i, j :: 0 <= i <= j < |s| ==> s[i] <= s[j]
  }

  /** What `partition_point` demands: every element satisfying the predicate
      comes before every element that does not. */
  predicate Partitioned(s: seq<u32>, p: Probe) {
    forall i, j :: 0 <= i < j < |s| && !Holds(p, s[i]) ==> !Holds(p, s[j])
  }

  /** Both probes are partitioned over a non-decreasing sequence. */
  lemma MonotonePartitioned(s: seq<u32>, p: Probe)
    requires Monotone(s)
    ensures Partitioned(s, p)
  {
  }

  /** Binary search for the partition point between `lo` and `hi`. */
  function Bisect(s: seq<u32>, p: Probe, lo: nat, hi: nat): (r: nat)
    requires lo <= hi <= |s|
    requires Partitioned(s, p)
    requires forall i :: 0 <= i < lo ==> Holds(p, s[i])
    requires forall i :: hi <= i < |s| ==> !Holds(p, s[i])
    ensures lo <= r <= hi
    ensures forall i :: 0 <= i < r ==> Holds(p, s[i])
    ensures forall i :: r <= i < |s| ==> !Holds(p, s[i])
    decreases hi - lo
  {
    if lo == hi then lo
    else
      var mid := lo + (hi - lo) / 2;
      if Holds(p, s[mid]) then Bisect(s, p, mid + 1, hi) else Bisect(s, p, lo, mid)
  }

  /** `s.partition_point(p)`: the number of leading elements satisfying `p`,
      i.e. the index of the first element that does not. */
  function PartitionPoint(s: seq<u32>, p: Probe): (r: nat)
    requires Partitioned(s, p)
    ensures r <= |s|
    ensures forall i :: 0 <= i < r ==> Holds(p, s[i])
    ensures forall i :: r <= i < |s| ==> !Holds(p, s[i])
  {
    Bisect(s, p, 0, |s|)
  }
}
