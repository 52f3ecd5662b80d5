// The per-node address allocator (daemon/src/allocator): which index of a pool
// the next pod gets.
module Daemon {
  import opened Powers
  import opened Blocks
  import opened Compute
  import opened Sorting
  import opened Gaps

  datatype Allocation = Allocation(pod: string, namespace: string, index: nat, address: nat)

  // ---------- Exclude ranges ----------

  datatype Range = Range(lo: int, hi: int)

  // The indexes an exclude takes up in a pool; one that starts before the pool is
  // skipped.
  function ExcludeRanges(pod: Cidr, excludes: seq<Cidr>): seq<Range>
    requires forall k :: 0 <= k < |excludes| ==> excludes[k].len <= 32
  {
    if excludes == [] then []
    else
      var e := excludes[|excludes| - 1];
      ExcludeRanges(pod, excludes[..|excludes| - 1]) +
      if e.base < pod.base then [] else [Range(e.base - pod.base, e.base - pod.base + Pow2(32 - e.len) - 1)]
  }

  method GetExcludeRanges(pod: Cidr, excludes: seq<Cidr>) returns (ranges: seq<Range>)
    requires forall k :: 0 <= k < |excludes| ==> excludes[k].len <= 32
    ensures ranges == ExcludeRanges(pod, excludes)
  {
    ranges := [];
    for k := 0 to |excludes|
      invariant ranges == ExcludeRanges(pod, excludes[..k])
    {
      assert excludes[..k + 1][..k] == excludes[..k];
      var start := excludes[k].base - pod.base;
      if start >= 0 {
        var maxIndex := Pow2(32 - excludes[k].len) - 1;
        ranges := ranges + [Range(start, start + maxIndex)];
      }
    }
    assert excludes[..|excludes|] == excludes;
  }

  ghost predicate InRange(i: int, r: Range)
  {
    r.lo <= i <= r.hi
  }

  ghost predicate Excluded(ranges: seq<Range>, i: int)
  {
    exists k :: 0 <= k < |ranges| && InRange(i, ranges[k])
  }

  // For excludes inside the pool, the ranges are the excludes, seen from the
  // pool's first address.
  lemma {:induction false} RangesAreExcludes(pod: Cidr, excludes: seq<Cidr>, i: int)
    requires forall k :: 0 <= k < |excludes| ==> excludes[k].len <= 32 && pod.base <= excludes[k].base
    ensures Excluded(ExcludeRanges(pod, excludes), i) <==> exists k :: 0 <= k < |excludes| && In(pod.base + i, excludes[k])
  {
    if excludes != [] {
      var n := |excludes| - 1;
      var init, ranges := ExcludeRanges(pod, excludes[..n]), ExcludeRanges(pod, excludes);
      RangesAreExcludes(pod, excludes[..n], i);
      if Excluded(init, i) {
        var k :| 0 <= k < |init| && InRange(i, init[k]);
        assert InRange(i, ranges[k]);
      }
      if exists k :: 0 <= k < n && In(pod.base + i, excludes[k]) {
        var k :| 0 <= k < n && In(pod.base + i, excludes[k]);
        assert In(pod.base + i, excludes[..n][k]);
      }
      assert InRange(i, ranges[|ranges| - 1]) <==> In(pod.base + i, excludes[n]);
      if Excluded(ranges, i) && !InRange(i, ranges[|ranges| - 1]) {
        var k :| 0 <= k < |ranges| && InRange(i, ranges[k]);
        assert InRange(i, init[k]);
      }
    }
  }

  // ---------- Taken indexes ----------

  // The largest index is kept back for the broadcast address.
  function MaxIndex(pod: Cidr): int
    requires pod.len <= 32
  {
    Pow2(32 - pod.len) - 2
  }

  function IndexList(allocations: seq<Allocation>): (s: seq<int>)
    ensures |s| == |allocations| && forall i :: 0 <= i < |s| ==> s[i] == allocations[i].index
  {
    seq(|allocations|, i requires 0 <= i < |allocations| => allocations[i].index)
  }

  // The numbers from lo to top.
  function UpTo(lo: int, top: int): (s: seq<int>)
    ensures forall i :: i in s <==> lo <= i <= top
    decreases top - lo
  {
    if top < lo then [] else UpTo(lo, top - 1) + [top]
  }

  // The indexes of a range up to maxIndex.
  function Expand(r: Range, maxIndex: int): seq<int>
  {
    UpTo(r.lo, if r.hi < maxIndex then r.hi else maxIndex)
  }

  function RangeIndexes(ranges: seq<Range>, maxIndex: int): seq<int>
  {
    if ranges == [] then []
    else RangeIndexes(ranges[..|ranges| - 1], maxIndex) + Expand(ranges[|ranges| - 1], maxIndex)
  }

  function Indexes(allocations: seq<Allocation>, maxIndex: int, ranges: seq<Range>): seq<int>
  {
    SortInts(IndexList(allocations) + RangeIndexes(ranges, maxIndex))
  }

  method AppendRange(indexes: seq<int>, r: Range, maxIndex: int) returns (s: seq<int>)
    ensures s == indexes + Expand(r, maxIndex)
  {
    s := indexes;
    var maxValue := if r.hi < maxIndex then r.hi else maxIndex;
    var i := r.lo;
    while i <= maxValue
      invariant r.lo <= i && (i <= maxValue + 1 || i == r.lo)
      invariant s == indexes + UpTo(r.lo, i - 1)
    {
      assert UpTo(r.lo, i) == UpTo(r.lo, i - 1) + [i];
      s := s + [i];
      i := i + 1;
    }
  }

  method GenerateAllocateIndexes(allocations: seq<Allocation>, maxIndex: int, ranges: seq<Range>) returns (indexes: seq<int>)
    ensures indexes == Indexes(allocations, maxIndex, ranges)
  {
    indexes := [];
    for i := 0 to |allocations|
      invariant indexes == IndexList(allocations)[..i]
    {
      indexes := indexes + [allocations[i].index];
    }
    ghost var own := IndexList(allocations);
    assert indexes == own;
    for k := 0 to |ranges|
      invariant indexes == own + RangeIndexes(ranges[..k], maxIndex)
    {
      assert ranges[..k + 1][..k] == ranges[..k];
      indexes := AppendRange(indexes, ranges[k], maxIndex);
    }
    assert ranges[..|ranges|] == ranges;
    indexes := SortInts(indexes);
  }

  lemma {:induction false} RangeIndexesExact(ranges: seq<Range>, maxIndex: int, i: int)
    ensures i in RangeIndexes(ranges, maxIndex) <==> Excluded(ranges, i) && i <= maxIndex
  {
    if ranges != [] {
      var n := |ranges| - 1;
      RangeIndexesExact(ranges[..n], maxIndex, i);
      assert Excluded(ranges, i) <==> Excluded(ranges[..n], i) || InRange(i, ranges[n]) by {
        if Excluded(ranges[..n], i) {
          var k :| 0 <= k < n && InRange(i, ranges[..n][k]);
          assert InRange(i, ranges[k]);
        }
        if Excluded(ranges, i) && !InRange(i, ranges[n]) {
          var k :| 0 <= k < |ranges| && InRange(i, ranges[k]);
          assert InRange(i, ranges[..n][k]);
        }
      }
    }
  }

  // ---------- The next index ----------

  // Beyond the last taken index if that stays in range, else the first gap.
  function NextIndex(indexes: seq<int>, offset: int, maxIndex: int): Option<int>
  {
    var next := if |indexes| > 0 then indexes[|indexes| - 1] + offset else offset;
    if next < maxIndex then Some(next)
    else
      var gap := DaemonFindAvailableIndex(indexes, 0);
      if gap == -1 then None else Some(gap)
  }

  function AddressByIndex(pod: Cidr, index: nat): nat
  {
    FromBytes(ToBytes(pod.base + index, 4))
  }

  lemma AddressIsSum(pod: Cidr, index: nat)
    requires Canonical(pod) && index < Size(pod)
    ensures AddressByIndex(pod, index) == pod.base + index && In(AddressByIndex(pod, index), pod)
  {
    CanonicalFits(pod);
    DottedRoundTrip(pod.base + index);
  }

  // The core of allocateIP for the pool of a requested interface.
  method AllocateIndex(pod: Cidr, excludes: seq<Cidr>, allocations: seq<Allocation>, offset: nat) returns (r: Option<int>)
    requires pod.len <= 32 && forall k :: 0 <= k < |excludes| ==> excludes[k].len <= 32
    ensures r == NextIndex(Indexes(allocations, MaxIndex(pod), ExcludeRanges(pod, excludes)), offset, MaxIndex(pod))
  {
    var ranges := GetExcludeRanges(pod, excludes);
    var maxIndex := MaxIndex(pod);
    var indexes := GenerateAllocateIndexes(allocations, maxIndex, ranges);
    var nextIndex: int := offset;
    if |indexes| > 0 { nextIndex := indexes[|indexes| - 1] + offset; }
    if nextIndex < maxIndex { return Some(nextIndex); }
    nextIndex := DaemonFindAvailableIndex(indexes, 0);
    if nextIndex == -1 { return None; }
    return Some(nextIndex);
  }
}
