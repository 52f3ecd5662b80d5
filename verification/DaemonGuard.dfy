// When the daemon's choice of an index is sound: exactly when the exclude ranges
// of the pool do not overlap each other and do not cover its first address.
module DaemonGuard {
  import opened Blocks
  import opened Compute
  import opened Sorting
  import opened Gaps
  import opened Daemon

  // The invariant of a pool: distinct indexes strictly between the network and
  // the broadcast address, none excluded, each address at its index.
  ghost predicate PoolOk(pod: Cidr, ranges: seq<Range>, allocations: seq<Allocation>)
    requires pod.len <= 32
  {
    && NoDuplicates(IndexList(allocations))
    && forall k :: 0 <= k < |allocations| ==>
         && 1 <= allocations[k].index < MaxIndex(pod)
         && !Excluded(ranges, allocations[k].index)
         && allocations[k].address == pod.base + allocations[k].index
  }

  // What the pool invariant needs of the next index.
  ghost predicate Sound(pod: Cidr, ranges: seq<Range>, allocations: seq<Allocation>, i: Option<int>)
    requires pod.len <= 32
  {
    i.Some? ==> 1 <= i.value < MaxIndex(pod) && i.value !in IndexList(allocations) && !Excluded(ranges, i.value)
  }

  ghost predicate RangesFormed(ranges: seq<Range>)
  {
    forall k :: 0 <= k < |ranges| ==> 0 <= ranges[k].lo <= ranges[k].hi
  }

  // No index up to maxIndex is in two ranges, and index 0 is in none.
  ghost predicate Clear(ranges: seq<Range>, maxIndex: int)
  {
    && (forall k, l, i :: 0 <= k < l < |ranges| && InRange(i, ranges[k]) && InRange(i, ranges[l]) ==> i > maxIndex)
    && (forall k :: 0 <= k < |ranges| && InRange(0, ranges[k]) ==> 0 > maxIndex)
  }

  // ---------- Clear ranges expand without duplicates ----------

  lemma {:induction false} UpToDistinct(lo: int, top: int)
    ensures NoDuplicates(UpTo(lo, top))
    decreases top - lo
  {
    if lo <= top {
      UpToDistinct(lo, top - 1);
      var init := UpTo(lo, top - 1);
      assert forall k :: 0 <= k < |init| ==> init[k] in init;
    }
  }

  lemma ConcatDistinct(a: seq<int>, b: seq<int>)
    ensures NoDuplicates(a + b) <==> NoDuplicates(a) && NoDuplicates(b) && forall x :: x in a ==> x !in b
  {
    var s := a + b;
    if NoDuplicates(s) {
      assert NoDuplicates(a) by { assert forall i :: 0 <= i < |a| ==> s[i] == a[i]; }
      forall i, j | 0 <= i < j < |b| ensures b[i] != b[j] {
        assert s[|a| + i] == b[i] && s[|a| + j] == b[j];
      }
      forall x | x in a ensures x !in b {
        var i :| 0 <= i < |a| && a[i] == x;
        forall j | 0 <= j < |b| ensures b[j] != x { assert s[i] == x && s[|a| + j] == b[j]; }
      }
    } else {
      var i, j :| 0 <= i < j < |s| && s[i] == s[j];
      if |a| <= i {
        assert s[i] == b[i - |a|] && s[j] == b[j - |a|];
      } else if |a| <= j {
        assert s[i] in a && s[j] == b[j - |a|];
      }
    }
  }

  lemma {:induction false} ClearIsDistinct(ranges: seq<Range>, maxIndex: int)
    ensures NoDuplicates(RangeIndexes(ranges, maxIndex)) <==>
            forall k, l, i :: 0 <= k < l < |ranges| && InRange(i, ranges[k]) && InRange(i, ranges[l]) ==> i > maxIndex
  {
    if ranges != [] {
      var n := |ranges| - 1;
      var init, last := RangeIndexes(ranges[..n], maxIndex), Expand(ranges[n], maxIndex);
      ClearIsDistinct(ranges[..n], maxIndex);
      UpToDistinct(ranges[n].lo, if ranges[n].hi < maxIndex then ranges[n].hi else maxIndex);
      ConcatDistinct(init, last);
      forall x ensures x in init <==> Excluded(ranges[..n], x) && x <= maxIndex {
        RangeIndexesExact(ranges[..n], maxIndex, x);
      }
      assert forall k :: 0 <= k < n ==> ranges[..n][k] == ranges[k];
      if NoDuplicates(init + last) {
        forall k, l, i | 0 <= k < l < |ranges| && InRange(i, ranges[k]) && InRange(i, ranges[l]) ensures i > maxIndex {
          if l == n {
            assert InRange(i, ranges[..n][k]);
            assert i <= maxIndex ==> i in init && i in last;
          } else {
            assert InRange(i, ranges[..n][k]) && InRange(i, ranges[..n][l]);
          }
        }
      } else if NoDuplicates(init) {
        var x :| x in init && x in last;
        var k :| 0 <= k < n && InRange(x, ranges[..n][k]);
        assert InRange(x, ranges[k]) && InRange(x, ranges[n]) && x <= maxIndex;
      } else {
        var k, l, i :| 0 <= k < l < n && InRange(i, ranges[..n][k]) && InRange(i, ranges[..n][l]) && i <= maxIndex;
        assert InRange(i, ranges[k]) && InRange(i, ranges[l]);
      }
    }
  }

  // ---------- Clear ranges make every choice sound ----------

  lemma TakenExactly(pod: Cidr, ranges: seq<Range>, allocations: seq<Allocation>, i: int)
    requires pod.len <= 32
    ensures i in Indexes(allocations, MaxIndex(pod), ranges) <==>
            i in IndexList(allocations) || (Excluded(ranges, i) && i <= MaxIndex(pod))
  {
    RangeIndexesExact(ranges, MaxIndex(pod), i);
  }

  lemma TakenBounds(pod: Cidr, ranges: seq<Range>, allocations: seq<Allocation>, i: int)
    requires pod.len <= 32 && PoolOk(pod, ranges, allocations) && RangesFormed(ranges)
    requires i in Indexes(allocations, MaxIndex(pod), ranges)
    ensures 0 <= i <= MaxIndex(pod)
    ensures Clear(ranges, MaxIndex(pod)) ==> 1 <= i
  {
    TakenExactly(pod, ranges, allocations, i);
    if i in IndexList(allocations) {
      var k :| 0 <= k < |allocations| && IndexList(allocations)[k] == i;
    }
  }

  // The indexes taken are distinct, so sorting makes them strictly increasing.
  lemma TakenDistinct(pod: Cidr, ranges: seq<Range>, allocations: seq<Allocation>)
    requires pod.len <= 32 && PoolOk(pod, ranges, allocations) && Clear(ranges, MaxIndex(pod))
    ensures StrictlyIncreasing(Indexes(allocations, MaxIndex(pod), ranges))
  {
    var own, out := IndexList(allocations), RangeIndexes(ranges, MaxIndex(pod));
    ClearIsDistinct(ranges, MaxIndex(pod));
    forall x | x in own ensures x !in out {
      RangeIndexesExact(ranges, MaxIndex(pod), x);
    }
    ConcatDistinct(own, out);
    SortStrict(own + out);
  }

  // Going beyond the last taken index is sound whatever the excludes.
  lemma FastPathSound(pod: Cidr, ranges: seq<Range>, allocations: seq<Allocation>, offset: nat)
    requires pod.len <= 32 && PoolOk(pod, ranges, allocations) && RangesFormed(ranges) && offset >= 1
    ensures var s := Indexes(allocations, MaxIndex(pod), ranges);
      var next := if |s| > 0 then s[|s| - 1] + offset else offset;
      next < MaxIndex(pod) ==> Sound(pod, ranges, allocations, Some(next))
  {
    var s := Indexes(allocations, MaxIndex(pod), ranges);
    var next := if |s| > 0 then s[|s| - 1] + offset else offset;
    if |s| > 0 { TakenBounds(pod, ranges, allocations, s[|s| - 1]); }
    TakenExactly(pod, ranges, allocations, next);
    assert next !in s;
  }

  lemma FallbackSound(pod: Cidr, ranges: seq<Range>, allocations: seq<Allocation>)
    requires pod.len <= 32 && PoolOk(pod, ranges, allocations) && RangesFormed(ranges) && Clear(ranges, MaxIndex(pod))
    ensures var gap := DaemonFindAvailableIndex(Indexes(allocations, MaxIndex(pod), ranges), 0);
      gap != -1 ==> Sound(pod, ranges, allocations, Some(gap))
  {
    var s := Indexes(allocations, MaxIndex(pod), ranges);
    TakenDistinct(pod, ranges, allocations);
    DaemonIsStartOne(s, 0);
    if s != [] {
      TakenBounds(pod, ranges, allocations, s[0]);
      TakenBounds(pod, ranges, allocations, s[|s| - 1]);
      FindsLeastMissing(s, 0, 1);
      TakenExactly(pod, ranges, allocations, DaemonFindAvailableIndex(s, 0));
    }
  }

  lemma ChoiceSound(pod: Cidr, ranges: seq<Range>, allocations: seq<Allocation>, offset: nat)
    requires pod.len <= 32 && PoolOk(pod, ranges, allocations) && RangesFormed(ranges) && offset >= 1
    requires Clear(ranges, MaxIndex(pod))
    ensures Sound(pod, ranges, allocations, NextIndex(Indexes(allocations, MaxIndex(pod), ranges), offset, MaxIndex(pod)))
  {
    FastPathSound(pod, ranges, allocations, offset);
    FallbackSound(pod, ranges, allocations);
  }

  // No address is handed out exactly when the largest taken index is the number of
  // taken ones, counted with repeats, and the offset leads past the end. With clear
  // ranges that means they run from 1 without a gap.
  lemma NoAddressExactly(pod: Cidr, ranges: seq<Range>, allocations: seq<Allocation>, offset: nat)
    requires pod.len <= 32
    ensures var s := Indexes(allocations, MaxIndex(pod), ranges);
      && (NextIndex(s, offset, MaxIndex(pod)) == None <==>
            (s != [] ==> s[|s| - 1] == |s|) && |s| + offset >= MaxIndex(pod))
      && (PoolOk(pod, ranges, allocations) && RangesFormed(ranges) && Clear(ranges, MaxIndex(pod)) ==>
            ((s != [] ==> s[|s| - 1] == |s|) <==> forall i :: 1 <= i <= |s| ==> i in s))
  {
    var s := Indexes(allocations, MaxIndex(pod), ranges);
    DaemonIsStartOne(s, 0);
    SearchResult(s, 0, 1);
    if PoolOk(pod, ranges, allocations) && RangesFormed(ranges) && Clear(ranges, MaxIndex(pod)) && s != [] {
      GaplessExactly(pod, ranges, allocations);
    }
  }

  lemma GaplessExactly(pod: Cidr, ranges: seq<Range>, allocations: seq<Allocation>)
    requires pod.len <= 32 && PoolOk(pod, ranges, allocations) && RangesFormed(ranges) && Clear(ranges, MaxIndex(pod))
    requires Indexes(allocations, MaxIndex(pod), ranges) != []
    ensures var s := Indexes(allocations, MaxIndex(pod), ranges);
      s[|s| - 1] == |s| <==> forall i :: 1 <= i <= |s| ==> i in s
  {
    var s := Indexes(allocations, MaxIndex(pod), ranges);
    TakenDistinct(pod, ranges, allocations);
    TakenBounds(pod, ranges, allocations, s[0]);
    if s[|s| - 1] == |s| {
      FullHasNoGap(s, 1);
      forall i | 1 <= i <= |s| ensures i in s { assert s[i - 1] == i; }
    } else if forall i :: 1 <= i <= |s| ==> i in s {
      HoldsRun(s, |s|);
    }
  }

  // A strictly increasing list from 1 on that holds all of 1..|s| is just that.
  lemma {:induction false} HoldsRun(s: seq<int>, i: nat)
    requires StrictlyIncreasing(s) && 1 <= i <= |s| && 1 <= s[0] && forall j :: 1 <= j <= |s| ==> j in s
    ensures s[i - 1] == i
  {
    if i == 1 {
      assert 1 in s;
    } else {
      HoldsRun(s, i - 1);
      assert i in s;
      var k :| 0 <= k < |s| && s[k] == i;
    }
  }

  ghost predicate Full(pod: Cidr, ranges: seq<Range>, allocations: seq<Allocation>)
    requires pod.len <= 32
  {
    forall i :: 1 <= i < MaxIndex(pod) ==> i in IndexList(allocations) || Excluded(ranges, i)
  }

  // With offset 1, only when every index is allocated or excluded.
  lemma NoAddressMeansFull(pod: Cidr, ranges: seq<Range>, allocations: seq<Allocation>)
    requires pod.len <= 32 && PoolOk(pod, ranges, allocations) && RangesFormed(ranges) && Clear(ranges, MaxIndex(pod))
    ensures NextIndex(Indexes(allocations, MaxIndex(pod), ranges), 1, MaxIndex(pod)) == None <==> Full(pod, ranges, allocations)
  {
    var s := Indexes(allocations, MaxIndex(pod), ranges);
    NoAddressExactly(pod, ranges, allocations, 1);
    if NextIndex(s, 1, MaxIndex(pod)) == None {
      forall i | 1 <= i < MaxIndex(pod) ensures i in IndexList(allocations) || Excluded(ranges, i) {
        assert i in s;
        TakenExactly(pod, ranges, allocations, i);
      }
    } else {
      var i := NextIndex(s, 1, MaxIndex(pod)).value;
      ChoiceSound(pod, ranges, allocations, 1);
    }
  }

  // ---------- Ranges that are not clear make some choice unsound ----------

  // A sorted list over 0..maxIndex that holds all of 1..maxIndex-1 and holds 0 or
  // something twice. Its k-th element lags behind k + 1 from some point on.
  ghost predicate Crowded(s: seq<int>, maxIndex: int)
  {
    && Sorted(s) && s != []
    && (forall x :: x in s ==> 0 <= x <= maxIndex)
    && (forall x :: 1 <= x < maxIndex ==> x in s)
    && (0 in s || !NoDuplicates(s))
  }

  lemma CrowdedStep(s: seq<int>, maxIndex: int, k: nat)
    requires Crowded(s, maxIndex) && k + 1 < |s|
    ensures s[k + 1] <= s[k] + 1
  {
    var x := s[k] + 1;
    assert s[k] in s && s[k + 1] in s;
    if x < s[k + 1] {
      assert x in s;
      var j :| 0 <= j < |s| && s[j] == x;
    }
  }

  lemma {:induction false} CrowdedLags(s: seq<int>, maxIndex: int, k: nat, j: nat)
    requires Crowded(s, maxIndex) && j <= k < |s| && s[j] <= j
    ensures s[k] <= k
  {
    if j < k {
      CrowdedLags(s, maxIndex, k - 1, j);
      CrowdedStep(s, maxIndex, k - 1);
    }
  }

  lemma {:induction false} CrowdedBound(s: seq<int>, maxIndex: int, k: nat)
    requires Crowded(s, maxIndex) && k < |s|
    ensures s[k] <= k + 1
  {
    if k == 0 {
      assert s[0] in s;
      if maxIndex > 1 { assert 1 in s; }
    } else {
      CrowdedBound(s, maxIndex, k - 1);
      CrowdedStep(s, maxIndex, k - 1);
    }
  }

  lemma CrowdedEndsEarly(s: seq<int>, maxIndex: int)
    requires Crowded(s, maxIndex)
    ensures s[|s| - 1] < |s|
  {
    if 0 in s {
      assert s[0] in s;
      assert s[0] <= 0;
      CrowdedLags(s, maxIndex, |s| - 1, 0);
    } else {
      var i, j :| 0 <= i < j < |s| && s[i] == s[j];
      CrowdedBound(s, maxIndex, i);
      CrowdedLags(s, maxIndex, |s| - 1, j);
    }
  }

  // On such a list the search returns an index that is taken or out of range.
  lemma CrowdedMisleads(s: seq<int>, maxIndex: int)
    requires Crowded(s, maxIndex)
    ensures var r := FindAvailableIndex(s, 0, 1); r != -1 && (r in s || r >= maxIndex)
  {
    var r := FindAvailableIndex(s, 0, 1);
    SearchResult(s, 0, 1);
    CrowdedEndsEarly(s, maxIndex);
    CrowdedBound(s, maxIndex, r - 1);
    if r < maxIndex { assert r in s; }
  }

  // Every index that is not excluded, allocated.
  function FullPool(pod: Cidr, ranges: seq<int>, n: int): (s: seq<Allocation>)
    requires pod.len <= 32
    decreases n
  {
    if n <= 1 then []
    else FullPool(pod, ranges, n - 1) + if n - 1 in ranges then [] else [Allocation("", "", n - 1, pod.base + n - 1)]
  }

  lemma {:induction false} FullPoolExact(pod: Cidr, ranges: seq<Range>, n: int)
    requires pod.len <= 32 && n <= MaxIndex(pod)
    ensures var full := FullPool(pod, RangeIndexes(ranges, MaxIndex(pod)), n);
      && PoolOk(pod, ranges, full)
      && (forall i :: i in IndexList(full) ==> i < n)
      && (forall i :: 1 <= i < n ==> i in IndexList(full) || Excluded(ranges, i))
    decreases n
  {
    var full := FullPool(pod, RangeIndexes(ranges, MaxIndex(pod)), n);
    if n > 1 {
      var less := FullPool(pod, RangeIndexes(ranges, MaxIndex(pod)), n - 1);
      FullPoolExact(pod, ranges, n - 1);
      RangeIndexesExact(ranges, MaxIndex(pod), n - 1);
      FullPoolGrows(pod, ranges, less, full, n);
    }
  }

  lemma FullPoolGrows(pod: Cidr, ranges: seq<Range>, less: seq<Allocation>, full: seq<Allocation>, n: int)
    requires pod.len <= 32 && 1 < n <= MaxIndex(pod) && PoolOk(pod, ranges, less)
    requires forall i :: i in IndexList(less) ==> i < n - 1
    requires forall i :: 1 <= i < n - 1 ==> i in IndexList(less) || Excluded(ranges, i)
    requires full == if Excluded(ranges, n - 1) then less else less + [Allocation("", "", n - 1, pod.base + n - 1)]
    ensures PoolOk(pod, ranges, full)
    ensures forall i :: i in IndexList(full) ==> i < n
    ensures forall i :: 1 <= i < n ==> i in IndexList(full) || Excluded(ranges, i)
  {
    if !Excluded(ranges, n - 1) {
      assert IndexList(full) == IndexList(less) + [n - 1];
      assert forall k :: 0 <= k < |less| ==> IndexList(less)[k] in IndexList(less);
    }
  }

  // The full pool of ranges that are not clear is a pool that satisfies the
  // invariant and for which the daemon picks a taken or reserved index.
  lemma FullPoolMisleads(pod: Cidr, ranges: seq<Range>)
    requires pod.len <= 32 && RangesFormed(ranges) && !Clear(ranges, MaxIndex(pod))
    ensures var full := FullPool(pod, RangeIndexes(ranges, MaxIndex(pod)), MaxIndex(pod));
      && PoolOk(pod, ranges, full)
      && Full(pod, ranges, full)
      && !Sound(pod, ranges, full, NextIndex(Indexes(full, MaxIndex(pod), ranges), 1, MaxIndex(pod)))
  {
    var n := MaxIndex(pod);
    var full := FullPool(pod, RangeIndexes(ranges, n), n);
    FullPoolExact(pod, ranges, n);
    var s := Indexes(full, n, ranges);
    FullPoolIsCrowded(pod, ranges, full);
    CrowdedMisleads(s, n);
    DaemonIsStartOne(s, 0);
    var r := DaemonFindAvailableIndex(s, 0);
    assert NextIndex(s, 1, n) == Some(r) by {
      assert s[|s| - 1] in s;
      if n > 1 { assert n - 1 in s; }
    }
    TakenExactly(pod, ranges, full, r);
  }

  lemma FullPoolIsCrowded(pod: Cidr, ranges: seq<Range>, full: seq<Allocation>)
    requires pod.len <= 32 && RangesFormed(ranges) && !Clear(ranges, MaxIndex(pod)) && PoolOk(pod, ranges, full)
    requires forall i :: 1 <= i < MaxIndex(pod) ==> i in IndexList(full) || Excluded(ranges, i)
    ensures Crowded(Indexes(full, MaxIndex(pod), ranges), MaxIndex(pod))
  {
    var n := MaxIndex(pod);
    var own, out, s := IndexList(full), RangeIndexes(ranges, n), Indexes(full, n, ranges);
    forall x | x in s ensures 0 <= x <= n { TakenBounds(pod, ranges, full, x); }
    forall x | 1 <= x < n ensures x in s { TakenExactly(pod, ranges, full, x); }
    ClearIsDistinct(ranges, n);
    ConcatDistinct(own, out);
    if NoDuplicates(s) {
      PermutationNoDuplicates(s, own + out);
      var k :| 0 <= k < |ranges| && InRange(0, ranges[k]) && 0 <= n;
      TakenExactly(pod, ranges, full, 0);
    } else {
      assert s != [];
    }
  }

  // The daemon's choice keeps the invariant of every pool, exactly when the
  // exclude ranges are clear.
  lemma ChoiceSoundExactlyWhenClear(pod: Cidr, ranges: seq<Range>)
    requires pod.len <= 32 && RangesFormed(ranges)
    ensures Clear(ranges, MaxIndex(pod)) <==>
      forall allocations, offset: nat :: PoolOk(pod, ranges, allocations) && offset >= 1 ==>
        Sound(pod, ranges, allocations, NextIndex(Indexes(allocations, MaxIndex(pod), ranges), offset, MaxIndex(pod)))
  {
    if Clear(ranges, MaxIndex(pod)) {
      forall allocations, offset: nat | PoolOk(pod, ranges, allocations) && offset >= 1
        ensures Sound(pod, ranges, allocations, NextIndex(Indexes(allocations, MaxIndex(pod), ranges), offset, MaxIndex(pod)))
      {
        ChoiceSound(pod, ranges, allocations, offset);
      }
    } else {
      FullPoolMisleads(pod, ranges);
    }
  }

  // With offset 1, "no address" means a full pool, for every pool, exactly when the
  // exclude ranges are clear.
  lemma NoAddressMeansFullExactlyWhenClear(pod: Cidr, ranges: seq<Range>)
    requires pod.len <= 32 && RangesFormed(ranges)
    ensures Clear(ranges, MaxIndex(pod)) <==>
      forall allocations :: PoolOk(pod, ranges, allocations) ==>
        (NextIndex(Indexes(allocations, MaxIndex(pod), ranges), 1, MaxIndex(pod)) == None <==> Full(pod, ranges, allocations))
  {
    if Clear(ranges, MaxIndex(pod)) {
      forall allocations | PoolOk(pod, ranges, allocations)
        ensures NextIndex(Indexes(allocations, MaxIndex(pod), ranges), 1, MaxIndex(pod)) == None <==> Full(pod, ranges, allocations)
      {
        NoAddressMeansFull(pod, ranges, allocations);
      }
    } else {
      FullPoolMisleads(pod, ranges);
    }
  }
}
