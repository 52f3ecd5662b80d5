// The divide-and-conquer search for the first unused index, in the controller
// (internal/compute) and in the daemon (daemon/src/allocator).
module Gaps {
  import opened Sorting

  function FindAvailableIndex(indexes: seq<int>, left: int, start: int): int
    decreases |indexes|
  {
    if |indexes| == 0 then -1
    else if indexes[|indexes| - 1] - left == |indexes| - 1 + start then -1
    else if indexes[0] != left + start then left + start
    else
      var mid := |indexes| / 2;
      var l := FindAvailableIndex(indexes[..mid], left, start);
      if l != -1 then l
      else FindAvailableIndex(indexes[mid..], left + mid, start)
  }

  function DaemonFindAvailableIndex(indexes: seq<int>, left: int): int
    decreases |indexes|
  {
    if |indexes| == 0 then -1
    else if indexes[|indexes| - 1] - left == |indexes| then -1
    else if indexes[0] != left + 1 then left + 1
    else
      var mid := |indexes| / 2;
      var l := DaemonFindAvailableIndex(indexes[..mid], left);
      if l != -1 then l
      else DaemonFindAvailableIndex(indexes[mid..], left + mid)
  }

  lemma {:induction false} DaemonIsStartOne(indexes: seq<int>, left: int)
    ensures DaemonFindAvailableIndex(indexes, left) == FindAvailableIndex(indexes, left, 1)
    decreases |indexes|
  {
    if |indexes| != 0 && indexes[|indexes| - 1] - left != |indexes| && indexes[0] == left + 1 {
      DaemonIsStartOne(indexes[..|indexes| / 2], left);
      DaemonIsStartOne(indexes[|indexes| / 2..], left + |indexes| / 2);
    }
  }

  // The search reports no gap exactly when the list is empty or its last element
  // is where a gapless list would end.
  ghost predicate LooksFull(s: seq<int>, first: int)
  {
    s == [] || s[|s| - 1] == first + |s| - 1
  }

  // Position a is where the list first leaves the run first, first + 1, ...
  // as far as its neighbour on the left can tell.
  ghost predicate Boundary(s: seq<int>, first: int, a: int)
  {
    && 0 <= a < |s|
    && s[a] != first + a
    && (a == 0 || s[a - 1] == first + a - 1)
  }

  // What the search returns on any list, sorted or not.
  lemma {:induction false} SearchResult(s: seq<int>, left: int, start: int)
    requires left + start >= 0
    ensures var r := FindAvailableIndex(s, left, start);
      if LooksFull(s, left + start) then r == -1
      else Boundary(s, left + start, r - left - start)
    decreases |s|
  {
    if !LooksFull(s, left + start) && s[0] == left + start {
      var mid := |s| / 2;
      SearchResult(s[..mid], left, start);
      SearchResult(s[mid..], left + mid, start);
    }
  }

  // r is the least value from first on that is not in s.
  ghost predicate LeastMissing(s: seq<int>, first: int, r: int)
  {
    && first <= r
    && r !in s
    && forall v :: first <= v < r ==> v in s
  }

  lemma {:induction false} StrictGrowth(s: seq<int>, i: nat, j: nat)
    requires StrictlyIncreasing(s) && i <= j < |s|
    ensures s[j] >= s[i] + (j - i)
  {
    if i < j { StrictGrowth(s, i, j - 1); }
  }

  lemma FullHasNoGap(s: seq<int>, first: int)
    requires StrictlyIncreasing(s) && (s != [] ==> first <= s[0]) && LooksFull(s, first)
    ensures forall k :: 0 <= k < |s| ==> s[k] == first + k
  {
    forall k | 0 <= k < |s| ensures s[k] == first + k {
      StrictGrowth(s, 0, k);
      StrictGrowth(s, k, |s| - 1);
    }
  }

  lemma BoundaryIsLeastMissing(s: seq<int>, first: int, a: int)
    requires StrictlyIncreasing(s) && s != [] && first <= s[0] && Boundary(s, first, a)
    ensures LeastMissing(s, first, first + a) && first + a < s[|s| - 1]
  {
    StrictGrowth(s, 0, a);
    forall v | first <= v < first + a ensures v in s {
      StrictGrowth(s, 0, v - first);
      StrictGrowth(s, v - first, a - 1);
      assert s[v - first] == v;
    }
  }

  // On a strictly increasing list that does not start below the first candidate,
  // the search returns the least missing index below the last element, and
  // reports none exactly when the list has no gap.
  lemma FindsLeastMissing(s: seq<int>, left: int, start: int)
    requires left + start >= 0
    requires StrictlyIncreasing(s) && (s != [] ==> left + start <= s[0])
    ensures var r := FindAvailableIndex(s, left, start);
      if r == -1 then forall k :: 0 <= k < |s| ==> s[k] == left + start + k
      else s != [] && LeastMissing(s, left + start, r) && r < s[|s| - 1]
    ensures FindAvailableIndex(s, left, start) == -1 <==> LooksFull(s, left + start)
  {
    SearchResult(s, left, start);
    if LooksFull(s, left + start) {
      FullHasNoGap(s, left + start);
    } else {
      BoundaryIsLeastMissing(s, left + start, FindAvailableIndex(s, left, start) - left - start);
    }
  }
}
