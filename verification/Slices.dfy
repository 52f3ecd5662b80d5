// Go's append and the two places where the allocator edits a pool's list with it
// (daemon/src/allocator): a slice is the first n elements of a backing array.
module Slices {
  import opened Daemon
  import opened DaemonRuns

  // append(backing[:n], extra...): in place if the capacity allows, else a copy.
  // The appended values are read before anything is written.
  method Append(backing: array<Allocation>, n: nat, extra: seq<Allocation>) returns (b: array<Allocation>, m: nat)
    requires n <= backing.Length
    modifies backing
    ensures m == n + |extra| && m <= b.Length
    ensures b[..m] == old(backing[..n]) + extra
    ensures m <= backing.Length ==> b == backing && forall k :: m <= k < b.Length ==> b[k] == old(backing[k])
    ensures m > backing.Length ==> fresh(b) && backing[..] == old(backing[..])
  {
    m := n + |extra|;
    if m <= backing.Length {
      b := backing;
      for k := 0 to |extra|
        modifies backing
        invariant forall j :: 0 <= j < n ==> backing[j] == old(backing[j])
        invariant forall j :: 0 <= j < k ==> backing[n + j] == extra[j]
        invariant forall j :: n + k <= j < backing.Length ==> backing[j] == old(backing[j])
      {
        backing[n + k] := extra[k];
      }
    } else {
      var whole := backing[..n] + extra;
      b := new Allocation[2 * m](i requires 0 <= i < 2 * m => if i < m then whole[i] else whole[0]);
      assert b[..m] == whole;
    }
  }

  // append(append(backing[:t], a), backing[t:n]...): the inner append writes a
  // over the element at t before the outer one reads it.
  method InsertAt(backing: array<Allocation>, n: nat, t: nat, a: Allocation) returns (b: array<Allocation>, m: nat)
    requires t < n <= backing.Length
    modifies backing
    ensures m <= b.Length && b[..m] == old(backing[..t]) + [a, a] + old(backing[t + 1..n])
  {
    ghost var head, tail := backing[..t], backing[t + 1..n];
    b, m := Append(backing, t, [a]);
    assert b[..m] == head + [a];
    var rest := backing[t..n];
    assert rest[0] == b[..m][t] == a;
    assert rest[1..] == tail;
    b, m := Append(b, m, rest);
    assert head + [a] + rest == head + [a, a] + tail;
  }

  // The insertion in applyNewAllocations.
  method ApplyNewAllocation(backing: array<Allocation>, n: nat, a: Allocation) returns (b: array<Allocation>, m: nat)
    requires n <= backing.Length
    modifies backing
    ensures m <= b.Length && b[..m] == Placed(old(backing[..n]), a)
  {
    ghost var before := backing[..n];
    var toInsertIndex := -1;
    for k := 0 to n
      invariant -1 <= toInsertIndex < k && (toInsertIndex >= 0 ==> backing[toInsertIndex].index > a.index)
      invariant forall j :: toInsertIndex < j < k ==> backing[j].index <= a.index
    {
      if backing[k].index > a.index { toInsertIndex := k; }
    }
    assert toInsertIndex == LastLarger(before, a.index);
    if toInsertIndex == -1 {
      b, m := Append(backing, n, [a]);
    } else {
      assert before[..toInsertIndex] == backing[..toInsertIndex];
      assert before[toInsertIndex + 1..] == backing[toInsertIndex + 1..n];
      b, m := InsertAt(backing, n, toInsertIndex, a);
    }
  }

  // The removal in DeallocateIP.
  method RemoveFirst(backing: array<Allocation>, n: nat, pod: string, namespace: string) returns (b: array<Allocation>, m: nat)
    requires n <= backing.Length
    modifies backing
    ensures m <= b.Length && b[..m] == Without(old(backing[..n]), pod, namespace)
  {
    ghost var before := backing[..n];
    var k := 0;
    while k < n && !Match(backing[k], pod, namespace)
      invariant k <= n && forall j :: 0 <= j < k ==> !Match(before[j], pod, namespace)
    {
      k := k + 1;
    }
    b, m := backing, n;
    if k < n {
      assert before[k] == backing[k];
      assert FirstMatch(before, pod, namespace) == k;
      assert before[..k] == backing[..k] && before[k + 1..] == backing[k + 1..n];
      b, m := Append(backing, k, backing[k + 1..n]);
    }
  }
}
