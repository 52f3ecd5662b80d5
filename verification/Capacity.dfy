// How many addresses a pool without excludes hands out (daemon/src/allocator), in
// terms of its prefix length.
module Capacity {
  import opened Powers
  import opened Blocks
  import opened Compute
  import opened Sorting
  import opened Gaps
  import opened Daemon
  import opened DaemonGuard
  import opened DaemonRuns

  // All addresses but the network address, the broadcast address and the one below.
  function Room(pod: Cidr): nat
    requires pod.len <= 32
  {
    if pod.len >= 31 then 0 else RoomFits(pod); Pow2(32 - pod.len) - 3
  }

  lemma RoomFits(pod: Cidr)
    requires pod.len <= 30
    ensures Pow2(32 - pod.len) >= 4
  {
    Pow2Mono(2, 32 - pod.len);
    assert Pow2(2) == 4;
  }

  // The indexes from 1 to Room are the ones between 0 and MaxIndex.
  lemma RoomIsBelowMax(pod: Cidr)
    requires pod.len <= 32
    ensures Room(pod) == if MaxIndex(pod) > 0 then MaxIndex(pod) - 1 else 0
  {
    if pod.len <= 30 { RoomFits(pod); }
    assert Pow2(0) == 1 && Pow2(1) == 2;
  }

  // ---------- Filling a pool ----------

  // The first requests have been served in turn.
  ghost predicate ServedInTurn(pod: Cidr, steps: seq<Step>, allocations: seq<Allocation>)
  {
    && |allocations| <= |steps|
    && forall k :: 0 <= k < |allocations| ==>
         steps[k].Allocate? && allocations[k] == Allocation(steps[k].pod, steps[k].namespace, k + 1, pod.base + k + 1)
  }

  lemma TakenInTurn(pod: Cidr, allocations: seq<Allocation>, max: int)
    requires forall k :: 0 <= k < |allocations| ==> allocations[k].index == k + 1
    ensures Indexes(allocations, max, []) == IndexList(allocations)
    ensures var s := IndexList(allocations); NextIndex(s, 1, max) == if |s| + 1 < max then Some(|s| + 1) else None
  {
    var s := IndexList(allocations);
    assert s + [] == s;
    SortedStays(s);
    DaemonIsStartOne(s, 0);
    SearchResult(s, 0, 1);
  }

  lemma PickInTurn(pod: Cidr, allocations: seq<Allocation>)
    requires Canonical(pod) && forall k :: 0 <= k < |allocations| ==> allocations[k].index == k + 1
    ensures var n := |allocations|; Pick(PoolConfig(pod, []), allocations, 1) == if n < Room(pod) then Some(n + 1) else None
  {
    assert Ranges(PoolConfig(pod, [])) == [];
    TakenInTurn(pod, allocations, MaxIndex(pod));
    RoomIsBelowMax(pod);
  }

  lemma NextInTurn(pod: Cidr, asMeant: bool, allocations: seq<Allocation>, step: Step)
    requires Canonical(pod) && step.Allocate? && forall k :: 0 <= k < |allocations| ==> allocations[k].index == k + 1
    ensures var n := |allocations|;
      Apply(PoolConfig(pod, []), asMeant, State(allocations, map[]), step) ==
      State(if n < Room(pod) then allocations + [Allocation(step.pod, step.namespace, n + 1, pod.base + n + 1)] else allocations, map[])
  {
    var history: map<string, nat> := map[];
    assert history - step.expired == history;
    PickInTurn(pod, allocations);
    if |allocations| < Room(pod) {
      RoomFits(pod);
      AddressIsSum(pod, |allocations| + 1);
      assert LastLarger(allocations, |allocations| + 1) == -1;
    }
  }

  lemma ServedFurther(pod: Cidr, steps: seq<Step>, allocations: seq<Allocation>)
    requires steps != [] && ServedInTurn(pod, steps[..|steps| - 1], allocations)
    ensures ServedInTurn(pod, steps, allocations)
    ensures var step, n := steps[|steps| - 1], |allocations|;
      step.Allocate? && n == |steps| - 1 ==>
        ServedInTurn(pod, steps, allocations + [Allocation(step.pod, step.namespace, n + 1, pod.base + n + 1)])
  {
  }

  // Whatever pods ask, a pool of prefix length p serves the first 2^(32 - p) - 3
  // of them, with the addresses above its network address in turn, and none after.
  lemma {:induction false} PoolServesItsRoom(pod: Cidr, asMeant: bool, steps: seq<Step>)
    requires Canonical(pod) && forall k :: 0 <= k < |steps| ==> steps[k].Allocate?
    ensures var after := Run(PoolConfig(pod, []), asMeant, State([], map[]), steps);
      && after.history == map[] && ServedInTurn(pod, steps, after.allocations)
      && |after.allocations| == if |steps| < Room(pod) then |steps| else Room(pod)
  {
    if steps != [] {
      var n := |steps| - 1;
      PoolServesItsRoom(pod, asMeant, steps[..n]);
      var before := Run(PoolConfig(pod, []), asMeant, State([], map[]), steps[..n]);
      NextInTurn(pod, asMeant, before.allocations, steps[n]);
      ServedFurther(pod, steps, before.allocations);
    }
  }

  // ---------- Any pool without excludes ----------

  ghost function Numbers(n: nat): (s: set<int>)
    ensures |s| == n && forall i :: i in s <==> 1 <= i <= n
  {
    if n == 0 then {} else Numbers(n - 1) + {n}
  }

  lemma SubsetCount(a: set<int>, b: set<int>)
    requires a <= b
    ensures |a| <= |b| && (|a| == |b| <==> a == b)
  {
    assert b == a + (b - a);
  }

  // A pool in order holds at most that many allocations, and an allocation finds
  // no address exactly when it holds that many.
  lemma NoneLeftExactly(pod: Cidr, allocations: seq<Allocation>)
    requires Canonical(pod) && PoolOk(pod, [], allocations)
    ensures |allocations| <= Room(pod)
    ensures Pick(PoolConfig(pod, []), allocations, 1) == None <==> |allocations| == Room(pod)
  {
    var own := IndexList(allocations);
    var taken, all := Members(own), Numbers(Room(pod));
    MembersCount(own);
    RoomIsBelowMax(pod);
    forall i | i in taken ensures i in all {
      var k :| 0 <= k < |own| && own[k] == i;
    }
    SubsetCount(taken, all);
    assert Ranges(PoolConfig(pod, [])) == [];
    NoAddressMeansFull(pod, [], allocations);
    FullMeansAll(pod, allocations);
  }

  lemma FullMeansAll(pod: Cidr, allocations: seq<Allocation>)
    requires pod.len <= 32 && PoolOk(pod, [], allocations)
    ensures Full(pod, [], allocations) <==> Members(IndexList(allocations)) == Numbers(Room(pod))
  {
    RoomIsBelowMax(pod);
    var taken, all := Members(IndexList(allocations)), Numbers(Room(pod));
    forall i | i in taken ensures i in all {
      var k :| 0 <= k < |allocations| && IndexList(allocations)[k] == i;
    }
    if Full(pod, [], allocations) {
      forall i | i in all ensures i in taken {}
    }
  }
}
