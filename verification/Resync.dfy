// Bringing the pools in line with the pods that are running
// (GetSyncAllocations and SyncIPPoolWithActivePods, controllers/cidr_handler.go),
// for the pools of one network.
module Resync {
  import opened Powers
  import opened Blocks
  import opened Compute
  import opened Sorting
  import opened Daemon
  import opened Addresses

  datatype Pool = Pool(pod: Cidr, allocations: seq<Allocation>)

  // Allocations by address.
  type ByAddress = map<nat, Allocation>

  ghost predicate Keyed(m: ByAddress)
  {
    forall x :: x in m ==> m[x].address == x
  }

  // Every address has four bytes.
  ghost predicate Dotted(m: ByAddress)
  {
    forall x :: x in m ==> x < ADDRESS_SPACE
  }

  predicate SamePod(a: Allocation, b: Allocation)
  {
    a.pod == b.pod && a.namespace == b.namespace
  }

  predicate Known(active: ByAddress, stored: ByAddress, x: nat)
    requires x in active
  {
    x in stored && SamePod(stored[x], active[x])
  }

  // The stored record of a running pod's address, or a new one at its offset.
  function Synced(pod: Cidr, active: ByAddress, stored: ByAddress, x: nat): Allocation
    requires x in active && pod.base <= x
  {
    if Known(active, stored, x) then stored[x] else active[x].(index := x - pod.base)
  }

  // What one pool takes, in the order the addresses are visited.
  function Taken(pod: Cidr, active: ByAddress, stored: ByAddress, order: seq<nat>): seq<Allocation>
    requires pod.len <= 32 && forall k :: 0 <= k < |order| ==> order[k] in active
  {
    if order == [] then []
    else
      var n := |order| - 1;
      Taken(pod, active, stored, order[..n]) +
      if In(order[n], pod) then [Synced(pod, active, stored, order[n])] else []
  }

  ghost predicate AnyNew(pod: Cidr, active: ByAddress, stored: ByAddress, order: seq<nat>)
    requires pod.len <= 32 && forall k :: 0 <= k < |order| ==> order[k] in active
  {
    exists k :: 0 <= k < |order| && In(order[k], pod) && !Known(active, stored, order[k])
  }

  function Left(m: ByAddress, pod: Cidr): (r: ByAddress)
    requires pod.len <= 32
  {
    map x | x in m && !In(x, pod) :: m[x]
  }

  // Stored records claimed by a running pod are used up.
  function Unmatched(stored: ByAddress, active: ByAddress, pod: Cidr): ByAddress
    requires pod.len <= 32
  {
    map x | x in stored && !(x in active && In(x, pod) && Known(active, stored, x)) :: stored[x]
  }

  ghost predicate Orders(order: seq<nat>, m: ByAddress)
  {
    NoDuplicates(order) && forall x: nat :: x in order <==> x in m
  }

  // The two maps that are emptied as pools take their addresses.
  class Books {
    var active: ByAddress
    var stored: ByAddress

    constructor (active: ByAddress, stored: ByAddress)
      ensures this.active == active && this.stored == stored
    {
      this.active := active;
      this.stored := stored;
    }

    // The body of the loop, for one address.
    method TakeOne(pod: Cidr, syncIP: nat) returns (taken: seq<Allocation>, isNew: bool)
      requires Canonical(pod) && syncIP in active && active[syncIP].address == syncIP < ADDRESS_SPACE
      modifies this
      ensures In(syncIP, pod) ==>
                && taken == [Synced(pod, old(active), old(stored), syncIP)]
                && active == old(active) - {syncIP}
                && stored == (if Known(old(active), old(stored), syncIP) then old(stored) - {syncIP} else old(stored))
                && isNew == !Known(old(active), old(stored), syncIP)
      ensures !In(syncIP, pod) ==> taken == [] && !isNew && active == old(active) && stored == old(stored)
    {
      taken, isNew := [], false;
      var contains, index := IndexOf(pod, active[syncIP].address);
      if contains {
        if syncIP in stored && SamePod(stored[syncIP], active[syncIP]) {
          taken := [stored[syncIP]];
          stored := stored - {syncIP};
        } else {
          taken, isNew := [active[syncIP].(index := index)], true;
        }
        active := active - {syncIP};
      }
    }

    // Every key of the map is visited once although keys are deleted on the way.
    method GetSyncAllocations(pool: Pool, order: seq<nat>) returns (changed: bool, taken: seq<Allocation>)
      requires Canonical(pool.pod) && Keyed(active) && Dotted(active) && Orders(order, active)
      modifies this
      ensures taken == Taken(pool.pod, old(active), old(stored), order)
      ensures active == Left(old(active), pool.pod)
      ensures stored == Unmatched(old(stored), old(active), pool.pod)
      ensures changed <==> AnyNew(pool.pod, old(active), old(stored), order) || |pool.allocations| != |taken|
    {
      changed, taken := false, [];
      ghost var active0, stored0, pod := active, stored, pool.pod;
      for k := 0 to |order|
        invariant Progress(active, stored, active0, stored0, pod, order, k, taken, changed)
      {
        var syncIP := order[k];
        assert syncIP !in order[..k] && syncIP in active0;
        ghost var active1, stored1, taken1, changed1 := active, stored, taken, changed;
        var more, isNew := TakeOne(pool.pod, syncIP);
        taken := taken + more;
        changed := changed || isNew;
        ProgressStep(active1, stored1, active0, stored0, pod, order, k, taken1, changed1, active, stored, taken, changed);
      }
      ProgressDone(active, stored, active0, stored0, pod, order, taken, changed);
      if |pool.allocations| != |taken| { changed := true; }
    }
  }

  // What the loop has done when it reaches position k.
  ghost predicate Progress(active: ByAddress, stored: ByAddress, active0: ByAddress, stored0: ByAddress, pod: Cidr,
                           order: seq<nat>, k: nat, taken: seq<Allocation>, changed: bool)
    requires pod.len <= 32 && (forall j :: 0 <= j < |order| ==> order[j] in active0) && k <= |order|
  {
    && taken == Taken(pod, active0, stored0, order[..k])
    && Agree(active, active0, pod, order[..k])
    && (forall x: nat :: x in order[..k] && In(x, pod) ==> x !in active)
    && StoredAfter(stored, active0, stored0, pod, order[..k])
    && (changed <==> AnyNew(pod, active0, stored0, order[..k]))
  }

  lemma ProgressDone(active: ByAddress, stored: ByAddress, active0: ByAddress, stored0: ByAddress, pod: Cidr,
                     order: seq<nat>, taken: seq<Allocation>, changed: bool)
    requires pod.len <= 32 && Orders(order, active0)
    requires Progress(active, stored, active0, stored0, pod, order, |order|, taken, changed)
    ensures taken == Taken(pod, active0, stored0, order) && (changed <==> AnyNew(pod, active0, stored0, order))
    ensures active == Left(active0, pod) && stored == Unmatched(stored0, active0, pod)
  {
    assert order[..|order|] == order;
  }

  lemma ProgressStep(active: ByAddress, stored: ByAddress, active0: ByAddress, stored0: ByAddress, pod: Cidr,
                     order: seq<nat>, k: nat, taken: seq<Allocation>, changed: bool,
                     active': ByAddress, stored': ByAddress, taken': seq<Allocation>, changed': bool)
    requires pod.len <= 32 && (forall j :: 0 <= j < |order| ==> order[j] in active0) && k < |order|
    requires order[k] !in order[..k] && Progress(active, stored, active0, stored0, pod, order, k, taken, changed)
    requires order[k] in active
    requires if In(order[k], pod) then
               && taken' == taken + [Synced(pod, active, stored, order[k])]
               && active' == active - {order[k]}
               && stored' == (if Known(active, stored, order[k]) then stored - {order[k]} else stored)
               && changed' == (changed || !Known(active, stored, order[k]))
             else taken' == taken && active' == active && stored' == stored && changed' == changed
    ensures Progress(active', stored', active0, stored0, pod, order, k + 1, taken', changed')
  {
    TakenExtends(pod, active, stored, active0, stored0, order, k);
    AgreeStep(active, active', active0, pod, order, k);
    StoredStep(stored, stored', active0, stored0, pod, order, k);
    AnyNewExtends(pod, active0, stored0, order, k);
    assert order[..k + 1] == order[..k] + [order[k]];
  }

  // The keys of a map in some order.
  method Enumerate(m: ByAddress) returns (order: seq<nat>)
    ensures Orders(order, m)
  {
    order := [];
    var keys := m.Keys;
    while keys != {}
      invariant keys <= m.Keys && NoDuplicates(order)
      invariant forall x: nat :: x in order <==> x in m && x !in keys
    {
      var k :| k in keys;
      assert k !in order;
      order := order + [k];
      keys := keys - {k};
    }
  }

  // The loop over the pools in SyncIPPoolWithActivePods.
  method SyncPools(books: Books, pools: seq<Pool>)
    returns (outputs: seq<seq<Allocation>>, changes: seq<bool>, ghost actives: seq<ByAddress>, ghost storeds: seq<ByAddress>, ghost orders: seq<seq<nat>>)
    requires Keyed(books.active) && Dotted(books.active) && forall k :: 0 <= k < |pools| ==> Canonical(pools[k].pod)
    modifies books
    ensures IsSync(pools, Sync(actives, storeds, orders, outputs, changes))
    ensures actives[0] == old(books.active) && storeds[0] == old(books.stored)
    ensures books.active == actives[|pools|] && books.stored == storeds[|pools|]
  {
    outputs, changes, actives, storeds, orders := [], [], [books.active], [books.stored], [];
    for k := 0 to |pools|
      invariant IsSync(pools[..k], Sync(actives, storeds, orders, outputs, changes))
      invariant actives[0] == old(books.active) && storeds[0] == old(books.stored)
      invariant books.active == actives[k] && books.stored == storeds[k] && Keyed(books.active) && Dotted(books.active)
    {
      var order := Enumerate(books.active);
      ghost var active, stored := books.active, books.stored;
      var changed, taken := books.GetSyncAllocations(pools[k], order);
      assert PoolSync(pools[k], active, stored, order, taken, changed, books.active, books.stored);
      SyncExtends(pools[..k], Sync(actives, storeds, orders, outputs, changes), pools[k], order, taken, changed, books.active, books.stored);
      assert pools[..k + 1] == pools[..k] + [pools[k]];
      outputs, changes, orders := outputs + [taken], changes + [changed], orders + [order];
      actives, storeds := actives + [books.active], storeds + [books.stored];
    }
    assert pools[..|pools|] == pools;
  }

  // The maps agree but for the addresses of the block that were visited.
  ghost predicate Agree(m: ByAddress, m0: ByAddress, pod: Cidr, seen: seq<nat>)
    requires pod.len <= 32
  {
    forall x: nat :: x !in seen || !In(x, pod) ==> (x in m <==> x in m0) && (x in m ==> m[x] == m0[x])
  }

  lemma AgreeStep(m: ByAddress, m': ByAddress, m0: ByAddress, pod: Cidr, order: seq<nat>, k: nat)
    requires pod.len <= 32 && k < |order| && Agree(m, m0, pod, order[..k])
    requires m' == m || (In(order[k], pod) && m' == m - {order[k]})
    ensures Agree(m', m0, pod, order[..k + 1])
  {
    assert order[..k + 1] == order[..k] + [order[k]];
  }

  ghost predicate StoredAfter(stored: ByAddress, active0: ByAddress, stored0: ByAddress, pod: Cidr, seen: seq<nat>)
    requires pod.len <= 32
  {
    forall x: nat ::
      && (x in stored <==> x in stored0 && !(x in seen && x in active0 && In(x, pod) && Known(active0, stored0, x)))
      && (x in stored ==> stored[x] == stored0[x])
  }

  lemma StoredStep(stored: ByAddress, stored': ByAddress, active0: ByAddress, stored0: ByAddress, pod: Cidr, order: seq<nat>, k: nat)
    requires pod.len <= 32 && k < |order| && order[k] in active0
    requires StoredAfter(stored, active0, stored0, pod, order[..k])
    requires stored' == if In(order[k], pod) && Known(active0, stored0, order[k]) then stored - {order[k]} else stored
    ensures StoredAfter(stored', active0, stored0, pod, order[..k + 1])
  {
    assert order[..k + 1] == order[..k] + [order[k]];
  }

  lemma TakenExtends(pod: Cidr, active: ByAddress, stored: ByAddress, active0: ByAddress, stored0: ByAddress, order: seq<nat>, k: nat)
    requires pod.len <= 32 && (forall j :: 0 <= j < |order| ==> order[j] in active0) && k < |order|
    requires order[k] !in order[..k]
    requires Agree(active, active0, pod, order[..k]) && StoredAfter(stored, active0, stored0, pod, order[..k])
    ensures order[k] in active && Known(active, stored, order[k]) == Known(active0, stored0, order[k])
    ensures Taken(pod, active0, stored0, order[..k + 1]) ==
            Taken(pod, active0, stored0, order[..k]) +
            if In(order[k], pod) then [Synced(pod, active, stored, order[k])] else []
  {
    assert order[..k + 1][..k] == order[..k];
  }

  lemma AnyNewExtends(pod: Cidr, active: ByAddress, stored: ByAddress, order: seq<nat>, k: nat)
    requires pod.len <= 32 && (forall j :: 0 <= j < |order| ==> order[j] in active) && k < |order|
    ensures AnyNew(pod, active, stored, order[..k + 1]) <==>
            AnyNew(pod, active, stored, order[..k]) || (In(order[k], pod) && !Known(active, stored, order[k]))
  {
    var s, t := order[..k], order[..k + 1];
    if AnyNew(pod, active, stored, s) {
      var j :| 0 <= j < |s| && In(s[j], pod) && !Known(active, stored, s[j]);
      assert t[j] == s[j];
    }
    if In(order[k], pod) && !Known(active, stored, order[k]) { assert t[k] == order[k]; }
    if AnyNew(pod, active, stored, t) {
      var j :| 0 <= j < |t| && In(t[j], pod) && !Known(active, stored, t[j]);
      if j < k { assert s[j] == t[j]; }
    }
  }

  // GetIndexInRange on the dotted forms of a pool's block and an address.
  method IndexOf(pod: Cidr, address: nat) returns (contains: bool, index: nat)
    requires Canonical(pod) && address < ADDRESS_SPACE
    ensures contains <==> In(address, pod)
    ensures contains ==> index == address - pod.base
  {
    RoundTrip(pod, 0, address);
    DottedRoundTrip(address);
    var start := NetworkBytes(pod);
    var bytes := ValueToAddr(address);
    var inside, place := GetIndexInRange(start, pod.len, bytes);
    contains, index := inside, if inside then place else 0;
  }

  // ---------- What one pool takes ----------

  // The synced record of an address carries that address.
  lemma SyncedAddress(pod: Cidr, active: ByAddress, stored: ByAddress, x: nat)
    requires Keyed(active) && Keyed(stored) && x in active && pod.base <= x
    ensures Synced(pod, active, stored, x).address == x
  {
  }

  ghost predicate FromOrder(pod: Cidr, active: ByAddress, stored: ByAddress, order: seq<nat>, a: Allocation)
    requires pod.len <= 32 && forall k :: 0 <= k < |order| ==> order[k] in active
  {
    a.address in order && In(a.address, pod) && a == Synced(pod, active, stored, a.address)
  }

  lemma {:induction false} TakenAreFromOrder(pod: Cidr, active: ByAddress, stored: ByAddress, order: seq<nat>, k: nat)
    requires pod.len <= 32 && Keyed(active) && Keyed(stored) && (forall j :: 0 <= j < |order| ==> order[j] in active)
    requires k < |Taken(pod, active, stored, order)|
    ensures FromOrder(pod, active, stored, order, Taken(pod, active, stored, order)[k])
  {
    var n := |order| - 1;
    var init := Taken(pod, active, stored, order[..n]);
    assert order == order[..n] + [order[n]];
    if k < |init| {
      TakenAreFromOrder(pod, active, stored, order[..n], k);
      assert Taken(pod, active, stored, order)[k] == init[k];
    } else {
      SyncedAddress(pod, active, stored, order[n]);
    }
  }

  lemma {:induction false} HeldAreTaken(pod: Cidr, active: ByAddress, stored: ByAddress, order: seq<nat>, x: nat)
    requires pod.len <= 32 && (forall j :: 0 <= j < |order| ==> order[j] in active)
    requires x in order && In(x, pod)
    ensures Synced(pod, active, stored, x) in Taken(pod, active, stored, order)
  {
    var n := |order| - 1;
    if x != order[n] {
      assert x in order[..n];
      HeldAreTaken(pod, active, stored, order[..n], x);
    }
  }

  lemma {:induction false} TakenDistinct(pod: Cidr, active: ByAddress, stored: ByAddress, order: seq<nat>)
    requires pod.len <= 32 && Keyed(active) && Keyed(stored) && NoDuplicates(order)
    requires forall j :: 0 <= j < |order| ==> order[j] in active
    ensures DistinctAddresses(Taken(pod, active, stored, order))
  {
    if order != [] {
      var n := |order| - 1;
      var init := Taken(pod, active, stored, order[..n]);
      TakenDistinct(pod, active, stored, order[..n]);
      forall k | 0 <= k < |init| ensures init[k].address != order[n] {
        TakenAreFromOrder(pod, active, stored, order[..n], k);
      }
      if In(order[n], pod) { SyncedAddress(pod, active, stored, order[n]); }
    }
  }

  // ---------- All pools, in any order ----------

  // One call of GetSyncAllocations.
  ghost predicate PoolSync(pool: Pool, active: ByAddress, stored: ByAddress, order: seq<nat>, taken: seq<Allocation>, changed: bool,
                           active': ByAddress, stored': ByAddress)
    requires pool.pod.len <= 32
  {
    && Orders(order, active)
    && taken == Taken(pool.pod, active, stored, order)
    && (changed <==> AnyNew(pool.pod, active, stored, order) || |pool.allocations| != |taken|)
    && active' == Left(active, pool.pod)
    && stored' == Unmatched(stored, active, pool.pod)
  }

  // One pass over the pools: the two maps before each pool and at the end, the
  // order in which each pool went through the addresses, and its results.
  datatype Sync = Sync(
    actives: seq<ByAddress>,
    storeds: seq<ByAddress>,
    orders: seq<seq<nat>>,
    taken: seq<seq<Allocation>>,
    changes: seq<bool>)

  // pools[k] takes from what its predecessors left.
  ghost predicate IsSync(pools: seq<Pool>, s: Sync)
  {
    && |s.actives| == |s.storeds| == |pools| + 1 && |s.orders| == |s.taken| == |s.changes| == |pools|
    && (forall k :: 0 <= k < |pools| ==> Canonical(pools[k].pod))
    && forall k :: 0 <= k < |pools| ==>
         PoolSync(pools[k], s.actives[k], s.storeds[k], s.orders[k], s.taken[k], s.changes[k], s.actives[k + 1], s.storeds[k + 1])
  }

  lemma SyncExtends(pools: seq<Pool>, s: Sync,
                    p: Pool, order: seq<nat>, t: seq<Allocation>, changed: bool, active: ByAddress, stored: ByAddress)
    requires IsSync(pools, s)
    requires Canonical(p.pod) && PoolSync(p, s.actives[|pools|], s.storeds[|pools|], order, t, changed, active, stored)
    ensures IsSync(pools + [p], Sync(s.actives + [active], s.storeds + [stored], s.orders + [order], s.taken + [t], s.changes + [changed]))
  {
  }

  ghost predicate PoolsDisjoint(pools: seq<Pool>)
    requires forall k :: 0 <= k < |pools| ==> pools[k].pod.len <= 32
  {
    forall k, l :: 0 <= k < l < |pools| ==> Disjoint(pools[k].pod, pools[l].pod)
  }

  // What is left for pool k: all that no earlier pool holds, unchanged.
  lemma {:induction false} LeftForPool(pools: seq<Pool>, s: Sync, k: nat, x: nat)
    requires IsSync(pools, s) && k <= |pools|
    requires Keyed(s.actives[0]) && Keyed(s.storeds[0])
    ensures x in s.actives[k] <==> x in s.actives[0] && forall j :: 0 <= j < k ==> !In(x, pools[j].pod)
    ensures x in s.actives[k] ==> s.actives[k][x] == s.actives[0][x]
    ensures Keyed(s.actives[k]) && Keyed(s.storeds[k])
    ensures (forall j :: 0 <= j < k ==> !In(x, pools[j].pod)) ==>
              (x in s.storeds[k] <==> x in s.storeds[0]) && (x in s.storeds[k] ==> s.storeds[k][x] == s.storeds[0][x])
  {
    if k > 0 { LeftForPool(pools, s, k - 1, x); }
  }

  ghost predicate DistinctAddresses(taken: seq<Allocation>)
  {
    forall a, b :: 0 <= a < b < |taken| ==> taken[a].address != taken[b].address
  }

  lemma TakenCarries(pod: Cidr, active: ByAddress, stored: ByAddress, order: seq<nat>, x: nat)
    requires pod.len <= 32 && Keyed(active) && Keyed(stored) && Orders(order, active)
    ensures var taken := Taken(pod, active, stored, order);
      && DistinctAddresses(taken)
      && (CarriesAddress(taken, x) <==> x in active && In(x, pod))
      && (x in active && In(x, pod) ==> Synced(pod, active, stored, x) in taken)
  {
    var taken := Taken(pod, active, stored, order);
    TakenDistinct(pod, active, stored, order);
    if x in active && In(x, pod) {
      HeldAreTaken(pod, active, stored, order, x);
      SyncedAddress(pod, active, stored, x);
      var a :| 0 <= a < |taken| && taken[a] == Synced(pod, active, stored, x);
      assert taken[a].address == x;
    }
    if CarriesAddress(taken, x) {
      var a :| 0 <= a < |taken| && taken[a].address == x;
      TakenAreFromOrder(pod, active, stored, order, a);
    }
  }

  ghost predicate CarriesAddress(taken: seq<Allocation>, x: nat)
  {
    exists k :: 0 <= k < |taken| && taken[k].address == x
  }

  // Every running pod's address ends up in the one pool that holds it, once, as
  // its stored record or as a new one at its offset; or, if no pool holds it, in
  // the remainder and in no pool.
  lemma ResyncConserves(pools: seq<Pool>, s: Sync, x: nat)
    requires IsSync(pools, s) && PoolsDisjoint(pools)
    requires Keyed(s.actives[0]) && Keyed(s.storeds[0]) && x in s.actives[0]
    ensures forall k :: 0 <= k < |pools| ==> (CarriesAddress(s.taken[k], x) <==> In(x, pools[k].pod))
    ensures forall k :: 0 <= k < |pools| && In(x, pools[k].pod) ==>
              Synced(pools[k].pod, s.actives[0], s.storeds[0], x) in s.taken[k]
    ensures forall k :: 0 <= k < |pools| ==> DistinctAddresses(s.taken[k])
    ensures x in s.actives[|pools|] <==> forall k :: 0 <= k < |pools| ==> !In(x, pools[k].pod)
  {
    LeftForPool(pools, s, |pools|, x);
    forall k | 0 <= k < |pools|
      ensures CarriesAddress(s.taken[k], x) <==> In(x, pools[k].pod)
      ensures In(x, pools[k].pod) ==> Synced(pools[k].pod, s.actives[0], s.storeds[0], x) in s.taken[k]
      ensures DistinctAddresses(s.taken[k])
    {
      LeftForPool(pools, s, k, x);
      assert PoolSync(pools[k], s.actives[k], s.storeds[k], s.orders[k], s.taken[k], s.changes[k], s.actives[k + 1], s.storeds[k + 1]);
      TakenCarries(pools[k].pod, s.actives[k], s.storeds[k], s.orders[k], x);
      if In(x, pools[k].pod) {
        assert forall j :: 0 <= j < k ==> !In(x, pools[j].pod);
      }
    }
  }

  // The record kept for a running pod's address names that pod. Its index is the
  // stored one if the pod held the address before, and the offset otherwise.
  lemma RunningPodIsRecorded(pools: seq<Pool>, s: Sync, k: nat, j: nat)
    requires IsSync(pools, s) && PoolsDisjoint(pools) && Keyed(s.actives[0]) && Keyed(s.storeds[0])
    requires k < |pools| && j < |s.taken[k]|
    ensures var a := s.taken[k][j];
      && a.address in s.actives[0] && In(a.address, pools[k].pod)
      && a.pod == s.actives[0][a.address].pod && a.namespace == s.actives[0][a.address].namespace
      && a.index == if a.address in s.storeds[0] && s.storeds[0][a.address].pod == a.pod && s.storeds[0][a.address].namespace == a.namespace
                    then s.storeds[0][a.address].index else a.address - pools[k].pod.base
  {
    var a := s.taken[k][j];
    LeftForPool(pools, s, k, a.address);
    assert PoolSync(pools[k], s.actives[k], s.storeds[k], s.orders[k], s.taken[k], s.changes[k], s.actives[k + 1], s.storeds[k + 1]);
    TakenAreFromOrder(pools[k].pod, s.actives[k], s.storeds[k], s.orders[k], j);
    assert forall l :: 0 <= l < k ==> !In(a.address, pools[l].pod);
  }

  // A stored record is used up exactly when its own pod runs on its address, in the
  // block of some pool.
  lemma {:induction false} StoredLeftExactly(pools: seq<Pool>, s: Sync, n: nat, x: nat)
    requires IsSync(pools, s) && n <= |pools| && Keyed(s.actives[0]) && Keyed(s.storeds[0])
    ensures x in s.storeds[n] <==>
      && x in s.storeds[0]
      && !(&& x in s.actives[0] && s.actives[0][x].pod == s.storeds[0][x].pod && s.actives[0][x].namespace == s.storeds[0][x].namespace
           && exists k :: 0 <= k < n && In(x, pools[k].pod))
    ensures x in s.storeds[n] ==> s.storeds[n][x] == s.storeds[0][x]
  {
    if n > 0 {
      StoredLeftExactly(pools, s, n - 1, x);
      LeftForPool(pools, s, n - 1, x);
      assert PoolSync(pools[n - 1], s.actives[n - 1], s.storeds[n - 1], s.orders[n - 1], s.taken[n - 1], s.changes[n - 1], s.actives[n], s.storeds[n]);
    }
  }

  // ---------- An unreported pool is already in line ----------

  lemma {:induction false} SameLengthSubset<T>(a: seq<T>, b: seq<T>)
    requires NoDuplicates(a) && |a| == |b| && forall x :: x in a ==> x in b
    ensures multiset(a) == multiset(b)
  {
    if a != [] {
      var x := a[|a| - 1];
      assert x in b;
      var k :| 0 <= k < |b| && b[k] == x;
      var init, rest := a[..|a| - 1], b[..k] + b[k + 1..];
      assert a == init + [x] && b == b[..k] + [x] + b[k + 1..];
      forall y | y in init ensures y in rest {
        assert y in a && y != x;
        OtherStays(b, k, y);
      }
      SameLengthSubset(init, rest);
    }
  }

  // A pool reported as unchanged already stores exactly the result, provided the
  // stored records in its block are its own.
  lemma UnchangedIsInLine(pool: Pool, active: ByAddress, stored: ByAddress, order: seq<nat>)
    requires pool.pod.len <= 32 && Keyed(active) && Keyed(stored) && Orders(order, active)
    requires forall x :: x in stored && In(x, pool.pod) ==> stored[x] in pool.allocations
    requires !AnyNew(pool.pod, active, stored, order)
    requires |pool.allocations| == |Taken(pool.pod, active, stored, order)|
    ensures multiset(Taken(pool.pod, active, stored, order)) == multiset(pool.allocations)
  {
    var taken := Taken(pool.pod, active, stored, order);
    TakenDistinct(pool.pod, active, stored, order);
    forall a | a in taken ensures a in pool.allocations {
      var k :| 0 <= k < |taken| && taken[k] == a;
      TakenAreFromOrder(pool.pod, active, stored, order, k);
      var j :| 0 <= j < |order| && order[j] == a.address;
      assert In(order[j], pool.pod);
      assert Known(active, stored, order[j]);
    }
    SameLengthSubset(taken, pool.allocations);
  }

  // ---------- The stored records of all pools ----------

  function Filed(m: ByAddress, allocations: seq<Allocation>): ByAddress
  {
    if allocations == [] then m
    else
      var n := |allocations| - 1;
      Filed(m, allocations[..n])[allocations[n].address := allocations[n]]
  }

  // crAllocationMap: the stored allocations by address, of the pools that belong to
  // a host of the plan. The snapshot can hold others.
  function StoredOf(pools: seq<Pool>, filed: seq<bool>): ByAddress
    requires |pools| == |filed|
  {
    if pools == [] then map[]
    else
      var n := |pools| - 1;
      var before := StoredOf(pools[..n], filed[..n]);
      if filed[n] then Filed(before, pools[n].allocations) else before
  }

  lemma {:induction false} FiledFrom(m: ByAddress, allocations: seq<Allocation>)
    requires Keyed(m)
    ensures Keyed(Filed(m, allocations))
    ensures forall x :: x in Filed(m, allocations) ==>
              Filed(m, allocations)[x] in allocations || (x in m && Filed(m, allocations)[x] == m[x])
  {
    if allocations != [] { FiledFrom(m, allocations[..|allocations| - 1]); }
  }

  lemma {:induction false} StoredKeyed(pools: seq<Pool>, filed: seq<bool>)
    requires |pools| == |filed|
    ensures Keyed(StoredOf(pools, filed))
  {
    if pools != [] {
      var n := |pools| - 1;
      StoredKeyed(pools[..n], filed[..n]);
      FiledFrom(StoredOf(pools[..n], filed[..n]), pools[n].allocations);
    }
  }

  lemma {:induction false} StoredFrom(pools: seq<Pool>, filed: seq<bool>, x: nat) returns (k: nat)
    requires |pools| == |filed| && x in StoredOf(pools, filed)
    ensures k < |pools| && filed[k] && StoredOf(pools, filed)[x] in pools[k].allocations
  {
    var n := |pools| - 1;
    var before := StoredOf(pools[..n], filed[..n]);
    StoredKeyed(pools[..n], filed[..n]);
    FiledFrom(before, pools[n].allocations);
    if filed[n] && StoredOf(pools, filed)[x] in pools[n].allocations {
      k := n;
    } else {
      k := StoredFrom(pools[..n], filed[..n], x);
    }
  }

  ghost predicate StoresOwn(p: Pool)
    requires p.pod.len <= 32
  {
    forall a :: a in p.allocations ==> In(a.address, p.pod)
  }

  // If every pool stores addresses of its own block, the stored records in a
  // block are those of its pool, and none if the pool is not filed.
  lemma StoredAreOwn(pools: seq<Pool>, filed: seq<bool>, k: nat, x: nat)
    requires forall j :: 0 <= j < |pools| ==> pools[j].pod.len <= 32 && StoresOwn(pools[j])
    requires PoolsDisjoint(pools) && k < |pools| == |filed| && x in StoredOf(pools, filed) && In(x, pools[k].pod)
    ensures filed[k] && StoredOf(pools, filed)[x] in pools[k].allocations
  {
    var j := StoredFrom(pools, filed, x);
    StoredKeyed(pools, filed);
    assert StoresOwn(pools[j]);
    HeldOnce(pools, j, k, x);
  }

  lemma HeldOnce(pools: seq<Pool>, j: nat, k: nat, x: nat)
    requires forall j :: 0 <= j < |pools| ==> pools[j].pod.len <= 32
    requires PoolsDisjoint(pools) && j < |pools| && k < |pools| && In(x, pools[j].pod) && In(x, pools[k].pod)
    ensures j == k
  {
  }

  // ---------- The pools after a resync ----------

  // PatchIPPoolAllocations, for the pools reported as changed.
  function Patched(pools: seq<Pool>, changes: seq<bool>, taken: seq<seq<Allocation>>): (r: seq<Pool>)
    requires |pools| == |changes| == |taken|
    ensures |r| == |pools|
    ensures forall k :: 0 <= k < |r| ==> r[k] == if changes[k] then pools[k].(allocations := taken[k]) else pools[k]
  {
    seq(|pools|, k requires 0 <= k < |pools| => if changes[k] then pools[k].(allocations := taken[k]) else pools[k])
  }

  // Pools of canonical, disjoint blocks that store addresses of their own.
  ghost predicate PoolsOk(pools: seq<Pool>)
  {
    && (forall k :: 0 <= k < |pools| ==> Canonical(pools[k].pod) && StoresOwn(pools[k]))
    && PoolsDisjoint(pools)
  }

  // The stored records that pool k still finds in its block are its own.
  lemma FindsItsOwn(pools: seq<Pool>, filed: seq<bool>, s: Sync, k: nat, x: nat)
    requires PoolsOk(pools) && IsSync(pools, s) && Keyed(s.actives[0])
    requires k < |pools| == |filed| && s.storeds[0] == StoredOf(pools, filed) && In(x, pools[k].pod)
    ensures Keyed(s.actives[k]) && Keyed(s.storeds[k])
    ensures (x in s.actives[k] <==> x in s.actives[0]) && (x in s.actives[k] ==> s.actives[k][x] == s.actives[0][x])
    ensures (x in s.storeds[k] <==> x in s.storeds[0]) && (x in s.storeds[k] ==> s.storeds[k][x] == s.storeds[0][x])
    ensures x in s.storeds[k] ==> filed[k] && s.storeds[k][x] in pools[k].allocations
  {
    StoredKeyed(pools, filed);
    forall j | 0 <= j < k ensures !In(x, pools[j].pod) { assert Disjoint(pools[j].pod, pools[k].pod); }
    LeftForPool(pools, s, k, x);
    if x in s.storeds[k] { StoredAreOwn(pools, filed, k, x); }
  }

  // Reported or not, filed or not, a pool stores in the end exactly what it took.
  lemma ResyncBringsInLine(pools: seq<Pool>, filed: seq<bool>, s: Sync, k: nat)
    requires PoolsOk(pools) && IsSync(pools, s) && Keyed(s.actives[0])
    requires k < |pools| == |filed| && s.storeds[0] == StoredOf(pools, filed)
    ensures multiset(Patched(pools, s.changes, s.taken)[k].allocations) == multiset(s.taken[k])
  {
    var pod := pools[k].pod;
    assert PoolSync(pools[k], s.actives[k], s.storeds[k], s.orders[k], s.taken[k], s.changes[k], s.actives[k + 1], s.storeds[k + 1]);
    if !s.changes[k] {
      FindsItsOwn(pools, filed, s, k, pod.base);
      forall x | x in s.storeds[k] && In(x, pod) ensures s.storeds[k][x] in pools[k].allocations {
        FindsItsOwn(pools, filed, s, k, x);
      }
      UnchangedIsInLine(pools[k], s.actives[k], s.storeds[k], s.orders[k]);
    }
  }

  // ---------- Resyncing again ----------

  // No record and no address occurs twice.
  ghost predicate OnePerAddress(s: seq<Allocation>)
  {
    NoDuplicates(s) && forall a, b :: a in s && b in s && a.address == b.address ==> a == b
  }

  lemma OnePerAddressPermuted(s: seq<Allocation>, r: seq<Allocation>)
    requires DistinctAddresses(s) && multiset(s) == multiset(r)
    ensures OnePerAddress(r)
  {
    PermutationNoDuplicates(s, r);
    SameElements(s, r);
    forall a, b | a in r && b in r && a.address == b.address ensures a == b {
      var i :| 0 <= i < |s| && s[i] == a;
      var j :| 0 <= j < |s| && s[j] == b;
      assert !(i < j) && !(j < i);
    }
  }

  // What a pool has taken are the synced records of the running pods in its block.
  lemma TakenExactly(pools: seq<Pool>, filed: seq<bool>, s: Sync, k: nat, a: Allocation)
    requires PoolsOk(pools) && IsSync(pools, s) && Keyed(s.actives[0])
    requires k < |pools| == |filed| && s.storeds[0] == StoredOf(pools, filed)
    ensures a in s.taken[k] <==>
            && In(a.address, pools[k].pod) && a.address in s.actives[0]
            && a == Synced(pools[k].pod, s.actives[0], s.storeds[0], a.address)
  {
    StoredKeyed(pools, filed);
    assert PoolSync(pools[k], s.actives[k], s.storeds[k], s.orders[k], s.taken[k], s.changes[k], s.actives[k + 1], s.storeds[k + 1]);
    if a in s.taken[k] {
      var i :| 0 <= i < |s.taken[k]| && s.taken[k][i] == a;
      LeftForPool(pools, s, k, a.address);
      TakenAreFromOrder(pools[k].pod, s.actives[k], s.storeds[k], s.orders[k], i);
      FindsItsOwn(pools, filed, s, k, a.address);
    } else if a.address in s.actives[0] {
      ResyncConserves(pools, s, a.address);
    }
  }

  lemma PatchedOk(pools: seq<Pool>, filed: seq<bool>, s: Sync)
    requires PoolsOk(pools) && IsSync(pools, s) && Keyed(s.actives[0])
    requires |pools| == |filed| && s.storeds[0] == StoredOf(pools, filed)
    ensures PoolsOk(Patched(pools, s.changes, s.taken))
  {
    var after := Patched(pools, s.changes, s.taken);
    forall k | 0 <= k < |after| ensures StoresOwn(after[k]) {
      forall a | a in after[k].allocations ensures In(a.address, after[k].pod) {
        if s.changes[k] { TakenExactly(pools, filed, s, k, a); }
      }
    }
  }

  lemma {:induction false} FiledHas(m: ByAddress, allocations: seq<Allocation>, x: nat)
    requires x in m || exists a :: a in allocations && a.address == x
    ensures x in Filed(m, allocations)
  {
    if allocations != [] {
      var n := |allocations| - 1;
      if x != allocations[n].address {
        if a :| a in allocations && a.address == x { assert a in allocations[..n]; }
        FiledHas(m, allocations[..n], x);
      }
    }
  }

  lemma {:induction false} StoredHas(pools: seq<Pool>, filed: seq<bool>, k: nat, a: Allocation)
    requires k < |pools| == |filed| && filed[k] && a in pools[k].allocations
    ensures a.address in StoredOf(pools, filed)
  {
    var n := |pools| - 1;
    if k < n { StoredHas(pools[..n], filed[..n], k, a); }
    if filed[n] { FiledHas(StoredOf(pools[..n], filed[..n]), pools[n].allocations, a.address); }
  }

  // A filed record that is the only one of its address is found under it.
  lemma Recalled(pools: seq<Pool>, filed: seq<bool>, k: nat, a: Allocation)
    requires PoolsOk(pools) && k < |pools| == |filed| && filed[k] && OnePerAddress(pools[k].allocations) && a in pools[k].allocations
    ensures a.address in StoredOf(pools, filed) && StoredOf(pools, filed)[a.address] == a
  {
    StoredHas(pools, filed, k, a);
    StoredKeyed(pools, filed);
    assert StoresOwn(pools[k]);
    StoredAreOwn(pools, filed, k, a.address);
  }

  // The pools a first resync leaves, and a second one of the same running pods.
  ghost predicate Again(pools: seq<Pool>, filed: seq<bool>, s: Sync, after: seq<Pool>, s': Sync)
  {
    && PoolsOk(pools) && IsSync(pools, s) && Keyed(s.actives[0]) && |pools| == |filed| && s.storeds[0] == StoredOf(pools, filed)
    && after == Patched(pools, s.changes, s.taken) && PoolsOk(after)
    && IsSync(after, s') && s'.actives[0] == s.actives[0] && s'.storeds[0] == StoredOf(after, filed)
  }

  lemma AfterIsTaken(pools: seq<Pool>, filed: seq<bool>, s: Sync, after: seq<Pool>, s': Sync, k: nat)
    requires Again(pools, filed, s, after, s') && k < |pools|
    ensures OnePerAddress(after[k].allocations) && forall a :: a in after[k].allocations <==> a in s.taken[k]
  {
    StoredKeyed(pools, filed);
    ResyncBringsInLine(pools, filed, s, k);
    LeftForPool(pools, s, k, 0);
    assert PoolSync(pools[k], s.actives[k], s.storeds[k], s.orders[k], s.taken[k], s.changes[k], s.actives[k + 1], s.storeds[k + 1]);
    TakenDistinct(pools[k].pod, s.actives[k], s.storeds[k], s.orders[k]);
    OnePerAddressPermuted(s.taken[k], after[k].allocations);
    SameElements(after[k].allocations, s.taken[k]);
  }

  // The second time a running pod's address gives the same record; it is known
  // exactly if the pool is filed.
  lemma SyncedAgain(pools: seq<Pool>, filed: seq<bool>, s: Sync, after: seq<Pool>, s': Sync, k: nat, x: nat)
    requires Again(pools, filed, s, after, s') && k < |pools| && In(x, pools[k].pod) && x in s.actives[0]
    ensures Known(s'.actives[0], s'.storeds[0], x) <==> filed[k]
    ensures Synced(pools[k].pod, s'.actives[0], s'.storeds[0], x) == Synced(pools[k].pod, s.actives[0], s.storeds[0], x)
  {
    StoredKeyed(pools, filed);
    if filed[k] {
      var r := Synced(pools[k].pod, s.actives[0], s.storeds[0], x);
      SyncedAddress(pools[k].pod, s.actives[0], s.storeds[0], x);
      TakenExactly(pools, filed, s, k, r);
      AfterIsTaken(pools, filed, s, after, s', k);
      Recalled(after, filed, k, r);
    } else {
      if x in s.storeds[0] { StoredAreOwn(pools, filed, k, x); }
      if x in s'.storeds[0] { StoredAreOwn(after, filed, k, x); }
    }
  }

  lemma SecondTakesTheSame(pools: seq<Pool>, filed: seq<bool>, s: Sync, after: seq<Pool>, s': Sync, k: nat, a: Allocation)
    requires Again(pools, filed, s, after, s') && k < |pools|
    ensures a in s'.taken[k] <==> a in after[k].allocations
  {
    TakenExactly(after, filed, s', k, a);
    TakenExactly(pools, filed, s, k, a);
    AfterIsTaken(pools, filed, s, after, s', k);
    if In(a.address, pools[k].pod) && a.address in s.actives[0] { SyncedAgain(pools, filed, s, after, s', k, a.address); }
  }

  lemma SameElementsSameCounts<T>(a: seq<T>, b: seq<T>)
    requires NoDuplicates(a) && NoDuplicates(b) && forall x :: x in a <==> x in b
    ensures multiset(a) == multiset(b)
  {
    forall x ensures multiset(a)[x] == multiset(b)[x] {
      CountOfNoDuplicates(a, x);
      CountOfNoDuplicates(b, x);
      assert x in a <==> x in multiset(a);
      assert x in b <==> x in multiset(b);
    }
  }

  lemma SecondCounts(pools: seq<Pool>, filed: seq<bool>, s: Sync, after: seq<Pool>, s': Sync, k: nat)
    requires Again(pools, filed, s, after, s') && k < |pools|
    ensures multiset(s'.taken[k]) == multiset(after[k].allocations) && |s'.taken[k]| == |after[k].allocations|
  {
    AfterIsTaken(pools, filed, s, after, s', k);
    StoredKeyed(after, filed);
    LeftForPool(after, s', k, 0);
    assert PoolSync(after[k], s'.actives[k], s'.storeds[k], s'.orders[k], s'.taken[k], s'.changes[k], s'.actives[k + 1], s'.storeds[k + 1]);
    TakenDistinct(after[k].pod, s'.actives[k], s'.storeds[k], s'.orders[k]);
    forall a ensures a in s'.taken[k] <==> a in after[k].allocations { SecondTakesTheSame(pools, filed, s, after, s', k, a); }
    SameElementsSameCounts(s'.taken[k], after[k].allocations);
    assert |s'.taken[k]| == |multiset(s'.taken[k])| == |after[k].allocations|;
  }

  ghost predicate HoldsRunning(pool: Pool, active: ByAddress)
    requires pool.pod.len <= 32
  {
    exists x :: x in active && In(x, pool.pod)
  }

  lemma AnyNewAgain(pools: seq<Pool>, filed: seq<bool>, s: Sync, after: seq<Pool>, s': Sync, k: nat)
    requires Again(pools, filed, s, after, s') && k < |pools| && Orders(s'.orders[k], s'.actives[k])
    ensures AnyNew(after[k].pod, s'.actives[k], s'.storeds[k], s'.orders[k]) <==> !filed[k] && HoldsRunning(pools[k], s.actives[0])
  {
    var order := s'.orders[k];
    forall x | In(x, pools[k].pod) && x in s.actives[0]
      ensures x in s'.actives[k] && (Known(s'.actives[k], s'.storeds[k], x) <==> filed[k])
    {
      SyncedAgain(pools, filed, s, after, s', k, x);
      FindsItsOwn(after, filed, s', k, x);
    }
    if AnyNew(after[k].pod, s'.actives[k], s'.storeds[k], order) {
      var j :| 0 <= j < |order| && In(order[j], after[k].pod) && !Known(s'.actives[k], s'.storeds[k], order[j]);
      FindsItsOwn(after, filed, s', k, order[j]);
    }
    if !filed[k] && HoldsRunning(pools[k], s.actives[0]) {
      var x :| x in s.actives[0] && In(x, pools[k].pod);
      assert x in order;
      var j :| 0 <= j < |order| && order[j] == x;
    }
  }

  // A second resync of the same running pods takes just what the pools already
  // store, in any order. It reports a change exactly for the pools that are not
  // filed and hold a running pod's address: every time.
  lemma ResyncIsIdempotent(pools: seq<Pool>, filed: seq<bool>, s: Sync, s': Sync, k: nat)
    requires PoolsOk(pools) && IsSync(pools, s) && Keyed(s.actives[0])
    requires k < |pools| == |filed| && s.storeds[0] == StoredOf(pools, filed)
    requires var after := Patched(pools, s.changes, s.taken);
      IsSync(after, s') && s'.actives[0] == s.actives[0] && s'.storeds[0] == StoredOf(after, filed)
    ensures multiset(s'.taken[k]) == multiset(Patched(pools, s.changes, s.taken)[k].allocations)
    ensures s'.changes[k] <==> !filed[k] && HoldsRunning(pools[k], s.actives[0])
  {
    var after := Patched(pools, s.changes, s.taken);
    PatchedOk(pools, filed, s);
    SecondCounts(pools, filed, s, after, s', k);
    assert PoolSync(after[k], s'.actives[k], s'.storeds[k], s'.orders[k], s'.taken[k], s'.changes[k], s'.actives[k + 1], s'.storeds[k + 1]);
    AnyNewAgain(pools, filed, s, after, s', k);
  }

  // A resync of one pool.
  lemma OneSync(pool: Pool, active: ByAddress, stored: ByAddress, order: seq<nat>) returns (s: Sync)
    requires Canonical(pool.pod) && Orders(order, active)
    ensures IsSync([pool], s) && s.actives[0] == active && s.storeds[0] == stored
  {
    var taken := Taken(pool.pod, active, stored, order);
    var changed := AnyNew(pool.pod, active, stored, order) || |pool.allocations| != |taken|;
    s := Sync([active, Left(active, pool.pod)], [stored, Unmatched(stored, active, pool.pod)], [order], [taken], [changed]);
    assert PoolSync(pool, active, stored, order, taken, changed, Left(active, pool.pod), Unmatched(stored, active, pool.pod));
  }

  // A pool that is left over from an earlier plan, with a pod still running in its
  // block, is reported by every resync.
  lemma LeftoverPoolIsReportedAgain(pool: Pool, active: ByAddress, order: seq<nat>) returns (s: Sync, s': Sync)
    requires Canonical(pool.pod) && StoresOwn(pool) && Keyed(active) && Orders(order, active) && HoldsRunning(pool, active)
    ensures IsSync([pool], s) && s.actives[0] == active && s.storeds[0] == StoredOf([pool], [false])
    ensures var after := Patched([pool], s.changes, s.taken);
      IsSync(after, s') && s'.actives[0] == active && s'.storeds[0] == StoredOf(after, [false]) && s'.changes[0]
  {
    s := OneSync(pool, active, StoredOf([pool], [false]), order);
    var after := Patched([pool], s.changes, s.taken);
    assert after == [after[0]];
    s' := OneSync(after[0], active, StoredOf(after, [false]), order);
    ResyncIsIdempotent([pool], [false], s, s', 0);
  }
}
