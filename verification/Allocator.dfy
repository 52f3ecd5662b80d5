// The allocator of one pool as an object: the stored allocations and the history
// of recent deallocations (daemon/src/allocator).
module Allocator {
  import opened Compute
  import opened Daemon
  import opened DaemonRuns
  import opened Slices

  class PoolAllocator {
    const cfg: PoolConfig
    var allocations: seq<Allocation>
    var history: map<string, nat>

    ghost function Now(): State
      reads this
    {
      State(allocations, history)
    }

    ghost predicate Valid()
    {
      PoolConfigOk(cfg)
    }

    constructor (cfg: PoolConfig)
      requires PoolConfigOk(cfg)
      ensures Valid() && this.cfg == cfg && Now() == State([], map[])
    {
      this.cfg := cfg;
      allocations := [];
      history := map[];
    }

    method FlushExpiredHistory(expired: set<string>)
      modifies this`history
      ensures history == old(history) - expired
    {
      var keys := history.Keys;
      while keys != {}
        invariant keys <= old(history).Keys
        invariant history == map k | k in old(history) && (k in keys || k !in expired) :: old(history)[k]
      {
        var k :| k in keys;
        if k in expired { history := history - {k}; }
        keys := keys - {k};
      }
    }

    // The stored list, as the slice the API hands out.
    method Listed() returns (backing: array<Allocation>)
      ensures fresh(backing) && backing[..backing.Length] == allocations
    {
      var s := allocations;
      backing := new Allocation[|s|](i requires 0 <= i < |s| => s[i]);
      assert backing[..backing.Length] == s;
    }

    method Store(a: Allocation)
      modifies this`allocations
      ensures allocations == Placed(old(allocations), a)
    {
      var backing := Listed();
      var b, m := ApplyNewAllocation(backing, backing.Length, a);
      allocations := b[..m];
    }

    method GetAddressByIndex(index: nat) returns (value: nat)
      ensures value == AddressByIndex(cfg.pod, index)
    {
      var ip := ValueToAddr(cfg.pod.base + index);
      value := AddrToValue(ip);
    }

    method RetryOffset(pod: string) returns (offset: nat)
      modifies this`history
      ensures offset == Attempt(old(history), pod) && history == Recorded(old(history), pod)
    {
      offset := 1;
      if pod in history {
        history := history[pod := history[pod] + 1];
        offset := history[pod];
      }
    }

    method AllocateIP(pod: string, namespace: string, expired: set<string>) returns (address: Option<nat>)
      requires Valid()
      modifies this
      ensures Now() == Apply(cfg, false, old(Now()), Allocate(pod, namespace, expired))
      ensures address.None? ==> allocations == old(allocations)
      ensures var i := Pick(cfg, old(allocations), Attempt(old(history) - expired, pod));
        address == if i.Some? then Some(AddressByIndex(cfg.pod, i.value)) else None
      ensures address.Some? ==> exists a :: a in allocations && Match(a, pod, namespace) && a.address == address.value
    {
      FlushExpiredHistory(expired);
      var offset := RetryOffset(pod);
      var picked := AllocateIndex(cfg.pod, cfg.excludes, allocations, offset);
      assert picked == Pick(cfg, allocations, offset);
      if picked.None? { return None; }
      var value := GetAddressByIndex(picked.value);
      var a := Allocation(pod, namespace, picked.value, value);
      PlacedHolds(allocations, a);
      Store(a);
      return Some(value);
    }

    method DeallocateIP(pod: string, namespace: string)
      requires Valid()
      modifies this
      ensures Now() == Apply(cfg, false, old(Now()), Deallocate(pod, namespace))
    {
      if pod !in history { history := history[pod := 1]; }
      var backing := Listed();
      var b, m := RemoveFirst(backing, backing.Length, pod, namespace);
      allocations := b[..m];
    }

    method CleanHangingAllocation(live: (string, string) -> bool)
      requires Valid()
      modifies this
      ensures Now() == Apply(cfg, false, old(Now()), Clean(live))
    {
      var remains: seq<Allocation> := [];
      for k := 0 to |allocations|
        invariant Now() == old(Now()) && remains == Surviving(allocations[..k], live)
      {
        assert allocations[..k + 1][..k] == allocations[..k];
        if live(allocations[k].pod, allocations[k].namespace) { remains := remains + [allocations[k]]; }
      }
      assert allocations[..|allocations|] == allocations;
      allocations := remains;
    }
  }

  lemma PlacedHolds(allocations: seq<Allocation>, a: Allocation)
    ensures a in Placed(allocations, a)
  {
    var t := LastLarger(allocations, a.index);
    if t == -1 {
      assert (allocations + [a])[|allocations|] == a;
    } else {
      assert (allocations[..t] + [a, a] + allocations[t + 1..])[t] == a;
    }
  }
}
