// What the controller hands to the daemons: the pools of the pod blocks and their
// excludes.
module Pools {
  import opened Blocks
  import opened Excludes
  import opened Plan
  import opened Runs
  import Daemon
  import DaemonGuard
  import DaemonRuns

  // initIPPool: a pod block with the excludes that lie in it. Pools are named by
  // their block, so a block has one pool.
  function PoolFor(cfg: PluginConfig, pod: Cidr): DaemonRuns.PoolConfig
    requires pod.len <= 32
  {
    DaemonRuns.PoolConfig(pod, Matching(SortAddress(cfg.excludes), pod))
  }

  lemma PoolForOk(cfg: PluginConfig, pod: Cidr)
    requires ConfigOk(cfg) && Canonical(pod)
    ensures DaemonRuns.PoolConfigOk(PoolFor(cfg, pod))
  {
    var sorted := SortAddress(cfg.excludes);
    var match' := Matching(sorted, pod);
    forall k | 0 <= k < |match'| ensures Canonical(match'[k]) && Inside(match'[k], pod) {
      MatchingIsCanonical(sorted, pod, k);
      MatchingExactly(sorted, pod, match'[k]);
    }
  }

  lemma {:induction false} MatchingIsCanonical(excludes: seq<Cidr>, pod: Cidr, k: nat)
    requires pod.len <= 32 && AllCanonical(excludes) && k < |Matching(excludes, pod)|
    ensures Canonical(Matching(excludes, pod)[k])
  {
    var init := excludes[..|excludes| - 1];
    if k < |Matching(init, pod)| { MatchingIsCanonical(init, pod, k); }
  }

  // For every host of every plan of a run and every exclude: the exclude misses
  // the pod block, or lies strictly inside it and is handed to its pool.
  lemma EveryExcludeIsHandled(cfg: PluginConfig, plans: seq<seq<Entry>>, rounds: seq<Round>, t: nat, i: nat, a: nat, e: Cidr)
    requires ConfigOk(cfg) && IsRun(cfg, plans, rounds) && t < |plans|
    requires i < |plans[t]| && a < |plans[t][i].hosts| && e in cfg.excludes
    ensures var pod := plans[t][i].hosts[a].podCidr;
      && Canonical(pod) && Canonical(e)
      && (Disjoint(e, pod) || (StrictlyInside(e, pod) && e in PoolFor(cfg, pod).excludes))
  {
    RunKeepsPlanOk(cfg, plans, rounds, t);
    var entry := plans[t][i];
    EntryBlocks(cfg, entry);
    ExcludeMissesOrIsHandedOver(entry.vlanCidr, cfg.hostBlock, entry.hosts[a].hostIndex, cfg.excludes, SortAddress(cfg.excludes), e);
  }

  // The pool's excludes do not overlap and leave its first address alone.
  ghost predicate ExcludesClear(pool: DaemonRuns.PoolConfig)
    requires DaemonRuns.PoolConfigOk(pool)
  {
    DaemonGuard.Clear(DaemonRuns.Ranges(pool), Daemon.MaxIndex(pool.pod))
  }

  // No address up to top is in two excludes, and base is in none.
  ghost predicate Apart(excludes: seq<Cidr>, base: int, top: int)
    requires forall k :: 0 <= k < |excludes| ==> excludes[k].len <= 32
  {
    && (forall k, l, x :: 0 <= k < l < |excludes| && In(x, excludes[k]) && In(x, excludes[l]) ==> x > top)
    && (forall k :: 0 <= k < |excludes| && In(base, excludes[k]) ==> base > top)
  }

  lemma RangesOfExcludes(pod: Cidr, excludes: seq<Cidr>, k: nat, x: int)
    requires forall k :: 0 <= k < |excludes| ==> excludes[k].len <= 32 && pod.base <= excludes[k].base
    requires k < |excludes|
    ensures |Daemon.ExcludeRanges(pod, excludes)| == |excludes|
    ensures Daemon.InRange(x, Daemon.ExcludeRanges(pod, excludes)[k]) <==> In(pod.base + x, excludes[k])
  {
    RangesInOrder(pod, excludes);
  }

  // The pool's excludes are clear exactly when no address of the pool but its last
  // is in two of them and its first is in none.
  lemma ClearExactly(pool: DaemonRuns.PoolConfig)
    requires DaemonRuns.PoolConfigOk(pool)
    ensures ExcludesClear(pool) <==> Apart(pool.excludes, pool.pod.base, pool.pod.base + Daemon.MaxIndex(pool.pod))
  {
    if ExcludesClear(pool) { ClearIsApart(pool); }
    if Apart(pool.excludes, pool.pod.base, pool.pod.base + Daemon.MaxIndex(pool.pod)) { ApartIsClear(pool); }
  }

  lemma ClearIsApart(pool: DaemonRuns.PoolConfig)
    requires DaemonRuns.PoolConfigOk(pool) && ExcludesClear(pool)
    ensures Apart(pool.excludes, pool.pod.base, pool.pod.base + Daemon.MaxIndex(pool.pod))
  {
    var base, n := pool.pod.base, Daemon.MaxIndex(pool.pod);
    RangesInOrder(pool.pod, pool.excludes);
    forall k, l, x | 0 <= k < l < |pool.excludes| && In(x, pool.excludes[k]) && In(x, pool.excludes[l])
      ensures x > base + n
    {
      RangesOfExcludes(pool.pod, pool.excludes, k, x - base);
      RangesOfExcludes(pool.pod, pool.excludes, l, x - base);
    }
    forall k | 0 <= k < |pool.excludes| && In(base, pool.excludes[k]) ensures base > base + n {
      RangesOfExcludes(pool.pod, pool.excludes, k, 0);
    }
  }

  lemma ApartIsClear(pool: DaemonRuns.PoolConfig)
    requires DaemonRuns.PoolConfigOk(pool)
    requires Apart(pool.excludes, pool.pod.base, pool.pod.base + Daemon.MaxIndex(pool.pod))
    ensures ExcludesClear(pool)
  {
    var ranges, n := DaemonRuns.Ranges(pool), Daemon.MaxIndex(pool.pod);
    RangesInOrder(pool.pod, pool.excludes);
    forall k, l, i | 0 <= k < l < |ranges| && Daemon.InRange(i, ranges[k]) && Daemon.InRange(i, ranges[l]) ensures i > n {
      RangesOfExcludes(pool.pod, pool.excludes, k, i);
      RangesOfExcludes(pool.pod, pool.excludes, l, i);
    }
    forall k | 0 <= k < |ranges| && Daemon.InRange(0, ranges[k]) ensures 0 > n {
      RangesOfExcludes(pool.pod, pool.excludes, k, 0);
    }
  }

  lemma {:induction false} RangesInOrder(pod: Cidr, excludes: seq<Cidr>)
    requires forall k :: 0 <= k < |excludes| ==> excludes[k].len <= 32 && pod.base <= excludes[k].base
    ensures var ranges := Daemon.ExcludeRanges(pod, excludes);
      && |ranges| == |excludes|
      && forall k :: 0 <= k < |ranges| ==>
           ranges[k] == Daemon.Range(excludes[k].base - pod.base, excludes[k].base - pod.base + Size(excludes[k]) - 1)
  {
    if excludes != [] { RangesInOrder(pod, excludes[..|excludes| - 1]); }
  }
}
