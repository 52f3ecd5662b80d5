// A network as a whole: the controller's plan and the pools of its pod blocks,
// while the controller updates the plan and the daemons allocate from the pools.
module Network {
  import opened Powers
  import opened Blocks
  import opened Excludes
  import opened Sorting
  import opened Plan
  import opened NewPlan
  import opened Reconcile
  import opened ReconcileSafe
  import opened Runs
  import opened Stability
  import opened Pools
  import opened Daemon
  import opened DaemonGuard
  import D = DaemonRuns
  import R = Resync

  // ---------- The blocks a configuration can give to hosts ----------

  ghost predicate PodBlockAt(cfg: PluginConfig, c: Cidr, i: nat, j: nat)
    requires ConfigOk(cfg)
  {
    && i < Pow2(cfg.interfaceBlock) && j < Pow2(cfg.hostBlock)
    && var vlan := Block(cfg.subnet, cfg.interfaceBlock, i);
       c == Block(vlan, cfg.hostBlock, j) && !Tabu(vlan, cfg.hostBlock, j, cfg.excludes)
  }

  ghost predicate IsPodBlock(cfg: PluginConfig, c: Cidr)
    requires ConfigOk(cfg)
  {
    exists i, j :: PodBlockAt(cfg, c, i, j)
  }

  lemma PodBlockInside(cfg: PluginConfig, c: Cidr, i: nat, j: nat)
    requires ConfigOk(cfg) && PodBlockAt(cfg, c, i, j)
    ensures var vlan := Block(cfg.subnet, cfg.interfaceBlock, i);
      Canonical(vlan) && Canonical(c) && Inside(c, vlan) && Inside(vlan, cfg.subnet)
    ensures D.PoolConfigOk(PoolFor(cfg, c))
  {
    BlockInside(cfg.subnet, cfg.interfaceBlock, i);
    BlockInside(Block(cfg.subnet, cfg.interfaceBlock, i), cfg.hostBlock, j);
    PoolForOk(cfg, c);
  }

  lemma PodBlock(cfg: PluginConfig, c: Cidr)
    requires ConfigOk(cfg) && IsPodBlock(cfg, c)
    ensures Canonical(c) && Inside(c, cfg.subnet) && D.PoolConfigOk(PoolFor(cfg, c))
  {
    var i, j :| PodBlockAt(cfg, c, i, j);
    PodBlockInside(cfg, c, i, j);
  }

  lemma PodBlocksDisjoint(cfg: PluginConfig, c: Cidr, d: Cidr)
    requires ConfigOk(cfg) && IsPodBlock(cfg, c) && IsPodBlock(cfg, d) && c != d
    ensures Canonical(c) && Canonical(d) && Disjoint(c, d)
  {
    var i, j :| PodBlockAt(cfg, c, i, j);
    var k, l :| PodBlockAt(cfg, d, k, l);
    PodBlockInside(cfg, c, i, j);
    PodBlockInside(cfg, d, k, l);
    if i == k {
      BlocksDisjoint(Block(cfg.subnet, cfg.interfaceBlock, i), cfg.hostBlock, j, l);
    } else {
      BlocksDisjoint(cfg.subnet, cfg.interfaceBlock, i, k);
    }
  }

  // An exclude misses a pod block or is handed to its pool.
  lemma PodBlockExcludes(cfg: PluginConfig, c: Cidr, e: Cidr)
    requires ConfigOk(cfg) && IsPodBlock(cfg, c) && e in cfg.excludes
    ensures Canonical(c) && Canonical(e) && (Disjoint(e, c) || e in PoolFor(cfg, c).excludes)
  {
    var i, j :| PodBlockAt(cfg, c, i, j);
    PodBlockInside(cfg, c, i, j);
    ExcludeMissesOrIsHandedOver(Block(cfg.subnet, cfg.interfaceBlock, i), cfg.hostBlock, j, cfg.excludes, SortAddress(cfg.excludes), e);
  }

  lemma PlannedBlock(cfg: PluginConfig, e: Entry, a: nat)
    requires ConfigOk(cfg) && EntryOk(cfg, e) && a < |e.hosts|
    ensures IsPodBlock(cfg, e.hosts[a].podCidr)
  {
    assert HostOk(cfg, e.vlanCidr, e.hosts[a]);
    assert PodBlockAt(cfg, e.hosts[a].podCidr, e.interfaceIndex, e.hosts[a].hostIndex);
  }

  // ---------- The state and its steps ----------

  // Pools are kept by pod block, which their names are made of.
  datatype Network = Network(plan: seq<Entry>, pools: map<Cidr, seq<Allocation>>)

  // An update of the plan; a step of a daemon on a pool, with whatever is in its
  // history of deallocations; or a resync of the pools with the running pods.
  datatype Event =
    | Replan(round: Round)
    | Serve(pool: Cidr, history: map<string, nat>, step: D.Step)
    | Resync(blocks: seq<Cidr>, filed: seq<bool>, sync: R.Sync)

  ghost predicate Assigned(m: map<string, Entry>, c: Cidr)
  {
    exists k, h :: k in m && h in m[k].hosts && h.podCidr == c
  }

  // CleanPendingIPPools and UpdateIPPools: a pool of a block that the new plan
  // assigns keeps its allocations, others may go, and new ones start empty. The
  // clean-up comes even if the new plan could not be stored.
  ghost predicate PoolsFollow(m: map<string, Entry>, pools: map<Cidr, seq<Allocation>>, pools': map<Cidr, seq<Allocation>>)
  {
    && (forall c :: c in pools' ==> if c in pools then pools'[c] == pools[c] else pools'[c] == [] && Assigned(m, c))
    && (forall c :: c in pools && Assigned(m, c) ==> c in pools')
  }

  // Without a reported change nothing is touched.
  ghost predicate Replanned(cfg: PluginConfig, n: Network, r: Round, n': Network)
    requires Fits(cfg)
  {
    && Transition(cfg, n.plan, r, n'.plan)
    && (StoredLengths(cfg, n.plan) ==>
          var w := Updated(cfg, n.plan, r.input, r.isNew);
          w.Work? ==> if w.changed then PoolsFollow(w.entries, n.pools, n'.pools) else n'.pools == n.pools)
  }

  // asMeant chooses between the insertion that is meant and the one that is made.
  ghost predicate Served(cfg: PluginConfig, asMeant: bool, n: Network, ev: Event, n': Network)
    requires ev.Serve?
  {
    && n'.plan == n.plan && ev.pool in n.pools
    && (ev.pool.len <= 32 && D.PoolConfigOk(PoolFor(cfg, ev.pool)) ==>
          n'.pools == n.pools[ev.pool := D.Apply(PoolFor(cfg, ev.pool), asMeant, D.State(n.pools[ev.pool], ev.history), ev.step).allocations])
  }

  // The pools in the order of the snapshot.
  function PoolList(n: Network, blocks: seq<Cidr>): (s: seq<R.Pool>)
    requires forall k :: 0 <= k < |blocks| ==> blocks[k] in n.pools
    ensures |s| == |blocks| && forall k :: 0 <= k < |s| ==> s[k] == R.Pool(blocks[k], n.pools[blocks[k]])
  {
    seq(|blocks|, k requires 0 <= k < |blocks| => R.Pool(blocks[k], n.pools[blocks[k]]))
  }

  // The resync of all pools of the network; it visits each once.
  ghost predicate IsResync(n: Network, ev: Event)
    requires ev.Resync?
  {
    && NoDuplicates(ev.blocks) && |ev.filed| == |ev.blocks|
    && (forall c :: c in ev.blocks <==> c in n.pools)
    && var pools := PoolList(n, ev.blocks);
       R.IsSync(pools, ev.sync) && R.Keyed(ev.sync.actives[0]) && ev.sync.storeds[0] == R.StoredOf(pools, ev.filed)
  }

  // A pool reported as changed is patched, unless the API call fails.
  ghost predicate Resynced(n: Network, ev: Event, n': Network)
    requires ev.Resync?
  {
    && IsResync(n, ev) && n'.plan == n.plan && n'.pools.Keys == n.pools.Keys
    && forall k :: 0 <= k < |ev.blocks| ==>
         n'.pools[ev.blocks[k]] == n.pools[ev.blocks[k]] || n'.pools[ev.blocks[k]] == ev.sync.taken[k]
  }

  ghost predicate Next(cfg: PluginConfig, asMeant: bool, n: Network, ev: Event, n': Network)
    requires Fits(cfg)
  {
    match ev
    case Replan(r) => Replanned(cfg, n, r, n')
    case Serve(_, _, _) => Served(cfg, asMeant, n, ev, n')
    case Resync(_, _, _) => Resynced(n, ev, n')
  }

  // As written, no allocation is stored before one with a larger index.
  ghost predicate Smooth(cfg: PluginConfig, asMeant: bool, n: Network, ev: Event)
  {
    asMeant || !ev.Serve? ||
    (ev.pool in n.pools && ev.pool.len <= 32 && D.PoolConfigOk(PoolFor(cfg, ev.pool)) &&
     !D.Overtakes(PoolFor(cfg, ev.pool), D.State(n.pools[ev.pool], ev.history), ev.step))
  }

  ghost predicate Moves(cfg: PluginConfig, asMeant: bool, n: Network, ev: Event, n': Network)
    requires Fits(cfg)
  {
    Next(cfg, asMeant, n, ev, n') && Smooth(cfg, asMeant, n, ev)
  }

  // A run and the state it has reached.
  datatype Run = Start(now: Network) | Then(before: Run, ev: Event, now: Network)

  // The address was allocated from the pool of its block, at some time.
  ghost predicate WasAllocated(run: Run, c: Cidr, x: nat)
  {
    (c in run.now.pools && R.CarriesAddress(run.now.pools[c], x)) || (run.Then? && WasAllocated(run.before, c, x))
  }

  // The pods a resync finds running hold addresses they were given.
  ghost predicate PodsAreOurs(run: Run, ev: Event)
  {
    ev.Resync? && ev.sync.actives != [] ==>
      forall c, x :: c in run.now.pools && x in ev.sync.actives[0] && c.len <= 32 && In(x, c) ==> WasAllocated(run, c, x)
  }

  ghost predicate IsNetworkRun(cfg: PluginConfig, asMeant: bool, run: Run)
    requires ConfigOk(cfg)
  {
    match run
    case Start(n) => Enough(cfg) && n == Network(FirstPlan(cfg), map[])
    case Then(before, ev, n) => IsNetworkRun(cfg, asMeant, before) && Moves(cfg, asMeant, before.now, ev, n) && PodsAreOurs(before, ev)
  }

  // ---------- The invariant ----------

  ghost predicate PoolInOrder(cfg: PluginConfig, c: Cidr, allocations: seq<Allocation>)
    requires ConfigOk(cfg)
  {
    && IsPodBlock(cfg, c) && c.len <= 32 && D.PoolConfigOk(PoolFor(cfg, c))
    && PoolOk(c, D.Ranges(PoolFor(cfg, c)), allocations)
  }

  ghost predicate NetworkOk(cfg: PluginConfig, n: Network)
    requires ConfigOk(cfg)
  {
    PlanOk(cfg, n.plan) && forall c :: c in n.pools ==> PoolInOrder(cfg, c, n.pools[c])
  }

  // No pool has overlapping excludes or one at its first address.
  ghost predicate AllClear(cfg: PluginConfig)
    requires ConfigOk(cfg)
  {
    forall c :: IsPodBlock(cfg, c) ==> c.len <= 32 && D.PoolConfigOk(PoolFor(cfg, c)) && ExcludesClear(PoolFor(cfg, c))
  }

  lemma NewPoolInOrder(cfg: PluginConfig, m: map<string, Entry>, c: Cidr)
    requires ConfigOk(cfg) && MapOk(cfg, m) && Assigned(m, c)
    ensures PoolInOrder(cfg, c, [])
  {
    var k, h :| k in m && h in m[k].hosts && h.podCidr == c;
    var a :| 0 <= a < |m[k].hosts| && m[k].hosts[a] == h;
    PlannedBlock(cfg, m[k], a);
    PodBlock(cfg, c);
  }

  lemma ReplanKeepsNetwork(cfg: PluginConfig, n: Network, r: Round, n': Network)
    requires ConfigOk(cfg) && NetworkOk(cfg, n) && Replanned(cfg, n, r, n')
    ensures NetworkOk(cfg, n')
  {
    TransitionOk(cfg, n.plan, r, n'.plan);
    UpdateOk(cfg, n.plan, r.input, r.isNew);
    var w := Updated(cfg, n.plan, r.input, r.isNew);
    forall c | c in n'.pools ensures PoolInOrder(cfg, c, n'.pools[c]) {
      if c !in n.pools { NewPoolInOrder(cfg, w.entries, c); }
    }
  }

  lemma ServeKeepsPool(cfg: PluginConfig, asMeant: bool, n: Network, ev: Event)
    requires ConfigOk(cfg) && AllClear(cfg) && ev.Serve? && ev.pool in n.pools && PoolInOrder(cfg, ev.pool, n.pools[ev.pool])
    requires Smooth(cfg, asMeant, n, ev)
    ensures var st := D.State(n.pools[ev.pool], ev.history);
      && PoolInOrder(cfg, ev.pool, D.Apply(PoolFor(cfg, ev.pool), asMeant, st, ev.step).allocations)
      && D.Apply(PoolFor(cfg, ev.pool), asMeant, st, ev.step) == D.Apply(PoolFor(cfg, ev.pool), true, st, ev.step)
  {
    D.StepKeepsPool(PoolFor(cfg, ev.pool), D.State(n.pools[ev.pool], ev.history), ev.step);
  }

  // An address that a daemon could give out.
  ghost predicate Usable(cfg: PluginConfig, c: Cidr, x: nat)
    requires ConfigOk(cfg) && c.len <= 32 && D.PoolConfigOk(PoolFor(cfg, c))
  {
    1 <= x - c.base < MaxIndex(c) && !Excluded(D.Ranges(PoolFor(cfg, c)), x - c.base)
  }

  // The running pods in a pool's block hold such addresses.
  ghost predicate PodsFit(cfg: PluginConfig, n: Network, ev: Event)
    requires ConfigOk(cfg) && NetworkOk(cfg, n)
  {
    ev.Resync? && ev.sync.actives != [] ==>
      forall c, x :: c in n.pools && x in ev.sync.actives[0] && In(x, c) ==> Usable(cfg, c, x)
  }

  lemma AllocatedIsUsable(cfg: PluginConfig, n: Network, c: Cidr, x: nat)
    requires ConfigOk(cfg) && NetworkOk(cfg, n) && c in n.pools && R.CarriesAddress(n.pools[c], x)
    ensures Usable(cfg, c, x)
  {
    var k :| 0 <= k < |n.pools[c]| && n.pools[c][k].address == x;
    assert PoolInOrder(cfg, c, n.pools[c]);
  }

  // The pools of a network, as a resync finds them.
  lemma PoolsAreInLine(cfg: PluginConfig, n: Network, ev: Event)
    requires ConfigOk(cfg) && NetworkOk(cfg, n) && ev.Resync? && IsResync(n, ev)
    ensures R.PoolsOk(PoolList(n, ev.blocks))
  {
    var pools := PoolList(n, ev.blocks);
    forall k | 0 <= k < |pools| ensures R.StoresOwn(pools[k]) {
      forall a | a in pools[k].allocations ensures In(a.address, pools[k].pod) {
        var i :| 0 <= i < |pools[k].allocations| && pools[k].allocations[i] == a;
        AddressInPool(cfg, pools[k].pod, pools[k].allocations, i);
      }
    }
    forall k, l | 0 <= k < l < |pools| ensures Disjoint(pools[k].pod, pools[l].pod) {
      assert ev.blocks[k] in n.pools && ev.blocks[l] in n.pools;
      PodBlocksDisjoint(cfg, ev.blocks[k], ev.blocks[l]);
    }
  }

  // The record a resync stores for an address is at the address's place.
  lemma SyncedPlace(cfg: PluginConfig, n: Network, ev: Event, k: nat, a: Allocation)
    requires ConfigOk(cfg) && NetworkOk(cfg, n) && ev.Resync? && IsResync(n, ev) && k < |ev.blocks| && a in ev.sync.taken[k]
    ensures var c := ev.blocks[k]; c.len <= 32 && In(a.address, c) && a.address in ev.sync.actives[0] && a.address == c.base + a.index
  {
    var pools, c, s := PoolList(n, ev.blocks), ev.blocks[k], ev.sync;
    PoolsAreInLine(cfg, n, ev);
    R.TakenExactly(pools, ev.filed, s, k, a);
    if R.Known(s.actives[0], s.storeds[0], a.address) {
      R.StoredAreOwn(pools, ev.filed, k, a.address);
      var i :| 0 <= i < |n.pools[c]| && n.pools[c][i] == a;
      assert c in n.pools && PoolInOrder(cfg, c, n.pools[c]);
    }
  }

  lemma TakenIsInOrder(cfg: PluginConfig, n: Network, ev: Event, k: nat)
    requires ConfigOk(cfg) && NetworkOk(cfg, n) && ev.Resync? && IsResync(n, ev) && PodsFit(cfg, n, ev) && k < |ev.blocks|
    ensures PoolInOrder(cfg, ev.blocks[k], ev.sync.taken[k])
  {
    var c, taken := ev.blocks[k], ev.sync.taken[k];
    assert c in n.pools && PoolInOrder(cfg, c, n.pools[c]);
    forall i | 0 <= i < |taken|
      ensures 1 <= taken[i].index < MaxIndex(c) && !Excluded(D.Ranges(PoolFor(cfg, c)), taken[i].index)
      ensures taken[i].address == c.base + taken[i].index
    {
      SyncedPlace(cfg, n, ev, k, taken[i]);
      assert Usable(cfg, c, taken[i].address);
    }
    TakenAddressesDiffer(cfg, n, ev, k);
    assert NoDuplicates(IndexList(taken));
  }

  lemma TakenAddressesDiffer(cfg: PluginConfig, n: Network, ev: Event, k: nat)
    requires ConfigOk(cfg) && NetworkOk(cfg, n) && ev.Resync? && IsResync(n, ev) && k < |ev.blocks|
    ensures R.DistinctAddresses(ev.sync.taken[k])
  {
    var pools, s := PoolList(n, ev.blocks), ev.sync;
    R.StoredKeyed(pools, ev.filed);
    R.LeftForPool(pools, s, k, 0);
    assert R.PoolSync(pools[k], s.actives[k], s.storeds[k], s.orders[k], s.taken[k], s.changes[k], s.actives[k + 1], s.storeds[k + 1]);
    R.TakenDistinct(pools[k].pod, s.actives[k], s.storeds[k], s.orders[k]);
  }

  lemma ResyncKeepsNetwork(cfg: PluginConfig, n: Network, ev: Event, n': Network)
    requires ConfigOk(cfg) && NetworkOk(cfg, n) && ev.Resync? && Resynced(n, ev, n') && PodsFit(cfg, n, ev)
    ensures NetworkOk(cfg, n')
  {
    forall c | c in n'.pools ensures PoolInOrder(cfg, c, n'.pools[c]) {
      assert c in n.pools && c in ev.blocks;
      var k :| 0 <= k < |ev.blocks| && ev.blocks[k] == c;
      if n'.pools[c] != n.pools[c] { TakenIsInOrder(cfg, n, ev, k); }
    }
  }

  lemma EventKeepsNetwork(cfg: PluginConfig, asMeant: bool, n: Network, ev: Event, n': Network)
    requires ConfigOk(cfg) && AllClear(cfg) && NetworkOk(cfg, n)
    requires Moves(cfg, asMeant, n, ev, n') && PodsFit(cfg, n, ev)
    ensures NetworkOk(cfg, n')
  {
    match ev
    case Replan(r) => ReplanKeepsNetwork(cfg, n, r, n');
    case Serve(_, _, _) => ServeKeepsPool(cfg, asMeant, n, ev);
    case Resync(_, _, _) => ResyncKeepsNetwork(cfg, n, ev, n');
  }

  // What running pods hold was allocated, so it is usable.
  lemma {:induction false} AllocatedOnceIsUsable(cfg: PluginConfig, asMeant: bool, run: Run, c: Cidr, x: nat)
    requires ConfigOk(cfg) && AllClear(cfg) && IsNetworkRun(cfg, asMeant, run) && WasAllocated(run, c, x)
    ensures IsPodBlock(cfg, c) && c.len <= 32 && D.PoolConfigOk(PoolFor(cfg, c)) && Usable(cfg, c, x)
    decreases run, 1
  {
    RunKeepsNetwork(cfg, asMeant, run);
    if c in run.now.pools && R.CarriesAddress(run.now.pools[c], x) {
      AllocatedIsUsable(cfg, run.now, c, x);
    } else {
      AllocatedOnceIsUsable(cfg, asMeant, run.before, c, x);
    }
  }

  lemma OurPodsFit(cfg: PluginConfig, asMeant: bool, run: Run, ev: Event)
    requires ConfigOk(cfg) && AllClear(cfg) && IsNetworkRun(cfg, asMeant, run) && NetworkOk(cfg, run.now) && PodsAreOurs(run, ev)
    ensures PodsFit(cfg, run.now, ev)
    decreases run, 2
  {
    if ev.Resync? && ev.sync.actives != [] {
      forall c, x | c in run.now.pools && x in ev.sync.actives[0] && In(x, c) ensures Usable(cfg, c, x) {
        AllocatedOnceIsUsable(cfg, asMeant, run, c, x);
      }
    }
  }

  lemma {:induction false} RunKeepsNetwork(cfg: PluginConfig, asMeant: bool, run: Run)
    requires ConfigOk(cfg) && AllClear(cfg) && IsNetworkRun(cfg, asMeant, run)
    ensures NetworkOk(cfg, run.now)
    decreases run, 0
  {
    match run
    case Start(n) => FirstPlanOk(cfg);
    case Then(before, ev, n) =>
      RunKeepsNetwork(cfg, asMeant, before);
      OurPodsFit(cfg, asMeant, before, ev);
      EventKeepsNetwork(cfg, asMeant, before.now, ev, n);
  }

  // ---------- What the invariant buys ----------

  // Every allocated address lies in its pod block and so in the subnet, in no
  // exclude of the network, and is allocated once in the whole network.
  ghost predicate AddressesSafe(cfg: PluginConfig, n: Network)
    requires ConfigOk(cfg)
  {
    && (forall c, k :: c in n.pools && 0 <= k < |n.pools[c]| ==>
          && c.len <= 32 && In(n.pools[c][k].address, c) && In(n.pools[c][k].address, cfg.subnet)
          && forall e :: e in cfg.excludes ==> e.len <= 32 && !In(n.pools[c][k].address, e))
    && (forall c, k, d, l :: c in n.pools && d in n.pools && 0 <= k < |n.pools[c]| && 0 <= l < |n.pools[d]| && (c != d || k != l) ==>
          n.pools[c][k].address != n.pools[d][l].address)
  }

  lemma AddressInPool(cfg: PluginConfig, c: Cidr, allocations: seq<Allocation>, k: nat)
    requires ConfigOk(cfg) && PoolInOrder(cfg, c, allocations) && k < |allocations|
    ensures In(allocations[k].address, c) && In(allocations[k].address, cfg.subnet)
    ensures forall e :: e in cfg.excludes ==> e.len <= 32 && !In(allocations[k].address, e)
    ensures forall l :: 0 <= l < |allocations| && l != k ==> allocations[l].address != allocations[k].address
  {
    var pool := PoolFor(cfg, c);
    PodBlock(cfg, c);
    D.PoolAddresses(pool, allocations, k);
    forall e | e in cfg.excludes ensures e.len <= 32 && !In(allocations[k].address, e) {
      PodBlockExcludes(cfg, c, e);
      if e in pool.excludes {
        var j :| 0 <= j < |pool.excludes| && pool.excludes[j] == e;
      }
    }
  }

  lemma AddressesDiffer(cfg: PluginConfig, n: Network, c: Cidr, k: nat, d: Cidr, l: nat)
    requires ConfigOk(cfg) && NetworkOk(cfg, n)
    requires c in n.pools && d in n.pools && k < |n.pools[c]| && l < |n.pools[d]| && (c != d || k != l)
    ensures n.pools[c][k].address != n.pools[d][l].address
  {
    AddressInPool(cfg, c, n.pools[c], k);
    if c != d {
      AddressInPool(cfg, d, n.pools[d], l);
      PodBlocksDisjoint(cfg, c, d);
    }
  }

  lemma NetworkIsSafe(cfg: PluginConfig, n: Network)
    requires ConfigOk(cfg) && NetworkOk(cfg, n)
    ensures AddressesSafe(cfg, n)
  {
    forall c, k | c in n.pools && 0 <= k < |n.pools[c]|
      ensures c.len <= 32 && In(n.pools[c][k].address, c) && In(n.pools[c][k].address, cfg.subnet)
      ensures forall e :: e in cfg.excludes ==> e.len <= 32 && !In(n.pools[c][k].address, e)
    {
      AddressInPool(cfg, c, n.pools[c], k);
    }
    forall c, k, d, l | c in n.pools && d in n.pools && 0 <= k < |n.pools[c]| && 0 <= l < |n.pools[d]| && (c != d || k != l)
      ensures n.pools[c][k].address != n.pools[d][l].address
    {
      AddressesDiffer(cfg, n, c, k, d, l);
    }
  }

  // In every run, with updates of the plan, steps of the daemons and resyncs
  // interleaved in any way.
  lemma RunIsSafe(cfg: PluginConfig, asMeant: bool, run: Run)
    requires ConfigOk(cfg) && AllClear(cfg) && IsNetworkRun(cfg, asMeant, run)
    ensures PodBlocksSeparate(cfg, run.now.plan) && AddressesSafe(cfg, run.now)
  {
    RunKeepsNetwork(cfg, asMeant, run);
    PlanSeparates(cfg, run.now.plan);
    NetworkIsSafe(cfg, run.now);
  }

  // ---------- The guard is exact ----------

  lemma UnclearPoolMisleads(cfg: PluginConfig, c: Cidr) returns (full: seq<Allocation>)
    requires ConfigOk(cfg) && IsPodBlock(cfg, c) && D.PoolConfigOk(PoolFor(cfg, c)) && !ExcludesClear(PoolFor(cfg, c))
    ensures PoolInOrder(cfg, c, full)
    ensures !PoolInOrder(cfg, c, D.Apply(PoolFor(cfg, c), true, D.State(full, map[]), D.Allocate("", "", {})).allocations)
  {
    var pool := PoolFor(cfg, c);
    var ranges := D.Ranges(pool);
    D.ExcludeRangesFormed(c, pool.excludes);
    FullPoolMisleads(c, ranges);
    full := FullPool(c, RangeIndexes(ranges, MaxIndex(c)), MaxIndex(c));
    var i := D.Pick(pool, full, 1);
    var a := D.Given(pool, "", "", i.value);
    assert D.Apply(pool, true, D.State(full, map[]), D.Allocate("", "", {})).allocations == D.Inserted(full, a);
    if PoolOk(c, ranges, D.Inserted(full, a)) { D.InsertedOkIsSound(c, ranges, full, a); }
  }

  ghost predicate EveryEventKeeps(cfg: PluginConfig)
    requires ConfigOk(cfg)
  {
    forall n, ev, n' :: NetworkOk(cfg, n) && Next(cfg, true, n, ev, n') && PodsFit(cfg, n, ev) ==> NetworkOk(cfg, n')
  }

  lemma OnePool(cfg: PluginConfig, c: Cidr, allocations: seq<Allocation>)
    requires ConfigOk(cfg)
    ensures NetworkOk(cfg, Network([], map[c := allocations])) <==> PoolInOrder(cfg, c, allocations)
  {
    var n := Network([], map[c := allocations]);
    assert n.pools[c] == allocations;
  }

  lemma ServeOnePool(cfg: PluginConfig, c: Cidr, before: seq<Allocation>, step: D.Step, after: seq<Allocation>)
    requires ConfigOk(cfg) && c.len <= 32 && D.PoolConfigOk(PoolFor(cfg, c))
    requires after == D.Apply(PoolFor(cfg, c), true, D.State(before, map[]), step).allocations
    ensures Next(cfg, true, Network([], map[c := before]), Serve(c, map[], step), Network([], map[c := after]))
  {
    var n := Network([], map[c := before]);
    assert n.pools[c := after] == map[c := after];
  }

  // One pool that is full and not clear, and an allocation from it.
  lemma UnclearEvent(cfg: PluginConfig, c: Cidr) returns (n: Network, ev: Event, n': Network)
    requires ConfigOk(cfg) && IsPodBlock(cfg, c) && D.PoolConfigOk(PoolFor(cfg, c)) && !ExcludesClear(PoolFor(cfg, c))
    ensures NetworkOk(cfg, n) && Next(cfg, true, n, ev, n') && PodsFit(cfg, n, ev) && !NetworkOk(cfg, n')
  {
    var full := UnclearPoolMisleads(cfg, c);
    var step := D.Allocate("", "", {});
    var after := D.Apply(PoolFor(cfg, c), true, D.State(full, map[]), step).allocations;
    n, ev, n' := Network([], map[c := full]), Serve(c, map[], step), Network([], map[c := after]);
    OnePool(cfg, c, full);
    OnePool(cfg, c, after);
    ServeOnePool(cfg, c, full, step, after);
  }

  lemma NotClear(cfg: PluginConfig) returns (c: Cidr)
    requires ConfigOk(cfg) && !AllClear(cfg)
    ensures IsPodBlock(cfg, c) && c.len <= 32 && D.PoolConfigOk(PoolFor(cfg, c)) && !ExcludesClear(PoolFor(cfg, c))
  {
    c :| IsPodBlock(cfg, c) && !(c.len <= 32 && D.PoolConfigOk(PoolFor(cfg, c)) && ExcludesClear(PoolFor(cfg, c)));
    PodBlock(cfg, c);
  }

  // With the intended insertion, every event keeps the invariant from every state
  // that has it, if and only if the excludes of every pool are clear.
  lemma KeptExactlyWhenClear(cfg: PluginConfig)
    requires ConfigOk(cfg)
    ensures EveryEventKeeps(cfg) <==> AllClear(cfg)
  {
    if AllClear(cfg) {
      forall n, ev, n' | NetworkOk(cfg, n) && Next(cfg, true, n, ev, n') && PodsFit(cfg, n, ev) ensures NetworkOk(cfg, n') {
        EventKeepsNetwork(cfg, true, n, ev, n');
      }
    } else {
      var c := NotClear(cfg);
      var n, ev, n' := UnclearEvent(cfg, c);
    }
  }

  // ---------- Addresses of running pods ----------

  ghost predicate OnNetwork(plan: seq<Entry>, net: string, name: string, c: Cidr)
  {
    exists i, a :: 0 <= i < |plan| && 0 <= a < |plan[i].hosts| &&
      plan[i].netAddress == net && plan[i].hosts[a].hostName == name && plan[i].hosts[a].podCidr == c
  }

  // The event does not take the host off the network, releases no address of the
  // record's pod in the host's pool, and finds the pod running if it looks.
  ghost predicate Spares(cfg: PluginConfig, n: Network, ev: Event, net: string, name: string, c: Cidr, x: Allocation)
    requires Fits(cfg)
  {
    match ev
    case Replan(r) =>
      InputOk(r.input) && KeyedByHost(r.input.snap) && StoredLengths(cfg, n.plan) &&
      var w := Updated(cfg, n.plan, r.input, r.isNew); w.Work? && HasRecord(w.entries, net, name)
    case Serve(pool, _, step) => pool == c ==> !D.Releases(step, x)
    case Resync(_, _, sync) =>
      sync.actives != [] && x.address in sync.actives[0] && R.SamePod(sync.actives[0][x.address], x)
  }

  // The record the update keeps is on the same block.
  lemma StillAssigned(cfg: PluginConfig, plan: seq<Entry>, r: Round, net: string, name: string, c: Cidr) returns (h: HostInfo)
    requires ConfigOk(cfg) && PlanOk(cfg, plan) && InputOk(r.input) && KeyedByHost(r.input.snap) && StoredLengths(cfg, plan)
    requires OnNetwork(plan, net, name, c)
    requires var w := Updated(cfg, plan, r.input, r.isNew); w.Work? && HasRecord(w.entries, net, name)
    ensures var m := Updated(cfg, plan, r.input, r.isNew).entries; net in m && h in m[net].hosts
    ensures h.hostName == name && h.podCidr == c
  {
    var i, a :| 0 <= i < |plan| && 0 <= a < |plan[i].hosts| && plan[i].netAddress == net &&
      plan[i].hosts[a].hostName == name && plan[i].hosts[a].podCidr == c;
    var m := Updated(cfg, plan, r.input, r.isNew).entries;
    h :| h in m[net].hosts && h.hostName == name;
    UpdateAgrees(cfg, plan, r.input, r.isNew, i, plan[i].hosts[a], h);
  }

  // So its pool stays as it is, and it is on the network of the next plan.
  lemma ReplanSpares(cfg: PluginConfig, n: Network, r: Round, n': Network, net: string, name: string, c: Cidr, x: Allocation)
    requires ConfigOk(cfg) && PlanOk(cfg, n.plan) && Replanned(cfg, n, r, n')
    requires OnNetwork(n.plan, net, name, c) && c in n.pools && Spares(cfg, n, Replan(r), net, name, c, x)
    ensures OnNetwork(n'.plan, net, name, c) && c in n'.pools && n'.pools[c] == n.pools[c]
  {
    var h := StillAssigned(cfg, n.plan, r, net, name, c);
    UpdateOk(cfg, n.plan, r.input, r.isNew);
    FollowsSpares(Updated(cfg, n.plan, r.input, r.isNew).entries, n, n', net, h);
  }

  lemma FollowsSpares(m: map<string, Entry>, n: Network, n': Network, net: string, h: HostInfo)
    requires net in m && h in m[net].hosts && m[net].netAddress == net && h.podCidr in n.pools
    requires n'.plan == n.plan || Listing(m, n'.plan)
    requires n'.pools == n.pools || PoolsFollow(m, n.pools, n'.pools)
    requires OnNetwork(n.plan, net, h.hostName, h.podCidr)
    ensures OnNetwork(n'.plan, net, h.hostName, h.podCidr)
    ensures h.podCidr in n'.pools && n'.pools[h.podCidr] == n.pools[h.podCidr]
  {
    assert Assigned(m, h.podCidr);
    if n'.plan != n.plan { ListedOn(m, n'.plan, net, h); }
  }

  lemma ListedOn(m: map<string, Entry>, plan: seq<Entry>, net: string, h: HostInfo)
    requires Listing(m, plan) && net in m && h in m[net].hosts && m[net].netAddress == net
    ensures OnNetwork(plan, net, h.hostName, h.podCidr)
  {
    var j :| 0 <= j < |plan| && plan[j] == m[net];
    var b :| 0 <= b < |plan[j].hosts| && plan[j].hosts[b] == h;
  }

  lemma ServeSpares(cfg: PluginConfig, asMeant: bool, n: Network, ev: Event, n': Network, c: Cidr, x: Allocation)
    requires ConfigOk(cfg) && AllClear(cfg) && NetworkOk(cfg, n) && ev.Serve?
    requires Served(cfg, asMeant, n, ev, n') && Smooth(cfg, asMeant, n, ev)
    requires c in n.pools && x in n.pools[c] && (ev.pool == c ==> !D.Releases(ev.step, x))
    ensures c in n'.pools && x in n'.pools[c]
  {
    if ev.pool == c {
      assert PoolInOrder(cfg, c, n.pools[c]);
      ServeKeepsPool(cfg, asMeant, n, ev);
      D.StepKeepsRecord(PoolFor(cfg, c), D.State(n.pools[c], ev.history), ev.step, x);
    }
  }

  // A running pod's record is taken as it is, filed or not.
  lemma SyncedIsItself(cfg: PluginConfig, n: Network, ev: Event, k: nat, x: Allocation)
    requires ConfigOk(cfg) && NetworkOk(cfg, n) && ev.Resync? && IsResync(n, ev) && k < |ev.blocks| && x in n.pools[ev.blocks[k]]
    requires x.address in ev.sync.actives[0] && R.SamePod(ev.sync.actives[0][x.address], x)
    requires ev.blocks[k].len <= 32 && In(x.address, ev.blocks[k]) && x.address == ev.blocks[k].base + x.index
    ensures R.Synced(ev.blocks[k], ev.sync.actives[0], ev.sync.storeds[0], x.address) == x
  {
    var pools, c, s := PoolList(n, ev.blocks), ev.blocks[k], ev.sync;
    if R.Known(s.actives[0], s.storeds[0], x.address) {
      PoolsAreInLine(cfg, n, ev);
      R.StoredAreOwn(pools, ev.filed, k, x.address);
      R.StoredKeyed(pools, ev.filed);
      var j :| 0 <= j < |n.pools[c]| && n.pools[c][j] == s.storeds[0][x.address];
      AddressIsItsOwn(cfg, n, c, x);
    }
  }

  lemma AddressAtPlace(cfg: PluginConfig, n: Network, c: Cidr, x: Allocation)
    requires ConfigOk(cfg) && NetworkOk(cfg, n) && c in n.pools && x in n.pools[c]
    ensures c.len <= 32 && In(x.address, c) && x.address == c.base + x.index
  {
    var i :| 0 <= i < |n.pools[c]| && n.pools[c][i] == x;
    assert PoolInOrder(cfg, c, n.pools[c]);
    AddressInPool(cfg, c, n.pools[c], i);
  }

  lemma RunningIsTaken(cfg: PluginConfig, n: Network, ev: Event, k: nat, x: Allocation)
    requires ConfigOk(cfg) && NetworkOk(cfg, n) && ev.Resync? && IsResync(n, ev) && k < |ev.blocks| && x in n.pools[ev.blocks[k]]
    requires x.address in ev.sync.actives[0] && R.SamePod(ev.sync.actives[0][x.address], x)
    ensures x in ev.sync.taken[k]
  {
    PoolsAreInLine(cfg, n, ev);
    AddressAtPlace(cfg, n, ev.blocks[k], x);
    SyncedIsItself(cfg, n, ev, k, x);
    R.TakenExactly(PoolList(n, ev.blocks), ev.filed, ev.sync, k, x);
  }

  lemma ResyncSpares(cfg: PluginConfig, n: Network, ev: Event, n': Network, c: Cidr, x: Allocation)
    requires ConfigOk(cfg) && NetworkOk(cfg, n) && ev.Resync? && Resynced(n, ev, n') && c in n.pools && x in n.pools[c]
    requires x.address in ev.sync.actives[0] && R.SamePod(ev.sync.actives[0][x.address], x)
    ensures c in n'.pools && x in n'.pools[c]
  {
    assert c in ev.blocks;
    var k :| 0 <= k < |ev.blocks| && ev.blocks[k] == c;
    RunningIsTaken(cfg, n, ev, k, x);
  }

  ghost predicate InPool(n: Network, net: string, name: string, c: Cidr, x: Allocation)
  {
    OnNetwork(n.plan, net, name, c) && c in n.pools && x in n.pools[c]
  }

  lemma EventSpares(cfg: PluginConfig, asMeant: bool, n: Network, ev: Event, n': Network, net: string, name: string, c: Cidr, x: Allocation)
    requires ConfigOk(cfg) && AllClear(cfg) && NetworkOk(cfg, n)
    requires Moves(cfg, asMeant, n, ev, n') && Spares(cfg, n, ev, net, name, c, x)
    ensures InPool(n, net, name, c, x) ==> InPool(n', net, name, c, x)
  {
    if InPool(n, net, name, c, x) {
      match ev
      case Replan(r) => ReplanSpares(cfg, n, r, n', net, name, c, x);
      case Serve(_, _, _) => ServeSpares(cfg, asMeant, n, ev, n', c, x);
      case Resync(_, _, _) => ResyncSpares(cfg, n, ev, n', c, x);
    }
  }

  // The later run goes on from the earlier one, with events that spare the record.
  ghost predicate SparedSince(cfg: PluginConfig, earlier: Run, later: Run, net: string, name: string, c: Cidr, x: Allocation)
    requires Fits(cfg)
  {
    later == earlier ||
    (later.Then? && SparedSince(cfg, earlier, later.before, net, name, c, x) &&
     Spares(cfg, later.before.now, later.ev, net, name, c, x))
  }

  lemma {:induction false} StaysInPool(cfg: PluginConfig, asMeant: bool, earlier: Run, later: Run, net: string, name: string, c: Cidr, x: Allocation)
    requires ConfigOk(cfg) && AllClear(cfg) && IsNetworkRun(cfg, asMeant, later)
    requires InPool(earlier.now, net, name, c, x) && SparedSince(cfg, earlier, later, net, name, c, x)
    ensures InPool(later.now, net, name, c, x)
  {
    if later != earlier {
      StaysInPool(cfg, asMeant, earlier, later.before, net, name, c, x);
      RunKeepsNetwork(cfg, asMeant, later.before);
      EventSpares(cfg, asMeant, later.before.now, later.ev, later.now, net, name, c, x);
    }
  }

  // While its host stays on the network and its pod is neither deallocated nor
  // cleaned up nor missing when a resync looks, an allocation stays in the pool of
  // the host's block, through all updates of the plan and whatever the daemons do;
  // so its address is nobody else's.
  lemma ReservedWhileLive(cfg: PluginConfig, asMeant: bool, earlier: Run, later: Run, net: string, name: string, c: Cidr, x: Allocation)
    requires ConfigOk(cfg) && AllClear(cfg) && IsNetworkRun(cfg, asMeant, later)
    requires InPool(earlier.now, net, name, c, x) && SparedSince(cfg, earlier, later, net, name, c, x)
    ensures InPool(later.now, net, name, c, x)
    ensures forall d, k :: d in later.now.pools && 0 <= k < |later.now.pools[d]| && later.now.pools[d][k].address == x.address ==>
              d == c && later.now.pools[d][k] == x
  {
    StaysInPool(cfg, asMeant, earlier, later, net, name, c, x);
    RunKeepsNetwork(cfg, asMeant, later);
    AddressIsItsOwn(cfg, later.now, c, x);
  }

  lemma AddressIsItsOwn(cfg: PluginConfig, n: Network, c: Cidr, x: Allocation)
    requires ConfigOk(cfg) && NetworkOk(cfg, n) && c in n.pools && x in n.pools[c]
    ensures forall d, k :: d in n.pools && 0 <= k < |n.pools[d]| && n.pools[d][k].address == x.address ==>
              d == c && n.pools[d][k] == x
  {
    var l :| 0 <= l < |n.pools[c]| && n.pools[c][l] == x;
    forall d, k | d in n.pools && 0 <= k < |n.pools[d]| && n.pools[d][k].address == x.address
      ensures d == c && n.pools[d][k] == x
    {
      if d != c || k != l { AddressesDiffer(cfg, n, c, l, d, k); }
    }
  }
}
