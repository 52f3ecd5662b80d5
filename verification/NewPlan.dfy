// NewCIDR (controllers/cidr_handler.go): the first plan of a network, one empty
// entry per master network.
module NewPlan {
  import opened Powers
  import opened Blocks
  import opened Compute
  import opened Excludes
  import opened Sorting
  import opened Plan
  import opened Indexing

  // The indexes below k that are not tabu, in ascending order.
  function FreeBelow(tabu: set<nat>, k: nat): (s: seq<nat>)
  {
    if k == 0 then [] else FreeBelow(tabu, k - 1) + if k - 1 in tabu then [] else [k - 1]
  }

  lemma {:induction false} FreeBelowExact(tabu: set<nat>, k: nat)
    ensures StrictlyIncreasing(FreeBelow(tabu, k))
    ensures forall i: nat :: i in FreeBelow(tabu, k) <==> i < k && i !in tabu
  {
    if k > 0 {
      FreeBelowExact(tabu, k - 1);
      var before := FreeBelow(tabu, k - 1);
      assert forall i :: 0 <= i < |before| ==> before[i] in before;
    }
  }

  lemma {:induction false} FreeBelowGrows(tabu: set<nat>, k: nat, n: nat)
    requires k <= n
    ensures FreeBelow(tabu, k) <= FreeBelow(tabu, n)
  {
    if k < n { FreeBelowGrows(tabu, k, n - 1); }
  }

  function TabuInterfaces(cfg: PluginConfig): set<nat>
    requires cfg.subnet.len + cfg.interfaceBlock <= 32 && Prefixes(cfg.excludes)
  {
    TabuIndexes(cfg.subnet, cfg.interfaceBlock, cfg.excludes)
  }

  function FreeInterfaces(cfg: PluginConfig): seq<nat>
    requires cfg.subnet.len + cfg.interfaceBlock <= 32 && Prefixes(cfg.excludes)
  {
    FreeBelow(TabuInterfaces(cfg), Pow2(cfg.interfaceBlock))
  }

  // The first |indexes| masters on the given interface indexes.
  function EmptyEntries(cfg: PluginConfig, indexes: seq<nat>): (s: seq<Entry>)
    requires cfg.subnet.len + cfg.interfaceBlock <= 32 && |indexes| <= |cfg.masterNets|
    ensures |s| == |indexes|
    ensures forall k :: 0 <= k < |s| ==>
              s[k] == Entry(cfg.masterNets[k], indexes[k], Block(cfg.subnet, cfg.interfaceBlock, indexes[k]), [])
  {
    seq(|indexes|, k requires 0 <= k < |indexes| =>
      Entry(cfg.masterNets[k], indexes[k], Block(cfg.subnet, cfg.interfaceBlock, indexes[k]), []))
  }

  lemma EmptyEntriesExtend(cfg: PluginConfig, indexes: seq<nat>, i: nat)
    requires cfg.subnet.len + cfg.interfaceBlock <= 32 && |indexes| < |cfg.masterNets|
    ensures EmptyEntries(cfg, indexes + [i]) ==
            EmptyEntries(cfg, indexes) +
            [Entry(cfg.masterNets[|indexes|], i, Block(cfg.subnet, cfg.interfaceBlock, i), [])]
  {
  }

  // ---------- The loop, turn by turn ----------

  datatype Search = Searching(next: nat, entries: seq<Entry>) | Done(entries: seq<Entry>) | Overflow

  // One turn: the computed block fails, is tabu, or becomes the next entry.
  function Step(cfg: PluginConfig, s: Search): Search
    requires cfg.subnet.len + cfg.interfaceBlock <= 32 && Prefixes(cfg.excludes)
  {
    match s
    case Done(_) => s
    case Overflow => s
    case Searching(i, entries) =>
      if |entries| >= |cfg.masterNets| then Done(entries)
      else
        var vlan := BlockAt(cfg.subnet, cfg.interfaceBlock, i);
        if vlan.None? then Searching(i + 1, entries)
        else if Tabu(cfg.subnet, cfg.interfaceBlock, i, cfg.excludes) then
          if i + 1 > Pow2(cfg.interfaceBlock) - 1 then Overflow else Searching(i + 1, entries)
        else Searching(i + 1, entries + [Entry(cfg.masterNets[|entries|], i, vlan.value, [])])
  }

  function Run(cfg: PluginConfig, turns: nat): Search
    requires cfg.subnet.len + cfg.interfaceBlock <= 32 && Prefixes(cfg.excludes)
  {
    if turns == 0 then Searching(0, []) else Step(cfg, Run(cfg, turns - 1))
  }

  // The same loop seen through the indexes alone.
  datatype Picks = Picking(next: nat, picks: seq<nat>) | Picked(picks: seq<nat>) | Exhausted

  function PickStep(n: nat, tabu: set<nat>, m: nat, s: Picks): Picks
  {
    match s
    case Picked(_) => s
    case Exhausted => s
    case Picking(i, picks) =>
      if |picks| >= m then Picked(picks)
      else if i >= n then Picking(i + 1, picks)
      else if i in tabu then if i + 1 >= n then Exhausted else Picking(i + 1, picks)
      else Picking(i + 1, picks + [i])
  }

  function PickRun(n: nat, tabu: set<nat>, m: nat, turns: nat): Picks
  {
    if turns == 0 then Picking(0, []) else PickStep(n, tabu, m, PickRun(n, tabu, m, turns - 1))
  }

  // While indexes last, turn k has picked the free indexes below k.
  lemma {:induction false} PickRunInRange(n: nat, tabu: set<nat>, m: nat, k: nat)
    requires k <= n
    ensures
      if k > 0 && |FreeBelow(tabu, k - 1)| >= m then
        |FreeBelow(tabu, n)| >= m && PickRun(n, tabu, m, k) == Picked(FreeBelow(tabu, n)[..m])
      else if k > 0 && k == n && k - 1 in tabu then PickRun(n, tabu, m, k) == Exhausted
      else |FreeBelow(tabu, k)| <= m && PickRun(n, tabu, m, k) == Picking(k, FreeBelow(tabu, k))
  {
    if k > 0 {
      PickRunInRange(n, tabu, m, k - 1);
      FreeBelowGrows(tabu, k - 1, n);
      if |FreeBelow(tabu, k - 1)| >= m && !(k > 1 && |FreeBelow(tabu, k - 2)| >= m) {
        assert FreeBelow(tabu, n)[..m] == FreeBelow(tabu, k - 1);
      }
    }
  }

  // Enough free indexes: the k-th master gets the k-th smallest of them. Too few:
  // the loop reports an overflow exactly when the last index is tabu, and
  // otherwise never ends.
  lemma {:induction false} PickOutcome(n: nat, tabu: set<nat>, m: nat, turns: nat)
    requires n > 0
    ensures |FreeBelow(tabu, n)| >= m && turns > n ==> PickRun(n, tabu, m, turns) == Picked(FreeBelow(tabu, n)[..m])
    ensures |FreeBelow(tabu, n)| < m && n - 1 in tabu && turns >= n ==> PickRun(n, tabu, m, turns) == Exhausted
    ensures |FreeBelow(tabu, n)| < m && n - 1 !in tabu && turns >= n ==>
              PickRun(n, tabu, m, turns) == Picking(turns, FreeBelow(tabu, n))
  {
    FreeBelowGrows(tabu, n - 1, n);
    if turns <= n {
      if turns == n { PickRunInRange(n, tabu, m, turns); }
    } else {
      PickOutcome(n, tabu, m, turns - 1);
      if turns == n + 1 { PickRunInRange(n, tabu, m, n); }
    }
  }

  ghost predicate Same(cfg: PluginConfig, s: Search, p: Picks)
    requires cfg.subnet.len + cfg.interfaceBlock <= 32
  {
    match p
    case Picking(i, picks) => |picks| <= |cfg.masterNets| && s == Searching(i, EmptyEntries(cfg, picks))
    case Picked(picks) => |picks| <= |cfg.masterNets| && s == Done(EmptyEntries(cfg, picks))
    case Exhausted => s == Overflow
  }

  lemma {:induction false} RunIsPickRun(cfg: PluginConfig, turns: nat)
    requires ConfigOk(cfg)
    ensures Same(cfg, Run(cfg, turns), PickRun(Pow2(cfg.interfaceBlock), TabuInterfaces(cfg), |cfg.masterNets|, turns))
  {
    if turns == 0 {
      assert EmptyEntries(cfg, []) == [];
    } else {
      RunIsPickRun(cfg, turns - 1);
      var p := PickRun(Pow2(cfg.interfaceBlock), TabuInterfaces(cfg), |cfg.masterNets|, turns - 1);
      if p.Picking? {
        StepIsPickStep(cfg, p.next, p.picks);
      }
    }
  }

  lemma StepIsPickStep(cfg: PluginConfig, i: nat, picks: seq<nat>)
    requires ConfigOk(cfg) && |picks| <= |cfg.masterNets|
    ensures Same(cfg, Step(cfg, Searching(i, EmptyEntries(cfg, picks))),
                 PickStep(Pow2(cfg.interfaceBlock), TabuInterfaces(cfg), |cfg.masterNets|, Picking(i, picks)))
  {
    if |picks| < |cfg.masterNets| && i < Pow2(cfg.interfaceBlock) {
      assert i in TabuInterfaces(cfg) <==> Tabu(cfg.subnet, cfg.interfaceBlock, i, cfg.excludes);
      EmptyEntriesExtend(cfg, picks, i);
    }
  }

  // Whether the masters find enough indexes, and, if not, whether the loop ends.
  ghost predicate Enough(cfg: PluginConfig)
    requires ConfigOk(cfg)
  {
    |FreeInterfaces(cfg)| >= |cfg.masterNets|
  }

  ghost predicate LastIndexTabu(cfg: PluginConfig)
    requires ConfigOk(cfg)
  {
    Tabu(cfg.subnet, cfg.interfaceBlock, Pow2(cfg.interfaceBlock) - 1, cfg.excludes)
  }

  function FirstPlan(cfg: PluginConfig): seq<Entry>
    requires cfg.subnet.len + cfg.interfaceBlock <= 32 && Prefixes(cfg.excludes)
    requires |FreeInterfaces(cfg)| >= |cfg.masterNets|
  {
    EmptyEntries(cfg, FreeInterfaces(cfg)[..|cfg.masterNets|])
  }

  // A loop that has ended stays where it is.
  lemma {:induction false} EndedStays(cfg: PluginConfig, turns: nat, later: nat)
    requires ConfigOk(cfg) && turns <= later && !Run(cfg, turns).Searching?
    ensures Run(cfg, later) == Run(cfg, turns)
  {
    if turns < later { EndedStays(cfg, turns, later - 1); }
  }

  lemma NeverEnds(cfg: PluginConfig, turns: nat)
    requires ConfigOk(cfg) && !Enough(cfg) && !LastIndexTabu(cfg)
    ensures Run(cfg, turns).Searching?
  {
    var later := turns + Pow2(cfg.interfaceBlock);
    RunIsPickRun(cfg, later);
    PickOutcome(Pow2(cfg.interfaceBlock), TabuInterfaces(cfg), |cfg.masterNets|, later);
    LastIndexInTabu(cfg);
    if !Run(cfg, turns).Searching? { EndedStays(cfg, turns, later); }
  }

  // Two master networks and no interface bits, so only one interface index.
  lemma NewCidrCanRunForEver() returns (cfg: PluginConfig)
    ensures ConfigOk(cfg) && forall turns :: Run(cfg, turns).Searching?
  {
    cfg := PluginConfig("net", Cidr(0, 24), ["a", "b"], 8, 0, []);
    assert 0 % Pow2(8) == 0;
    assert !LastIndexTabu(cfg);
    assert |FreeBelow(TabuInterfaces(cfg), 1)| <= 1 by { assert FreeBelow(TabuInterfaces(cfg), 0) == []; }
    forall turns: nat ensures Run(cfg, turns).Searching? { NeverEnds(cfg, turns); }
  }

  // What NewCIDR does on every usable configuration.
  lemma NewCidrOutcome(cfg: PluginConfig, turns: nat)
    requires ConfigOk(cfg) && turns > Pow2(cfg.interfaceBlock)
    ensures Enough(cfg) ==> Run(cfg, turns) == Done(FirstPlan(cfg))
    ensures !Enough(cfg) && LastIndexTabu(cfg) ==> Run(cfg, turns) == Overflow
    ensures !Enough(cfg) && !LastIndexTabu(cfg) ==> forall k :: Run(cfg, k).Searching?
  {
    forall k: nat ensures !Enough(cfg) && !LastIndexTabu(cfg) ==> Run(cfg, k).Searching? {
      if !Enough(cfg) && !LastIndexTabu(cfg) { NeverEnds(cfg, k); }
    }
    RunIsPickRun(cfg, turns);
    PickOutcome(Pow2(cfg.interfaceBlock), TabuInterfaces(cfg), |cfg.masterNets|, turns);
    LastIndexInTabu(cfg);
  }

  lemma FirstPlanOk(cfg: PluginConfig)
    requires ConfigOk(cfg) && Enough(cfg)
    ensures PlanOk(cfg, FirstPlan(cfg))
    ensures forall k :: 0 <= k < |FirstPlan(cfg)| ==> FirstPlan(cfg)[k].hosts == []
  {
    var free, tabu := FreeInterfaces(cfg), TabuInterfaces(cfg);
    FreeBelowExact(tabu, Pow2(cfg.interfaceBlock));
    forall k | 0 <= k < |cfg.masterNets| ensures EntryOk(cfg, FirstPlan(cfg)[k]) {
      assert free[k] in free;
      assert free[k] !in tabu;
    }
  }

  ghost predicate FreeInterface(cfg: PluginConfig, i: nat)
    requires ConfigOk(cfg)
  {
    i < Pow2(cfg.interfaceBlock) && !Tabu(cfg.subnet, cfg.interfaceBlock, i, cfg.excludes)
  }

  // Entry k of the first plan is for master k, on the least free interface index
  // above that of the entry before.
  lemma FirstPlanExactly(cfg: PluginConfig, k: nat)
    requires ConfigOk(cfg) && Enough(cfg) && k < |cfg.masterNets|
    ensures |FirstPlan(cfg)| == |cfg.masterNets|
    ensures var e := FirstPlan(cfg)[k];
      var last := if k == 0 then -1 else FirstPlan(cfg)[k - 1].interfaceIndex;
      && e == Entry(cfg.masterNets[k], e.interfaceIndex, Block(cfg.subnet, cfg.interfaceBlock, e.interfaceIndex), [])
      && FreeInterface(cfg, e.interfaceIndex) && last < e.interfaceIndex
      && forall j: nat :: last < j < e.interfaceIndex ==> !FreeInterface(cfg, j)
  {
    var free, tabu := FreeInterfaces(cfg), TabuInterfaces(cfg);
    FreeBelowExact(tabu, Pow2(cfg.interfaceBlock));
    assert free[k] in free;
    var last := if k == 0 then -1 else free[k - 1];
    forall j: nat | last < j < free[k] ensures !FreeInterface(cfg, j) {
      assert j !in free;
    }
  }

  // There are enough indexes exactly when as many are free as there are masters.
  lemma EnoughExactly(cfg: PluginConfig)
    requires ConfigOk(cfg)
    ensures Enough(cfg) <==> |set i: nat | i < Pow2(cfg.interfaceBlock) && FreeInterface(cfg, i)| >= |cfg.masterNets|
  {
    var free := FreeInterfaces(cfg);
    FreeBelowExact(TabuInterfaces(cfg), Pow2(cfg.interfaceBlock));
    MembersCount(free);
    assert (set i: nat | i < Pow2(cfg.interfaceBlock) && FreeInterface(cfg, i)) == Members(free);
  }

  lemma {:induction false} FreeBelowSkips(tabu: set<nat>, i: nat, j: nat)
    requires i <= j && forall k :: i <= k < j ==> k in tabu
    ensures FreeBelow(tabu, j) == FreeBelow(tabu, i)
  {
    if i < j { FreeBelowSkips(tabu, i, j - 1); }
  }

  lemma NextFreeIsNextPick(n: nat, tabu: set<nat>, start: nat)
    requires start < n
    ensures var j := NextFree(n, tabu, start);
      if j.Some? then FreeBelow(tabu, j.value + 1) == FreeBelow(tabu, start) + [j.value] && j.value !in tabu
      else FreeBelow(tabu, n) == FreeBelow(tabu, start)
  {
    var j := NextFree(n, tabu, start);
    FreeBelowSkips(tabu, start, if j.Some? then j.value else n);
  }

  // The inner loop, from an index that exists: the next block that is not tabu.
  method FindVlan(cfg: PluginConfig, start: nat) returns (r: Option<Assigned>)
    requires ConfigOk(cfg) && start < Pow2(cfg.interfaceBlock)
    ensures var i := NextFree(Pow2(cfg.interfaceBlock), TabuInterfaces(cfg), start);
      r == if i.Some? then Some(Assigned(Block(cfg.subnet, cfg.interfaceBlock, i.value), i.value)) else None
  {
    var maxInterfaceIndex := Pow2(cfg.interfaceBlock) - 1;
    var masterIndex := start;
    while true
      invariant start <= masterIndex <= maxInterfaceIndex
      invariant forall j :: start <= j < masterIndex ==> j in TabuInterfaces(cfg)
      decreases maxInterfaceIndex - masterIndex
    {
      var vlan := TryIndex(cfg.subnet, masterIndex, cfg.interfaceBlock, cfg.excludes);
      if vlan.Some? { return Some(Assigned(vlan.value, masterIndex)); }
      masterIndex := masterIndex + 1;
      if masterIndex > maxInterfaceIndex { return None; }
    }
  }

  // The entries for the free interface indexes below k.
  function EntriesBelow(cfg: PluginConfig, k: nat): seq<Entry>
    requires cfg.subnet.len + cfg.interfaceBlock <= 32 && Prefixes(cfg.excludes)
    requires |FreeBelow(TabuInterfaces(cfg), k)| <= |cfg.masterNets|
  {
    EmptyEntries(cfg, FreeBelow(TabuInterfaces(cfg), k))
  }

  // What one turn of the outer loop finds.
  lemma NextEntry(cfg: PluginConfig, k: nat, i: nat)
    requires ConfigOk(cfg) && k < Pow2(cfg.interfaceBlock) && |FreeBelow(TabuInterfaces(cfg), k)| < |cfg.masterNets|
    requires NextFree(Pow2(cfg.interfaceBlock), TabuInterfaces(cfg), k) == Some(i)
    ensures i < Pow2(cfg.interfaceBlock) && i !in TabuInterfaces(cfg)
    ensures var tabu := TabuInterfaces(cfg);
      && |FreeBelow(tabu, i + 1)| == |FreeBelow(tabu, k)| + 1
      && EntriesBelow(cfg, i + 1) ==
           EntriesBelow(cfg, k) + [Entry(cfg.masterNets[|FreeBelow(tabu, k)|], i, Block(cfg.subnet, cfg.interfaceBlock, i), [])]
  {
    NextFreeIsNextPick(Pow2(cfg.interfaceBlock), TabuInterfaces(cfg), k);
    EmptyEntriesExtend(cfg, FreeBelow(TabuInterfaces(cfg), k), i);
  }

  // No turn finds more than the free interface indexes.
  lemma NoEntryLeft(cfg: PluginConfig, k: nat)
    requires ConfigOk(cfg) && k < Pow2(cfg.interfaceBlock) && |FreeBelow(TabuInterfaces(cfg), k)| < |cfg.masterNets|
    requires NextFree(Pow2(cfg.interfaceBlock), TabuInterfaces(cfg), k).None?
    ensures !Enough(cfg)
  {
    NextFreeIsNextPick(Pow2(cfg.interfaceBlock), TabuInterfaces(cfg), k);
  }

  // All masters placed: the entries are the first plan.
  lemma AllPlaced(cfg: PluginConfig, k: nat)
    requires ConfigOk(cfg) && k <= Pow2(cfg.interfaceBlock) && |FreeBelow(TabuInterfaces(cfg), k)| == |cfg.masterNets|
    ensures Enough(cfg) && EntriesBelow(cfg, k) == FirstPlan(cfg)
  {
    FreeBelowGrows(TabuInterfaces(cfg), k, Pow2(cfg.interfaceBlock));
    assert FreeInterfaces(cfg)[..|cfg.masterNets|] == FreeBelow(TabuInterfaces(cfg), k);
  }

  // NewCIDR, where it returns at all (see NewCidrOutcome).
  method NewCIDR(cfg: PluginConfig) returns (r: Option<seq<Entry>>)
    requires ConfigOk(cfg) && (Enough(cfg) || LastIndexTabu(cfg))
    ensures r == if Enough(cfg) then Some(FirstPlan(cfg)) else None
  {
    ghost var n, tabu := Pow2(cfg.interfaceBlock), TabuInterfaces(cfg);
    LastIndexInTabu(cfg);
    var entries: seq<Entry> := [];
    var masterIndex: nat := 0;
    for i := 0 to |cfg.masterNets|
      invariant masterIndex <= n && |FreeBelow(tabu, masterIndex)| == i
      invariant masterIndex == n ==> n - 1 !in tabu
      invariant entries == EntriesBelow(cfg, masterIndex)
    {
      var found := FindVlan(cfg, masterIndex);
      if found.None? {
        NoEntryLeft(cfg, masterIndex);
        return None;
      }
      NextEntry(cfg, masterIndex, found.value.index);
      entries := entries + [Entry(cfg.masterNets[i], found.value.index, found.value.cidr, [])];
      masterIndex := found.value.index + 1;
    }
    AllPlaced(cfg, masterIndex);
    return Some(entries);
  }

  lemma LastIndexInTabu(cfg: PluginConfig)
    requires ConfigOk(cfg)
    ensures Pow2(cfg.interfaceBlock) - 1 in TabuInterfaces(cfg) <==> LastIndexTabu(cfg)
  {
  }
}
