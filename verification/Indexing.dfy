// Choosing indexes: addNewHost for hosts, getInterfaceEntry and NewCIDR for
// networks (controllers/cidr_handler.go).
module Indexing {
  import opened Powers
  import opened Blocks
  import opened Compute
  import opened Excludes
  import opened Sorting
  import opened Gaps
  import opened Plan

  // ---------- The specification: least free index ----------

  // The least index from i on, below n, that is not taken.
  function NextFree(n: nat, taken: set<nat>, i: nat): (r: Option<nat>)
    ensures r.Some? ==> i <= r.value < n && r.value !in taken
    ensures forall j :: i <= j < (if r.Some? then r.value else n) ==> j in taken
    decreases n - i
  {
    if i >= n then None
    else if i !in taken then Some(i)
    else NextFree(n, taken, i + 1)
  }

  // The indexes of the blocks an exclude covers.
  function TabuIndexes(c: Cidr, b: nat, excludes: seq<Cidr>): set<nat>
    requires c.len + b <= 32 && Prefixes(excludes)
  {
    set i: nat | i < Pow2(b) && Tabu(c, b, i, excludes)
  }

  function UsedIndexes(hosts: seq<HostInfo>): set<nat>
  {
    set h | h in hosts :: h.hostIndex
  }

  // One above the largest host index in use.
  function AfterLast(hosts: seq<HostInfo>): (n: nat)
    ensures forall h :: h in hosts ==> h.hostIndex < n
    ensures n > 0 ==> exists h :: h in hosts && h.hostIndex == n - 1
  {
    if hosts == [] then 0
    else
      var init, last := hosts[..|hosts| - 1], hosts[|hosts| - 1];
      var n := AfterLast(init);
      assert hosts == init + [last];
      assert last in hosts;
      assert forall h :: h in init ==> h in hosts;
      if last.hostIndex >= n then last.hostIndex + 1 else n
  }

  // The least free index above all those in use, else the least free one.
  function Choose(n: nat, used: set<nat>, tabu: set<nat>, after: nat): Option<nat>
  {
    var above := NextFree(n, used + tabu, after);
    if above.Some? then above else NextFree(n, used + tabu, 0)
  }

  function ChooseHostIndex(hosts: seq<HostInfo>, vlan: Cidr, b: nat, excludes: seq<Cidr>): Option<nat>
    requires vlan.len + b <= 32 && Prefixes(excludes)
  {
    Choose(Pow2(b), UsedIndexes(hosts), TabuIndexes(vlan, b, excludes), AfterLast(hosts))
  }

  // It fails exactly when every index is used or tabu, and otherwise gives one
  // that is neither.
  lemma ChooseHostIndexExact(hosts: seq<HostInfo>, vlan: Cidr, b: nat, excludes: seq<Cidr>)
    requires vlan.len + b <= 32 && Prefixes(excludes)
    ensures var r := ChooseHostIndex(hosts, vlan, b, excludes);
      && (r.Some? ==> r.value < Pow2(b) && r.value !in UsedIndexes(hosts) && !Tabu(vlan, b, r.value, excludes))
      && (r.None? <==> forall j: nat :: j < Pow2(b) ==> j in UsedIndexes(hosts) || Tabu(vlan, b, j, excludes))
  {
    var r := ChooseHostIndex(hosts, vlan, b, excludes);
    if r.None? {
      forall j: nat | j < Pow2(b) ensures j in UsedIndexes(hosts) || Tabu(vlan, b, j, excludes) {
        assert j in UsedIndexes(hosts) + TabuIndexes(vlan, b, excludes);
      }
    } else {
      assert r.value !in UsedIndexes(hosts) + TabuIndexes(vlan, b, excludes);
    }
  }

  // An index that exists, that no host has and that no exclude covers.
  ghost predicate FreeFor(hosts: seq<HostInfo>, vlan: Cidr, b: nat, excludes: seq<Cidr>, j: nat)
    requires vlan.len + b <= 32 && Prefixes(excludes)
  {
    j < Pow2(b) && !Tabu(vlan, b, j, excludes) && forall k :: 0 <= k < |hosts| ==> hosts[k].hostIndex != j
  }

  ghost predicate AboveAll(hosts: seq<HostInfo>, j: nat)
  {
    forall k :: 0 <= k < |hosts| ==> hosts[k].hostIndex < j
  }

  lemma FreeForExactly(hosts: seq<HostInfo>, vlan: Cidr, b: nat, excludes: seq<Cidr>, j: nat)
    requires vlan.len + b <= 32 && Prefixes(excludes)
    ensures FreeFor(hosts, vlan, b, excludes, j) <==> j < Pow2(b) && j !in UsedIndexes(hosts) + TabuIndexes(vlan, b, excludes)
    ensures AboveAll(hosts, j) <==> j >= AfterLast(hosts)
  {
    assert forall k :: 0 <= k < |hosts| ==> hosts[k] in hosts;
  }

  // If a free index lies above all those in use, the least such one is chosen;
  // otherwise the least free one; and none only if none is free.
  lemma ChosenIndex(hosts: seq<HostInfo>, vlan: Cidr, b: nat, excludes: seq<Cidr>)
    requires vlan.len + b <= 32 && Prefixes(excludes)
    ensures var r := ChooseHostIndex(hosts, vlan, b, excludes);
      && (r.None? ==> forall j :: !FreeFor(hosts, vlan, b, excludes, j))
      && (r.Some? ==>
            && FreeFor(hosts, vlan, b, excludes, r.value)
            && (forall j :: FreeFor(hosts, vlan, b, excludes, j) && AboveAll(hosts, j) ==> AboveAll(hosts, r.value) && r.value <= j)
            && (!AboveAll(hosts, r.value) ==> forall j :: FreeFor(hosts, vlan, b, excludes, j) ==> r.value <= j))
  {
    forall j: nat
      ensures FreeFor(hosts, vlan, b, excludes, j) <==> j < Pow2(b) && j !in UsedIndexes(hosts) + TabuIndexes(vlan, b, excludes)
      ensures AboveAll(hosts, j) <==> j >= AfterLast(hosts)
    {
      FreeForExactly(hosts, vlan, b, excludes, j);
    }
  }

  // ---------- addNewHost ----------

  datatype Assigned = Assigned(cidr: Cidr, index: nat)

  function Indexes(hosts: seq<HostInfo>): (s: seq<int>)
    ensures |s| == |hosts| && forall i :: 0 <= i < |s| ==> s[i] == hosts[i].hostIndex
  {
    seq(|hosts|, i requires 0 <= i < |hosts| => hosts[i].hostIndex)
  }

  // excluded holds the indexes in use and the failed candidates; top is one above
  // its largest element. Everything from first up to top has been tried in vain.
  ghost predicate Tried(n: nat, used: set<nat>, tabu: set<nat>, first: nat, excluded: seq<int>, top: nat)
  {
    && NoDuplicates(excluded)
    && (forall x :: x in excluded ==> 0 <= x < top)
    && (top > 0 ==> top - 1 in excluded)
    && (forall x: nat :: x in used ==> x in excluded && x < first)
    && (forall x: nat :: x in excluded ==> x in used || x >= n || x in tabu)
    && first <= top
    && (forall x: nat :: first <= x < top ==> x >= n || x in tabu)
  }

  // The candidate of one turn of the loop, or -1.
  function Candidate(sorted: seq<int>, maxIndex: int): int
  {
    if |sorted| == 0 then 0
    else if sorted[|sorted| - 1] + 1 <= maxIndex then sorted[|sorted| - 1] + 1
    else FindAvailableIndex(sorted, 0, 0)
  }

  lemma LastIsTop(n: nat, used: set<nat>, tabu: set<nat>, first: nat, excluded: seq<int>, top: nat)
    requires Tried(n, used, tabu, first, excluded, top)
    ensures var s := SortInts(excluded);
      && StrictlyIncreasing(s) && (s == [] <==> top == 0)
      && (s != [] ==> 0 <= s[0] && s[|s| - 1] == top - 1)
  {
    var s := SortInts(excluded);
    SortStrict(excluded);
    if s != [] {
      assert s[0] in excluded && s[|s| - 1] in excluded;
      assert top - 1 in s;
    }
  }

  // Above the last excluded index: the next one is fresh, and if free the choice.
  lemma CandidateAbove(n: nat, used: set<nat>, tabu: set<nat>, first: nat, excluded: seq<int>, top: nat)
    requires Tried(n, used, tabu, first, excluded, top) && top < n
    ensures top !in excluded && (top !in tabu ==> Choose(n, used, tabu, first) == Some(top))
  {
    assert forall j :: first <= j < top ==> j in used + tabu;
    assert top !in tabu ==> top !in used + tabu;
  }

  // All indexes from first on have failed: the choice is the least free one.
  lemma NothingAbove(n: nat, used: set<nat>, tabu: set<nat>, first: nat, excluded: seq<int>, top: nat)
    requires Tried(n, used, tabu, first, excluded, top) && top >= n
    ensures Choose(n, used, tabu, first) == NextFree(n, used + tabu, 0)
  {
    assert forall j :: first <= j < n ==> j in used + tabu;
  }

  lemma CandidateBelow(n: nat, used: set<nat>, tabu: set<nat>, excluded: seq<int>, i: nat)
    requires forall x: nat :: x in used ==> x in excluded
    requires forall x: nat :: x in excluded ==> x in used || x >= n || x in tabu
    requires LeastMissing(excluded, 0, i) && i < n && i !in tabu
    ensures NextFree(n, used + tabu, 0) == Some(i)
  {
    forall j: nat | j < i ensures j in used + tabu { assert j in excluded; }
    assert i !in used + tabu;
  }

  lemma AllTaken(n: nat, used: set<nat>, tabu: set<nat>, excluded: seq<int>, s: seq<int>)
    requires forall x: nat :: x in excluded ==> x in used || x >= n || x in tabu
    requires |s| >= n && (forall k :: 0 <= k < |s| ==> s[k] == k && s[k] in excluded)
    ensures NextFree(n, used + tabu, 0) == None
  {
    forall j: nat | j < n ensures j in used + tabu { assert s[j] == j; }
  }

  // A candidate is a fresh index; if it is free it is the index to choose.
  lemma CandidateIsRight(n: nat, used: set<nat>, tabu: set<nat>, first: nat, excluded: seq<int>, top: nat)
    requires Tried(n, used, tabu, first, excluded, top) && n > 0
    ensures var i := Candidate(SortInts(excluded), n - 1);
      && (i == -1 ==> Choose(n, used, tabu, first) == None)
      && (i != -1 ==> i >= 0 && i !in excluded && (i < top || i == top < n))
      && (i != -1 && i < n && i !in tabu ==> Choose(n, used, tabu, first) == Some(i))
  {
    var s := SortInts(excluded);
    LastIsTop(n, used, tabu, first, excluded, top);
    if top < n {
      CandidateAbove(n, used, tabu, first, excluded, top);
    } else {
      NothingAbove(n, used, tabu, first, excluded, top);
      FindsLeastMissing(s, 0, 0);
      var i := FindAvailableIndex(s, 0, 0);
      assert forall k :: 0 <= k < |s| ==> s[k] in excluded;
      if i == -1 {
        AllTaken(n, used, tabu, excluded, s);
      } else if i < n && i !in tabu {
        CandidateBelow(n, used, tabu, excluded, i);
      }
    }
  }

  lemma TriedExtends(n: nat, used: set<nat>, tabu: set<nat>, first: nat, excluded: seq<int>, top: nat, i: nat)
    requires Tried(n, used, tabu, first, excluded, top)
    requires i !in excluded && i <= top && (i >= n || i in tabu)
    ensures Tried(n, used, tabu, first, SortInts(excluded) + [i], if i == top then top + 1 else top)
  {
    PermutationNoDuplicates(excluded, SortInts(excluded));
  }

  // ComputeNet, CheckIfTabuIndex and GetCIDRFromByte for one candidate.
  method TryIndex(c: Cidr, i: nat, b: nat, excludes: seq<Cidr>) returns (r: Option<Cidr>)
    requires Canonical(c) && c.len + b <= 32 && Prefixes(excludes)
    ensures r == if i < Pow2(b) && i !in TabuIndexes(c, b, excludes) then Some(Block(c, b, i)) else None
  {
    r := ComputeBlock(c, i, b);
    if r.Some? {
      var isTabu := CheckIfTabuIndex(c, i, b, excludes);
      if isTabu { r := None; }
    }
  }

  ghost function Untried(excluded: seq<int>, bound: nat): set<int>
  {
    set x: int | 0 <= x < bound && x !in excluded
  }

  lemma UntriedShrinks(excluded: seq<int>, i: int, bound: nat)
    requires 0 <= i < bound && i !in excluded
    ensures Untried(SortInts(excluded) + [i], bound) < Untried(excluded, bound)
  {
    assert i in Untried(excluded, bound);
  }

  // One turn of the loop: the candidate ends the search, or is added to the
  // excluded indexes for good.
  lemma Turn(n: nat, used: set<nat>, tabu: set<nat>, first: nat, excluded: seq<int>, top: nat, bound: nat)
    requires Tried(n, used, tabu, first, excluded, top) && n > 0 && top <= bound && n <= bound
    ensures var i := Candidate(SortInts(excluded), n - 1);
      && -1 <= i
      && (excluded != [] ==> 0 <= SortInts(excluded)[|excluded| - 1])
      && (i == -1 ==> Choose(n, used, tabu, first) == None)
      && (i != -1 && i < n && i !in tabu ==> Choose(n, used, tabu, first) == Some(i))
      && (i != -1 && (i >= n || i in tabu) ==>
            && i <= top && (i == top ==> i < bound)
            && Tried(n, used, tabu, first, SortInts(excluded) + [i], if i == top then top + 1 else top)
            && Untried(SortInts(excluded) + [i], bound) < Untried(excluded, bound))
  {
    var i := Candidate(SortInts(excluded), n - 1);
    CandidateIsRight(n, used, tabu, first, excluded, top);
    LastIsTop(n, used, tabu, first, excluded, top);
    if i != -1 && (i >= n || i in tabu) {
      TriedExtends(n, used, tabu, first, excluded, top, i);
      UntriedShrinks(excluded, i, bound);
    }
  }

  method AddNewHost(hosts: seq<HostInfo>, maxHostIndex: nat, vlan: Cidr, nodeBlock: nat, excludes: seq<Cidr>)
    returns (r: Option<Assigned>)
    requires Canonical(vlan) && vlan.len + nodeBlock <= 32 && Prefixes(excludes)
    requires maxHostIndex == Pow2(nodeBlock) - 1
    requires NoDuplicates(Indexes(hosts))
    ensures maxHostIndex == 0 ==> r == Some(Assigned(vlan, 0))
    ensures maxHostIndex > 0 ==>
              var i := ChooseHostIndex(hosts, vlan, nodeBlock, excludes);
              r == if i.Some? then Some(Assigned(Block(vlan, nodeBlock, i.value), i.value)) else None
  {
    if maxHostIndex == 0 { return Some(Assigned(vlan, 0)); }
    var excluded := Indexes(hosts);
    ghost var n, used, tabu := Pow2(nodeBlock), UsedIndexes(hosts), TabuIndexes(vlan, nodeBlock, excludes);
    ghost var first, top := AfterLast(hosts), AfterLast(hosts);
    ghost var bound := if top > n then top else n;
    NothingTriedYet(hosts, n, tabu);
    while true
      invariant Tried(n, used, tabu, first, excluded, top)
      invariant top <= bound
      decreases Untried(excluded, bound)
    {
      Turn(n, used, tabu, first, excluded, top, bound);
      var nodeIndex := 0;
      var sorted := SortInts(excluded);
      if |sorted| > 0 {
        nodeIndex := sorted[|sorted| - 1] + 1;
        if nodeIndex > maxHostIndex {
          nodeIndex := FindAvailableIndex(sorted, 0, 0);
          if nodeIndex == -1 { return None; }
        }
      }
      assert nodeIndex == Candidate(sorted, maxHostIndex);
      var net := TryIndex(vlan, nodeIndex, nodeBlock, excludes);
      if net.Some? { return Some(Assigned(net.value, nodeIndex)); }
      excluded := sorted + [nodeIndex];
      top := if nodeIndex == top then top + 1 else top;
    }
  }

  lemma IndexesAreUsed(hosts: seq<HostInfo>, x: nat)
    ensures x in Indexes(hosts) <==> x in UsedIndexes(hosts)
  {
    if x in UsedIndexes(hosts) {
      var h :| h in hosts && h.hostIndex == x;
      var k :| 0 <= k < |hosts| && hosts[k] == h;
      assert Indexes(hosts)[k] == x;
    }
    if x in Indexes(hosts) {
      var k :| 0 <= k < |hosts| && Indexes(hosts)[k] == x;
      assert hosts[k] in hosts;
    }
  }

  lemma NothingTriedYet(hosts: seq<HostInfo>, n: nat, tabu: set<nat>)
    requires NoDuplicates(Indexes(hosts))
    ensures Tried(n, UsedIndexes(hosts), tabu, AfterLast(hosts), Indexes(hosts), AfterLast(hosts))
  {
    forall x: nat ensures x in Indexes(hosts) <==> x in UsedIndexes(hosts) { IndexesAreUsed(hosts, x); }
    forall x | x in Indexes(hosts) ensures 0 <= x < AfterLast(hosts) {
      var k :| 0 <= k < |hosts| && Indexes(hosts)[k] == x;
      assert hosts[k] in hosts;
    }
  }

  // With an index in use twice the search need not end: under one host bit, with
  // indexes 0, 1 and 1 in use, turn k has added k times the index 2, which has no
  // block, and its candidate is 2 again.
  lemma RepeatedIndexNeverEnds(c: Cidr, k: nat)
    requires c.len + 1 <= 32
    ensures var excluded := [0, 1, 1] + seq(k, _ => 2);
      && SortInts(excluded) == excluded && Candidate(excluded, 1) == 2
      && excluded + [2] == [0, 1, 1] + seq(k + 1, _ => 2)
    ensures BlockAt(c, 1, 2) == None
  {
    var excluded := [0, 1, 1] + seq(k, _ => 2);
    SortedStays(excluded);
    SearchResult(excluded, 0, 0);
  }

  // ---------- getInterfaceEntry ----------

  function InterfaceIndexes(m: map<string, Entry>): set<nat>
  {
    set k | k in m :: m[k].interfaceIndex
  }

  // The entry of a network address: the existing one, or an empty one on the
  // least interface index that is neither used nor tabu.
  function InterfaceEntry(cfg: PluginConfig, m: map<string, Entry>, net: string): Option<Entry>
    requires cfg.subnet.len + cfg.interfaceBlock <= 32 && Prefixes(cfg.excludes)
  {
    if net in m then Some(m[net])
    else
      var n, tabu := Pow2(cfg.interfaceBlock), TabuIndexes(cfg.subnet, cfg.interfaceBlock, cfg.excludes);
      var i := NextFree(n, InterfaceIndexes(m) + tabu, 0);
      if i.None? then None
      else Some(Entry(net, i.value, Block(cfg.subnet, cfg.interfaceBlock, i.value), []))
  }

  ghost predicate InterfaceTaken(cfg: PluginConfig, m: map<string, Entry>, j: nat)
    requires cfg.subnet.len + cfg.interfaceBlock <= 32 && Prefixes(cfg.excludes)
  {
    Tabu(cfg.subnet, cfg.interfaceBlock, j, cfg.excludes) || exists k :: k in m && m[k].interfaceIndex == j
  }

  // A network without an entry gets an empty one on the least interface index that
  // no entry has and no exclude covers, and none only if there is no such index.
  lemma InterfaceEntryExactly(cfg: PluginConfig, m: map<string, Entry>, net: string)
    requires cfg.subnet.len + cfg.interfaceBlock <= 32 && Prefixes(cfg.excludes)
    ensures var r := InterfaceEntry(cfg, m, net);
      && (net in m ==> r == Some(m[net]))
      && (r.None? <==> net !in m && forall j: nat :: j < Pow2(cfg.interfaceBlock) ==> InterfaceTaken(cfg, m, j))
      && (net !in m && r.Some? ==>
            var i := r.value.interfaceIndex;
            && r.value == Entry(net, i, Block(cfg.subnet, cfg.interfaceBlock, i), [])
            && i < Pow2(cfg.interfaceBlock) && !InterfaceTaken(cfg, m, i)
            && forall j: nat :: j < i ==> InterfaceTaken(cfg, m, j))
  {
    var taken := InterfaceIndexes(m) + TabuIndexes(cfg.subnet, cfg.interfaceBlock, cfg.excludes);
    forall j: nat | j < Pow2(cfg.interfaceBlock) ensures j in taken <==> InterfaceTaken(cfg, m, j) {
      assert j in InterfaceIndexes(m) <==> exists k :: k in m && m[k].interfaceIndex == j;
    }
  }

  ghost predicate Skipped(used: set<nat>, tabu: set<nat>, excluded: seq<int>)
  {
    && NoDuplicates(excluded)
    && (forall x :: x in excluded ==> 0 <= x && (x in used || x in tabu))
    && (forall x: nat :: x in used ==> x in excluded)
  }

  function LeastOutside(sorted: seq<int>): int
  {
    var i := FindAvailableIndex(sorted, 0, 0);
    if i >= 0 then i else if |sorted| > 0 then sorted[|sorted| - 1] + 1 else 0
  }

  lemma LeastOutsideIsLeast(s: seq<int>)
    requires StrictlyIncreasing(s) && (s != [] ==> 0 <= s[0])
    ensures LeastMissing(s, 0, LeastOutside(s))
  {
    FindsLeastMissing(s, 0, 0);
    if FindAvailableIndex(s, 0, 0) == -1 {
      forall j | 0 <= j < |s| ensures j in s {
        assert s[j] == j;
      }
    }
  }

  lemma LeastMissingIsNextFree(n: nat, used: set<nat>, tabu: set<nat>, excluded: seq<int>, i: nat)
    requires Skipped(used, tabu, excluded) && LeastMissing(excluded, 0, i)
    ensures i >= n ==> NextFree(n, used + tabu, 0) == None
    ensures i < n && i !in tabu ==> NextFree(n, used + tabu, 0) == Some(i)
  {
    forall j: nat | j < i ensures j in used + tabu {
      assert j in excluded;
    }
    assert i in tabu || i !in used + tabu;
  }

  lemma LeastOutsideIsNextFree(n: nat, used: set<nat>, tabu: set<nat>, excluded: seq<int>)
    requires Skipped(used, tabu, excluded)
    ensures var i := LeastOutside(SortInts(excluded));
      && 0 <= i
      && (i >= n ==> NextFree(n, used + tabu, 0) == None)
      && (i < n && i !in tabu ==> NextFree(n, used + tabu, 0) == Some(i))
      && (i < n && i in tabu ==>
            && Skipped(used, tabu, SortInts(excluded) + [i])
            && Untried(SortInts(excluded) + [i], n) < Untried(excluded, n))
  {
    var s := SortInts(excluded);
    var i := LeastOutside(s);
    SortStrict(excluded);
    assert s != [] ==> s[0] in excluded;
    LeastOutsideIsLeast(s);
    LeastMissingIsNextFree(n, used, tabu, excluded, i);
    if i < n && i in tabu {
      PermutationNoDuplicates(excluded, s);
      UntriedShrinks(excluded, i, n);
    }
  }

  ghost predicate IndexesDistinct(m: map<string, Entry>)
  {
    forall k, l :: k in m && l in m && k != l ==> m[k].interfaceIndex != m[l].interfaceIndex
  }

  // The first loop of getInterfaceEntry: the map's indexes, in any order.
  method CollectIndexes(m: map<string, Entry>) returns (excluded: seq<int>)
    requires IndexesDistinct(m)
    ensures Skipped(InterfaceIndexes(m), {}, excluded)
  {
    excluded := [];
    var keys := m.Keys;
    while keys != {}
      invariant keys <= m.Keys
      invariant NoDuplicates(excluded)
      invariant forall x :: x in excluded ==> exists k :: k in m && k !in keys && m[k].interfaceIndex == x
      invariant forall k :: k in m && k !in keys ==> m[k].interfaceIndex in excluded
    {
      var k :| k in keys;
      assert m[k].interfaceIndex !in excluded;
      excluded := excluded + [m[k].interfaceIndex];
      keys := keys - {k};
    }
  }

  method GetInterfaceEntry(cfg: PluginConfig, m: map<string, Entry>, net: string) returns (r: Option<Entry>)
    requires ConfigOk(cfg) && IndexesDistinct(m)
    ensures r == InterfaceEntry(cfg, m, net)
  {
    if net in m { return Some(m[net]); }
    var excluded := CollectIndexes(m);
    var maxInterfaceIndex := Pow2(cfg.interfaceBlock) - 1;
    ghost var used, tabu := InterfaceIndexes(m), TabuIndexes(cfg.subnet, cfg.interfaceBlock, cfg.excludes);
    while true
      invariant Skipped(used, tabu, excluded)
      decreases Untried(excluded, Pow2(cfg.interfaceBlock))
    {
      LeastOutsideIsNextFree(Pow2(cfg.interfaceBlock), used, tabu, excluded);
      var sorted := SortInts(excluded);
      var masterIndex := FindAvailableIndex(sorted, 0, 0);
      if masterIndex < 0 {
        masterIndex := if |sorted| > 0 then sorted[|sorted| - 1] + 1 else 0;
      }
      if masterIndex > maxInterfaceIndex { return None; }
      var vlan := TryIndex(cfg.subnet, masterIndex, cfg.interfaceBlock, cfg.excludes);
      if vlan.Some? { return Some(Entry(net, masterIndex, vlan.value, [])); }
      excluded := sorted + [masterIndex];
    }
  }
}
