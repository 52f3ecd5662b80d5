// Every pass of UpdateEntries keeps the plan's invariant, and the branches that
// would give a host a new index are never taken.
module ReconcileSafe {
  import opened Blocks
  import opened Compute
  import opened Excludes
  import opened Sorting
  import opened Plan
  import opened Indexing
  import opened Reconcile

  // ---------- First pass ----------

  // Retaining hosts is a selection: nothing new, nothing twice.
  lemma {:induction false} RetainSelects(snap: Snapshot, gone: Lookup, e: nat, net: string, hosts: seq<HostInfo>, died: set<string>, changed: bool)
    requires HostsDistinct(hosts)
    ensures var kept := Retain(snap, gone, e, net, hosts, Retained([], died, changed)).kept;
      HostsDistinct(kept) && |kept| <= |hosts| && forall i :: 0 <= i < |kept| ==> kept[i] in hosts
  {
    if hosts != [] {
      var init := hosts[..|hosts| - 1];
      RetainSelects(snap, gone, e, net, init, died, changed);
      var kept := Retain(snap, gone, e, net, init, Retained([], died, changed)).kept;
      forall i | 0 <= i < |kept|
        ensures kept[i] in hosts && kept[i].hostName != hosts[|hosts| - 1].hostName && kept[i].hostIndex != hosts[|hosts| - 1].hostIndex
      {
        var j :| 0 <= j < |init| && init[j] == kept[i];
        assert hosts[j] == kept[i];
      }
    }
  }

  lemma SelectionOk(cfg: PluginConfig, e: Entry, hosts: seq<HostInfo>)
    requires ConfigOk(cfg) && EntryOk(cfg, e)
    requires HostsDistinct(hosts) && forall i :: 0 <= i < |hosts| ==> hosts[i] in e.hosts
    ensures EntryOk(cfg, e.(hosts := hosts))
  {
    forall i | 0 <= i < |hosts| ensures HostOk(cfg, e.vlanCidr, hosts[i]) {
      var j :| 0 <= j < |e.hosts| && e.hosts[j] == hosts[i];
    }
  }

  // Each kept entry has the interface index of a stored entry of its network.
  ghost predicate FromPlan(m: map<string, Entry>, entries: seq<Entry>)
  {
    forall k :: k in m ==>
      exists p :: 0 <= p < |entries| && entries[p].netAddress == k && entries[p].interfaceIndex == m[k].interfaceIndex
  }

  lemma {:induction false} KeepIsFromPlan(snap: Snapshot, gone: Lookup, entries: seq<Entry>, changed: bool)
    ensures FromPlan(KeepEntries(snap, gone, entries, changed).entries, entries)
  {
    if entries != [] {
      var n := |entries| - 1;
      var m, m' := KeepEntries(snap, gone, entries, changed).entries, KeepEntries(snap, gone, entries[..n], changed).entries;
      KeepIsFromPlan(snap, gone, entries[..n], changed);
      forall k | k in m
        ensures exists p :: 0 <= p < |entries| && entries[p].netAddress == k && entries[p].interfaceIndex == m[k].interfaceIndex
      {
        if k in m' && m[k] == m'[k] {
          var p :| 0 <= p < n && entries[..n][p].netAddress == k && entries[..n][p].interfaceIndex == m'[k].interfaceIndex;
          assert entries[p].netAddress == k;
        } else {
          assert entries[n].netAddress == k;
        }
      }
    }
  }

  ghost predicate EachOk(cfg: PluginConfig, m: map<string, Entry>)
    requires ConfigOk(cfg)
  {
    forall k :: k in m ==> m[k].netAddress == k && EntryOk(cfg, m[k])
  }

  lemma KeepEntryOk(cfg: PluginConfig, snap: Snapshot, gone: Lookup, n: nat, e: Entry, w: Kept)
    requires ConfigOk(cfg) && EntryOk(cfg, e)
    requires EachOk(cfg, w.entries)
    ensures EachOk(cfg, KeepEntry(snap, gone, n, e, w).entries)
  {
    RetainSelects(snap, gone, n, e.netAddress, e.hosts, w.died, w.changed);
    SelectionOk(cfg, e, Retain(snap, gone, n, e.netAddress, e.hosts, Retained([], w.died, w.changed)).kept);
  }

  lemma {:induction false} KeepOk(cfg: PluginConfig, snap: Snapshot, gone: Lookup, entries: seq<Entry>, changed: bool)
    requires ConfigOk(cfg) && forall i :: 0 <= i < |entries| ==> EntryOk(cfg, entries[i])
    ensures EachOk(cfg, KeepEntries(snap, gone, entries, changed).entries)
  {
    if entries != [] {
      var n := |entries| - 1;
      KeepOk(cfg, snap, gone, entries[..n], changed);
      KeepEntryOk(cfg, snap, gone, n, entries[n], KeepEntries(snap, gone, entries[..n], changed));
    }
  }

  lemma FirstPassOk(cfg: PluginConfig, snap: Snapshot, gone: Lookup, entries: seq<Entry>, changed: bool)
    requires ConfigOk(cfg) && PlanOk(cfg, entries)
    ensures MapOk(cfg, KeepEntries(snap, gone, entries, changed).entries)
  {
    var m := KeepEntries(snap, gone, entries, changed).entries;
    KeepOk(cfg, snap, gone, entries, changed);
    KeepIsFromPlan(snap, gone, entries, changed);
    forall k, l | k in m && l in m && k != l ensures m[k].interfaceIndex != m[l].interfaceIndex {
      var p :| 0 <= p < |entries| && entries[p].netAddress == k && entries[p].interfaceIndex == m[k].interfaceIndex;
      var q :| 0 <= q < |entries| && entries[q].netAddress == l && entries[q].interfaceIndex == m[l].interfaceIndex;
      if p < q { assert entries[p].interfaceIndex != entries[q].interfaceIndex; }
      else { assert entries[q].interfaceIndex != entries[p].interfaceIndex; }
    }
  }

  // ---------- Second pass ----------

  lemma InterfaceEntryOk(cfg: PluginConfig, m: map<string, Entry>, net: string)
    requires ConfigOk(cfg) && MapOk(cfg, m)
    ensures var e := InterfaceEntry(cfg, m, net);
      e.Some? ==>
        && EntryOk(cfg, e.value) && e.value.netAddress == net
        && forall k :: k in m && k != net ==> m[k].interfaceIndex != e.value.interfaceIndex
  {
    var e := InterfaceEntry(cfg, m, net);
    if net !in m && e.Some? {
      var i := e.value.interfaceIndex;
      assert i !in InterfaceIndexes(m) + TabuIndexes(cfg.subnet, cfg.interfaceBlock, cfg.excludes);
      assert !Tabu(cfg.subnet, cfg.interfaceBlock, i, cfg.excludes);
    }
  }

  lemma PermutedHosts(hosts: seq<HostInfo>, r: seq<HostInfo>)
    requires HostsDistinct(hosts) && multiset(r) == multiset(hosts)
    ensures HostsDistinct(r) && forall h :: h in r <==> h in hosts
  {
    PermutationNoDuplicates(hosts, r);
    SameElements(r, hosts);
    forall i, j | 0 <= i < j < |r| ensures r[i].hostName != r[j].hostName && r[i].hostIndex != r[j].hostIndex {
      assert r[i] in hosts && r[j] in hosts;
      var a :| 0 <= a < |hosts| && hosts[a] == r[i];
      var b :| 0 <= b < |hosts| && hosts[b] == r[j];
      assert a != b;
    }
  }

  lemma TryAddOk(cfg: PluginConfig, e: Entry, v: Visit)
    requires ConfigOk(cfg) && EntryOk(cfg, e) && HostPos(e.hosts, v.hostName) == -1
    ensures var r := TryAdd(cfg, e, v);
      r.Some? ==> EntryOk(cfg, r.value) && r.value == e.(hosts := r.value.hosts)
  {
    var i := ChooseHostIndex(e.hosts, e.vlanCidr, cfg.hostBlock, cfg.excludes);
    ChooseHostIndexExact(e.hosts, e.vlanCidr, cfg.hostBlock, cfg.excludes);
    if i.Some? {
      var pod := Block(e.vlanCidr, cfg.hostBlock, i.value);
      var h := HostInfo(i.value, v.hostName, v.iface.interfaceName, v.iface.hostIP, pod, Some(PoolName(cfg.name, pod)));
      AddedOk(cfg, e, h);
    }
  }

  lemma AddedOk(cfg: PluginConfig, e: Entry, h: HostInfo)
    requires ConfigOk(cfg) && EntryOk(cfg, e) && HostOk(cfg, e.vlanCidr, h)
    requires h.hostIndex !in UsedIndexes(e.hosts) && forall i :: 0 <= i < |e.hosts| ==> e.hosts[i].hostName != h.hostName
    ensures EntryOk(cfg, e.(hosts := ByIndex(e.hosts + [h])))
  {
    var hosts := e.hosts + [h];
    AppendedOk(cfg, e, h);
    PermutedHosts(hosts, ByIndex(hosts));
    SelectionOk(cfg, e.(hosts := hosts), ByIndex(hosts));
  }

  lemma AppendedOk(cfg: PluginConfig, e: Entry, h: HostInfo)
    requires ConfigOk(cfg) && EntryOk(cfg, e) && HostOk(cfg, e.vlanCidr, h)
    requires h.hostIndex !in UsedIndexes(e.hosts) && forall i :: 0 <= i < |e.hosts| ==> e.hosts[i].hostName != h.hostName
    ensures EntryOk(cfg, e.(hosts := e.hosts + [h]))
  {
    assert forall i :: 0 <= i < |e.hosts| ==> e.hosts[i] in e.hosts;
  }

  // A host on a valid index stays on it, with the same pod block.
  lemma RefreshOk(cfg: PluginConfig, e: Entry, p: nat, v: Visit)
    requires ConfigOk(cfg) && EntryOk(cfg, e) && p < |e.hosts|
    ensures BlockAt(e.vlanCidr, cfg.hostBlock, e.hosts[p].hostIndex) == Some(e.hosts[p].podCidr)
    ensures !Tabu(e.vlanCidr, cfg.hostBlock, e.hosts[p].hostIndex, SortAddress(cfg.excludes))
    ensures EntryOk(cfg, e.(hosts := e.hosts[p := Refreshed(cfg, e.hosts[p], e.hosts[p].podCidr, v)]))
  {
    TabuOrderFree(e.vlanCidr, cfg.hostBlock, e.hosts[p].hostIndex, cfg.excludes, SortAddress(cfg.excludes));
  }

  lemma ReplaceOk(cfg: PluginConfig, m: map<string, Entry>, e: Entry)
    requires ConfigOk(cfg) && MapOk(cfg, m) && EntryOk(cfg, e)
    requires forall k :: k in m && k != e.netAddress ==> m[k].interfaceIndex != e.interfaceIndex
    ensures MapOk(cfg, m[e.netAddress := e])
  {
  }

  lemma VisitOk(cfg: PluginConfig, w: Work, v: Visit)
    requires ConfigOk(cfg) && w.Work? && MapOk(cfg, w.entries)
    ensures var r := VisitOne(cfg, w, v); r.Work? && MapOk(cfg, r.entries)
  {
    var m, net := w.entries, v.iface.netAddress;
    var found := InterfaceEntry(cfg, m, net);
    if Watched(cfg, v) && found.Some? {
      InterfaceEntryOk(cfg, m, net);
      var e := found.value;
      var p := HostPos(e.hosts, v.hostName);
      if p == -1 {
        TryAddOk(cfg, e, v);
        var added := TryAdd(cfg, e, v);
        ReplaceOk(cfg, m, if added.Some? then added.value else e);
      } else {
        RefreshOk(cfg, e, p, v);
        ReplaceOk(cfg, m, e.(hosts := e.hosts[p := Refreshed(cfg, e.hosts[p], e.hosts[p].podCidr, v)]));
      }
    }
  }

  lemma {:induction false} SecondPassOk(cfg: PluginConfig, w: Work, visits: seq<Visit>)
    requires ConfigOk(cfg) && w.Work? && MapOk(cfg, w.entries)
    ensures var r := VisitAll(cfg, w, visits); r.Work? && MapOk(cfg, r.entries)
  {
    if visits != [] {
      SecondPassOk(cfg, w, visits[..|visits| - 1]);
      VisitOk(cfg, VisitAll(cfg, w, visits[..|visits| - 1]), visits[|visits| - 1]);
    }
  }

  // ---------- Third pass ----------

  lemma {:induction false} AliveSelects(hosts: seq<HostInfo>, died: set<string>)
    requires HostsDistinct(hosts)
    ensures var alive := Alive(hosts, died);
      && HostsDistinct(alive)
      && forall i :: 0 <= i < |alive| ==> alive[i] in hosts && alive[i].hostName !in died
  {
    if hosts != [] {
      var init := hosts[..|hosts| - 1];
      AliveSelects(init, died);
      var alive := Alive(init, died);
      forall i | 0 <= i < |alive|
        ensures alive[i] in hosts && alive[i].hostName != hosts[|hosts| - 1].hostName && alive[i].hostIndex != hosts[|hosts| - 1].hostIndex
      {
        var j :| 0 <= j < |init| && init[j] == alive[i];
        assert hosts[j] == alive[i];
      }
    }
  }

  lemma ThirdPassOk(cfg: PluginConfig, m: map<string, Entry>, died: set<string>)
    requires ConfigOk(cfg) && MapOk(cfg, m)
    ensures MapOk(cfg, DropDied(m, died))
  {
    forall k | k in m ensures EntryOk(cfg, Bury(m[k], died)) {
      AliveSelects(m[k].hosts, died);
      SelectionOk(cfg, m[k], Alive(m[k].hosts, died));
    }
  }

  // ---------- The whole step ----------

  lemma PlanLengths(cfg: PluginConfig, entries: seq<Entry>)
    requires ConfigOk(cfg) && PlanOk(cfg, entries)
    ensures StoredLengths(cfg, entries)
  {
  }

  // From any plan that meets the invariant, under any snapshot, any answers to
  // the look-ups and any map order, the step meets it again and never recomputes
  // an index.
  lemma UpdateOk(cfg: PluginConfig, entries: seq<Entry>, input: Input, changed: bool)
    requires ConfigOk(cfg) && PlanOk(cfg, entries) && InputOk(input)
    ensures StoredLengths(cfg, entries)
    ensures var w := Updated(cfg, entries, input, changed); w.Work? && MapOk(cfg, w.entries)
  {
    PlanLengths(cfg, entries);
    FirstPassOk(cfg, input.snap, input.gone, entries, changed);
    var k := KeepEntries(input.snap, input.gone, entries, changed);
    SecondPassOk(cfg, Work(k.entries, k.changed), Visits(input.snap, input.order));
    ThirdPassOk(cfg, VisitAll(cfg, Work(k.entries, k.changed), Visits(input.snap, input.order)).entries, k.died);
  }
}
