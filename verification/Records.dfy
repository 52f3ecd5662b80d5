// The records of an entry: in the order of their host indexes, each with the pool
// named after its own block.
module Records {
  import opened Blocks
  import opened Compute
  import opened Sorting
  import opened Plan
  import opened Indexing
  import opened NewPlan
  import opened Reconcile
  import opened ReconcileSafe
  import opened Runs
  import opened Settling
  import opened Membership
  import opened Coverage

  ghost predicate InOrder(hosts: seq<HostInfo>)
  {
    forall i, j :: 0 <= i < j < |hosts| ==> hosts[i].hostIndex < hosts[j].hostIndex
  }

  // A record of an earlier release may lack the pool's name.
  ghost predicate NameOk(cfg: PluginConfig, legacy: bool, h: HostInfo)
  {
    h.ipPool == Some(PoolName(cfg.name, h.podCidr)) || (legacy && h.ipPool.None?)
  }

  ghost predicate Tidy(cfg: PluginConfig, legacy: bool, hosts: seq<HostInfo>)
  {
    InOrder(hosts) && forall i :: 0 <= i < |hosts| ==> NameOk(cfg, legacy, hosts[i])
  }

  ghost predicate TidyMap(cfg: PluginConfig, legacy: bool, m: map<string, Entry>)
  {
    forall k :: k in m ==> Tidy(cfg, legacy, m[k].hosts)
  }

  // ---------- First and third pass: selections in order ----------

  lemma TidyExtends(cfg: PluginConfig, legacy: bool, hosts: seq<HostInfo>, kept: seq<HostInfo>, h: HostInfo)
    requires Tidy(cfg, legacy, hosts + [h]) && Tidy(cfg, legacy, kept) && forall x :: x in kept ==> x in hosts
    ensures Tidy(cfg, legacy, kept + [h])
  {
    var all := hosts + [h];
    assert all[|hosts|] == h;
    forall i | 0 <= i < |kept| ensures kept[i].hostIndex < h.hostIndex {
      assert kept[i] in hosts;
      var j :| 0 <= j < |hosts| && hosts[j] == kept[i];
      assert all[j] == kept[i];
    }
  }

  lemma TidyInit(cfg: PluginConfig, legacy: bool, hosts: seq<HostInfo>)
    requires Tidy(cfg, legacy, hosts) && hosts != []
    ensures Tidy(cfg, legacy, hosts[..|hosts| - 1]) && hosts[..|hosts| - 1] + [hosts[|hosts| - 1]] == hosts
  {
  }

  lemma {:induction false} RetainTidy(cfg: PluginConfig, legacy: bool, snap: Snapshot, gone: Lookup, e: nat, net: string, hosts: seq<HostInfo>, start: Retained)
    requires Tidy(cfg, legacy, hosts) && start.kept == []
    ensures var kept := Retain(snap, gone, e, net, hosts, start).kept; Tidy(cfg, legacy, kept) && forall x :: x in kept ==> x in hosts
  {
    if hosts != [] {
      var n := |hosts| - 1;
      TidyInit(cfg, legacy, hosts);
      RetainTidy(cfg, legacy, snap, gone, e, net, hosts[..n], start);
      TidyExtends(cfg, legacy, hosts[..n], Retain(snap, gone, e, net, hosts[..n], start).kept, hosts[n]);
    }
  }

  lemma {:induction false} KeepTidy(cfg: PluginConfig, legacy: bool, snap: Snapshot, gone: Lookup, entries: seq<Entry>, changed: bool)
    requires forall i :: 0 <= i < |entries| ==> Tidy(cfg, legacy, entries[i].hosts)
    ensures TidyMap(cfg, legacy, KeepEntries(snap, gone, entries, changed).entries)
  {
    if entries != [] {
      var n := |entries| - 1;
      KeepTidy(cfg, legacy, snap, gone, entries[..n], changed);
      var w := KeepEntries(snap, gone, entries[..n], changed);
      RetainTidy(cfg, legacy, snap, gone, n, entries[n].netAddress, entries[n].hosts, Retained([], w.died, w.changed));
    }
  }

  lemma {:induction false} AliveTidy(cfg: PluginConfig, legacy: bool, hosts: seq<HostInfo>, died: set<string>)
    requires Tidy(cfg, legacy, hosts)
    ensures Tidy(cfg, legacy, Alive(hosts, died)) && forall x :: x in Alive(hosts, died) ==> x in hosts
  {
    if hosts != [] {
      var n := |hosts| - 1;
      TidyInit(cfg, legacy, hosts);
      AliveTidy(cfg, legacy, hosts[..n], died);
      TidyExtends(cfg, legacy, hosts[..n], Alive(hosts[..n], died), hosts[n]);
    }
  }

  lemma DropTidy(cfg: PluginConfig, legacy: bool, m: map<string, Entry>, died: set<string>)
    requires TidyMap(cfg, legacy, m)
    ensures TidyMap(cfg, legacy, DropDied(m, died))
  {
    forall k | k in m ensures Tidy(cfg, legacy, Bury(m[k], died).hosts) { AliveTidy(cfg, legacy, m[k].hosts, died); }
  }

  // ---------- Second pass ----------

  lemma AddTidy(cfg: PluginConfig, legacy: bool, e: Entry, v: Visit)
    requires ConfigOk(cfg) && EntryOk(cfg, e) && HostPos(e.hosts, v.hostName) == -1 && Tidy(cfg, legacy, e.hosts)
    ensures var r := TryAdd(cfg, e, v); r.Some? ==> Tidy(cfg, legacy, r.value.hosts)
  {
    var i := ChooseHostIndex(e.hosts, e.vlanCidr, cfg.hostBlock, cfg.excludes);
    TryAddOk(cfg, e, v);
    if i.Some? {
      var pod := Block(e.vlanCidr, cfg.hostBlock, i.value);
      var x := HostInfo(i.value, v.hostName, v.iface.interfaceName, v.iface.hostIP, pod, Some(PoolName(cfg.name, pod)));
      SortedTidy(cfg, legacy, e.hosts, x, ByIndex(e.hosts + [x]));
    }
  }

  lemma SortedTidy(cfg: PluginConfig, legacy: bool, hosts: seq<HostInfo>, x: HostInfo, r: seq<HostInfo>)
    requires Tidy(cfg, legacy, hosts) && NameOk(cfg, legacy, x) && multiset(r) == multiset(hosts + [x]) && HostsDistinct(r)
    requires forall i, j :: 0 <= i < j < |r| ==> r[i].hostIndex <= r[j].hostIndex
    ensures Tidy(cfg, legacy, r)
  {
    SameElements(r, hosts + [x]);
    forall i | 0 <= i < |r| ensures NameOk(cfg, legacy, r[i]) {
      assert r[i] in hosts + [x];
    }
  }

  lemma RefreshTidy(cfg: PluginConfig, legacy: bool, e: Entry, p: nat, v: Visit)
    requires p < |e.hosts| && Tidy(cfg, legacy, e.hosts)
    ensures Tidy(cfg, legacy, e.hosts[p := Refreshed(cfg, e.hosts[p], e.hosts[p].podCidr, v)])
  {
  }

  lemma EntryTidy(cfg: PluginConfig, legacy: bool, m: map<string, Entry>, changed: bool, e: Entry, v: Visit)
    requires ConfigOk(cfg) && EntryOk(cfg, e) && Tidy(cfg, legacy, e.hosts) && TidyMap(cfg, legacy, m)
    ensures var r := VisitEntry(cfg, m, changed, e, v); r.Work? && TidyMap(cfg, legacy, r.entries)
  {
    var p := HostPos(e.hosts, v.hostName);
    if p == -1 {
      AddTidy(cfg, legacy, e, v);
    } else {
      RefreshOk(cfg, e, p, v);
      RefreshTidy(cfg, legacy, e, p, v);
    }
  }

  lemma VisitTidy(cfg: PluginConfig, legacy: bool, w: Work, v: Visit)
    requires ConfigOk(cfg) && w.Work? && MapOk(cfg, w.entries) && TidyMap(cfg, legacy, w.entries)
    ensures var r := VisitOne(cfg, w, v); r.Work? && TidyMap(cfg, legacy, r.entries)
  {
    var net := v.iface.netAddress;
    var found := InterfaceEntry(cfg, w.entries, net);
    if Watched(cfg, v) && found.Some? {
      InterfaceEntryOk(cfg, w.entries, net);
      EntryTidy(cfg, legacy, w.entries, w.changed, found.value, v);
    }
  }

  lemma {:induction false} PassTidy(cfg: PluginConfig, legacy: bool, w: Work, visits: seq<Visit>)
    requires ConfigOk(cfg) && w.Work? && MapOk(cfg, w.entries) && TidyMap(cfg, legacy, w.entries)
    ensures var r := VisitAll(cfg, w, visits); r.Work? && TidyMap(cfg, legacy, r.entries)
  {
    if visits != [] {
      var n := |visits| - 1;
      PassTidy(cfg, legacy, w, visits[..n]);
      SecondPassOk(cfg, w, visits[..n]);
      VisitTidy(cfg, legacy, VisitAll(cfg, w, visits[..n]), visits[n]);
    }
  }

  // ---------- The whole step, and runs ----------

  // An update keeps every entry tidy.
  lemma UpdateTidies(cfg: PluginConfig, legacy: bool, entries: seq<Entry>, input: Input, changed: bool)
    requires ConfigOk(cfg) && PlanOk(cfg, entries) && StoredLengths(cfg, entries) && InputOk(input) && KeyedByHost(input.snap)
    requires forall i :: 0 <= i < |entries| ==> Tidy(cfg, legacy, entries[i].hosts)
    ensures var w := Updated(cfg, entries, input, changed); w.Work? && TidyMap(cfg, legacy, w.entries)
  {
    var p := UpdatePasses(cfg, entries, input, changed);
    var k := KeepEntries(input.snap, input.gone, entries, changed);
    KeepTidy(cfg, legacy, input.snap, input.gone, entries, changed);
    PassTidy(cfg, legacy, Work(k.entries, k.changed), Visits(input.snap, input.order));
    DropTidy(cfg, legacy, p.r, p.died);
  }

  // The last interface on the network in the host's list.
  ghost predicate IsLastOn(hif: HostInterface, net: string, a: nat)
  {
    a < |hif.ifaces| && hif.ifaces[a].netAddress == net && forall b :: a < b < |hif.ifaces| ==> hif.ifaces[b].netAddress != net
  }

  lemma {:induction false} LastOfVisits(visits: seq<Visit>, net: string, name: string, a: nat)
    requires a < |visits| && visits[a].hostName == name && visits[a].iface.netAddress == net
    requires forall b :: a < b < |visits| ==> visits[b].iface.netAddress != net
    ensures LastVisit(visits, net, name) == Some(visits[a])
  {
    if a < |visits| - 1 { LastOfVisits(visits[..|visits| - 1], net, name, a); }
  }

  // A record of a host in the snapshot has the name and address of the host's last
  // interface on the network.
  lemma ShownIsCurrent(cfg: PluginConfig, entries: seq<Entry>, input: Input, changed: bool, net: string, h: HostInfo, a: nat)
    requires ConfigOk(cfg) && PlanOk(cfg, entries) && StoredLengths(cfg, entries) && InputOk(input) && KeyedByHost(input.snap)
    requires cfg.masterNets == [] || net in cfg.masterNets
    requires var w := Updated(cfg, entries, input, changed); w.Work? && net in w.entries && h in w.entries[net].hosts
    requires h.hostName in input.snap && IsLastOn(input.snap[h.hostName], net, a)
    ensures var iface := input.snap[h.hostName].ifaces[a];
      h.interfaceName == iface.interfaceName && h.hostIP == iface.hostIP && h.ipPool.Some?
  {
    var p := UpdatePasses(cfg, entries, input, changed);
    ResultKeys(p, Updated(cfg, entries, input, changed).entries);
    LastOfVisits(IfaceVisits(input.snap[h.hostName]), net, h.hostName, a);
    assert LastOn(input.snap, net, h.hostName).Some?;
  }

  lemma LastOnExists(hif: HostInterface, net: string, b: nat) returns (a: nat)
    requires b < |hif.ifaces| && hif.ifaces[b].netAddress == net
    ensures IsLastOn(hif, net, a)
    decreases |hif.ifaces| - b
  {
    a := b;
    if c :| b < c < |hif.ifaces| && hif.ifaces[c].netAddress == net { a := LastOnExists(hif, net, c); }
  }

  // And if it lacked the name of its pool, it has that now.
  lemma ShownIsNamed(cfg: PluginConfig, entries: seq<Entry>, input: Input, changed: bool, net: string, h: HostInfo)
    requires ConfigOk(cfg) && PlanOk(cfg, entries) && StoredLengths(cfg, entries) && InputOk(input) && KeyedByHost(input.snap)
    requires forall i :: 0 <= i < |entries| ==> Tidy(cfg, true, entries[i].hosts)
    requires cfg.masterNets == [] || net in cfg.masterNets
    requires var w := Updated(cfg, entries, input, changed); w.Work? && net in w.entries && h in w.entries[net].hosts
    requires ShownOn(input.snap, h.hostName, net)
    ensures h.ipPool == Some(PoolName(cfg.name, h.podCidr))
  {
    var hif := input.snap[h.hostName];
    var b :| 0 <= b < |hif.ifaces| && hif.ifaces[b].netAddress == net;
    var a := LastOnExists(hif, net, b);
    ShownIsCurrent(cfg, entries, input, changed, net, h, a);
    UpdateTidies(cfg, true, entries, input, changed);
    var hosts := Updated(cfg, entries, input, changed).entries[net].hosts;
    var i :| 0 <= i < |hosts| && hosts[i] == h;
    assert NameOk(cfg, true, hosts[i]);
  }

  // In every plan of every run the records are in order and name their own pools.
  lemma {:induction false} RunIsTidy(cfg: PluginConfig, plans: seq<seq<Entry>>, rounds: seq<Round>, t: nat)
    requires ConfigOk(cfg) && IsRun(cfg, plans, rounds) && t < |plans|
    requires forall u :: 0 <= u < |rounds| ==> KeyedByHost(rounds[u].input.snap)
    ensures forall i :: 0 <= i < |plans[t]| ==> Tidy(cfg, false, plans[t][i].hosts)
  {
    if t == 0 {
      FirstPlanOk(cfg);
    } else {
      RunIsTidy(cfg, plans, rounds, t - 1);
      RunKeepsPlanOk(cfg, plans, rounds, t - 1);
      TransitionOk(cfg, plans[t - 1], rounds[t - 1], plans[t]);
      UpdateTidies(cfg, false, plans[t - 1], rounds[t - 1].input, rounds[t - 1].isNew);
    }
  }
}
