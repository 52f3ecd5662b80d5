// What the second pass of UpdateEntries settles: after it, visiting the same
// interfaces again, in any order of the hosts, leaves every entry as it is.
module Settling {
  import opened Powers
  import opened Compute
  import opened Sorting
  import opened Plan
  import opened Indexing
  import opened Reconcile
  import opened ReconcileSafe
  import opened Runs

  // The record shows the visited interface.
  ghost predicate Current(h: HostInfo, v: Visit)
  {
    h.interfaceName == v.iface.interfaceName && h.hostIP == v.iface.hostIP && h.ipPool.Some?
  }

  // A visit that neither opens an entry nor adds a host.
  ghost predicate Quiet(cfg: PluginConfig, m: map<string, Entry>, v: Visit)
    requires Fits(cfg) && VlanLengths(cfg, m)
  {
    var net := v.iface.netAddress;
    || !Watched(cfg, v)
    || InterfaceEntry(cfg, m, net).None?
    || (net in m && (HostPos(m[net].hosts, v.hostName) >= 0 || TryAdd(cfg, m[net], v).None?))
  }

  // ---------- Every visit becomes quiet and stays so ----------

  lemma AddedIsThere(cfg: PluginConfig, e: Entry, v: Visit)
    requires e.vlanCidr.len + cfg.hostBlock <= 32 && Fits(cfg) && TryAdd(cfg, e, v).Some?
    ensures HostPos(TryAdd(cfg, e, v).value.hosts, v.hostName) >= 0
  {
    var i := ChooseHostIndex(e.hosts, e.vlanCidr, cfg.hostBlock, cfg.excludes);
    var pod := Blocks.Block(e.vlanCidr, cfg.hostBlock, i.value);
    var h := HostInfo(i.value, v.hostName, v.iface.interfaceName, v.iface.hostIP, pod, Some(PoolName(cfg.name, pod)));
    SameElements(ByIndex(e.hosts + [h]), e.hosts + [h]);
    assert h in e.hosts + [h];
  }

  lemma VisitQuiets(cfg: PluginConfig, w: Work, v: Visit)
    requires ConfigOk(cfg) && w.Work? && MapOk(cfg, w.entries)
    ensures var r := VisitOne(cfg, w, v); r.Work? && Quiet(cfg, r.entries, v)
  {
    VisitOk(cfg, w, v);
    var net := v.iface.netAddress;
    var found := InterfaceEntry(cfg, w.entries, net);
    if Watched(cfg, v) && found.Some? {
      InterfaceEntryOk(cfg, w.entries, net);
      var e := found.value;
      var p := HostPos(e.hosts, v.hostName);
      if p >= 0 {
        RefreshOk(cfg, e, p, v);
        var hosts' := e.hosts[p := Refreshed(cfg, e.hosts[p], e.hosts[p].podCidr, v)];
        assert hosts'[p].hostName == v.hostName;
      } else if TryAdd(cfg, e, v).Some? {
        AddedIsThere(cfg, e, v);
      }
    }
  }

  // An entry that carries all records of a full one is full.
  lemma FullStaysFull(cfg: PluginConfig, e: Entry, e': Entry, v: Visit)
    requires Fits(cfg) && e.vlanCidr.len == cfg.subnet.len + cfg.interfaceBlock && e'.vlanCidr == e.vlanCidr
    requires Carried(e.hosts, e'.hosts) && TryAdd(cfg, e, v).None?
    ensures TryAdd(cfg, e', v).None?
  {
    ChooseHostIndexExact(e.hosts, e.vlanCidr, cfg.hostBlock, cfg.excludes);
    ChooseHostIndexExact(e'.hosts, e.vlanCidr, cfg.hostBlock, cfg.excludes);
    forall j: nat | j in UsedIndexes(e.hosts) ensures j in UsedIndexes(e'.hosts) {
      var h :| h in e.hosts && h.hostIndex == j;
      var h' :| h' in e'.hosts && SameBlock(h, h');
    }
  }

  // Interface indexes that are all in use stay so.
  lemma NoInterfaceLeft(cfg: PluginConfig, m: map<string, Entry>, m': map<string, Entry>, net: string)
    requires Fits(cfg) && InterfaceEntry(cfg, m, net).None? && net !in m'
    requires forall k :: k in m ==> k in m' && m'[k].interfaceIndex == m[k].interfaceIndex
    ensures InterfaceEntry(cfg, m', net).None?
  {
    var tabu := TabuIndexes(cfg.subnet, cfg.interfaceBlock, cfg.excludes);
    forall j: nat | j < Pow2(cfg.interfaceBlock) ensures j in InterfaceIndexes(m') + tabu {
      assert j in InterfaceIndexes(m) + tabu;
    }
  }

  // A visit stores one entry, or none if there is no interface index for it.
  lemma VisitTouchesOneNet(cfg: PluginConfig, w: Work, v: Visit)
    requires ConfigOk(cfg) && w.Work? && MapOk(cfg, w.entries)
    ensures var r := VisitOne(cfg, w, v);
      && r.Work?
      && (forall k :: k in r.entries && k != v.iface.netAddress ==> k in w.entries && r.entries[k] == w.entries[k])
      && (!Watched(cfg, v) || InterfaceEntry(cfg, w.entries, v.iface.netAddress).None? ==> r == w)
  {
    VisitOk(cfg, w, v);
    var found := InterfaceEntry(cfg, w.entries, v.iface.netAddress);
    if Watched(cfg, v) && found.Some? {
      InterfaceEntryOk(cfg, w.entries, v.iface.netAddress);
    }
  }

  lemma PositionOf(hosts: seq<HostInfo>, name: string)
    ensures HostPos(hosts, name) >= 0 <==> exists h :: h in hosts && h.hostName == name
  {
    var p := HostPos(hosts, name);
    if p >= 0 { assert hosts[p] in hosts; }
  }

  lemma QuietEntryStays(cfg: PluginConfig, e: Entry, e': Entry, v: Visit)
    requires Fits(cfg) && e.vlanCidr.len == cfg.subnet.len + cfg.interfaceBlock && e'.vlanCidr == e.vlanCidr
    requires Carried(e.hosts, e'.hosts) && (HostPos(e.hosts, v.hostName) >= 0 || TryAdd(cfg, e, v).None?)
    ensures HostPos(e'.hosts, v.hostName) >= 0 || TryAdd(cfg, e', v).None?
  {
    PositionOf(e.hosts, v.hostName);
    PositionOf(e'.hosts, v.hostName);
    if HostPos(e.hosts, v.hostName) >= 0 {
      var h :| h in e.hosts && h.hostName == v.hostName;
      var h' :| h' in e'.hosts && SameBlock(h, h');
    } else {
      FullStaysFull(cfg, e, e', v);
    }
  }

  lemma VisitPreservesQuiet(cfg: PluginConfig, w: Work, u: Visit, v: Visit)
    requires ConfigOk(cfg) && w.Work? && MapOk(cfg, w.entries) && Quiet(cfg, w.entries, u)
    ensures var r := VisitOne(cfg, w, v); r.Work? && Quiet(cfg, r.entries, u)
  {
    var r, net := VisitOne(cfg, w, v), u.iface.netAddress;
    VisitStays(cfg, w, v);
    VisitTouchesOneNet(cfg, w, v);
    if Watched(cfg, u) {
      if net in w.entries {
        QuietEntryStays(cfg, w.entries[net], r.entries[net], u);
      } else {
        NoInterfaceLeft(cfg, w.entries, r.entries, net);
      }
    }
  }

  lemma {:induction false} PassQuiets(cfg: PluginConfig, w: Work, visits: seq<Visit>, i: nat)
    requires ConfigOk(cfg) && w.Work? && MapOk(cfg, w.entries) && i < |visits|
    ensures var r := VisitAll(cfg, w, visits); r.Work? && Quiet(cfg, r.entries, visits[i])
  {
    var n := |visits| - 1;
    var mid := VisitAll(cfg, w, visits[..n]);
    SecondPassOk(cfg, w, visits[..n]);
    if i == n {
      VisitQuiets(cfg, mid, visits[n]);
    } else {
      PassQuiets(cfg, w, visits[..n], i);
      VisitPreservesQuiet(cfg, mid, visits[i], visits[n]);
    }
  }

  // ---------- Records show the last interface visited ----------

  // The last visit of a host on a network.
  function LastVisit(visits: seq<Visit>, net: string, name: string): (r: Option<Visit>)
    ensures r.Some? ==> r.value in visits && r.value.hostName == name && r.value.iface.netAddress == net
    ensures r.None? ==> forall v :: v in visits ==> v.hostName != name || v.iface.netAddress != net
  {
    if visits == [] then None
    else
      var v := visits[|visits| - 1];
      if v.hostName == name && v.iface.netAddress == net then Some(v) else LastVisit(visits[..|visits| - 1], net, name)
  }

  ghost predicate ShowsLast(cfg: PluginConfig, visits: seq<Visit>, net: string, h: HostInfo)
  {
    var last := LastVisit(visits, net, h.hostName);
    last.Some? && Watched(cfg, last.value) ==> Current(h, last.value)
  }

  // After a visit a record shows it, or is of another host or network and was
  // there before.
  ghost predicate FromVisit(cfg: PluginConfig, m: map<string, Entry>, v: Visit, k: string, h: HostInfo)
  {
    if k == v.iface.netAddress && h.hostName == v.hostName && Watched(cfg, v) then Current(h, v)
    else k in m && h in m[k].hosts
  }

  lemma RefreshedFromVisit(cfg: PluginConfig, m: map<string, Entry>, e: Entry, v: Visit, p: nat, h: HostInfo)
    requires v.iface.netAddress in m && m[v.iface.netAddress] == e && HostsDistinct(e.hosts) && Watched(cfg, v)
    requires p < |e.hosts| && e.hosts[p].hostName == v.hostName
    requires h in e.hosts[p := Refreshed(cfg, e.hosts[p], e.hosts[p].podCidr, v)]
    ensures FromVisit(cfg, m, v, v.iface.netAddress, h)
  {
    var hosts' := e.hosts[p := Refreshed(cfg, e.hosts[p], e.hosts[p].podCidr, v)];
    var i :| 0 <= i < |hosts'| && hosts'[i] == h;
    if i != p { assert h == e.hosts[i]; }
  }

  lemma AddedFromVisit(cfg: PluginConfig, m: map<string, Entry>, e: Entry, v: Visit, h: HostInfo)
    requires Fits(cfg) && e.vlanCidr.len + cfg.hostBlock <= 32 && Watched(cfg, v) && HostPos(e.hosts, v.hostName) == -1
    requires if v.iface.netAddress in m then m[v.iface.netAddress] == e else e.hosts == []
    requires TryAdd(cfg, e, v).Some? && h in TryAdd(cfg, e, v).value.hosts
    ensures FromVisit(cfg, m, v, v.iface.netAddress, h)
  {
    var i := ChooseHostIndex(e.hosts, e.vlanCidr, cfg.hostBlock, cfg.excludes);
    var pod := Blocks.Block(e.vlanCidr, cfg.hostBlock, i.value);
    var g := HostInfo(i.value, v.hostName, v.iface.interfaceName, v.iface.hostIP, pod, Some(PoolName(cfg.name, pod)));
    SameElements(ByIndex(e.hosts + [g]), e.hosts + [g]);
    if h != g {
      assert h in e.hosts;
      PositionOf(e.hosts, v.hostName);
    }
  }

  lemma VisitRecords(cfg: PluginConfig, w: Work, v: Visit, k: string, h: HostInfo)
    requires ConfigOk(cfg) && w.Work? && MapOk(cfg, w.entries)
    requires var r := VisitOne(cfg, w, v); r.Work? && k in r.entries && h in r.entries[k].hosts
    ensures FromVisit(cfg, w.entries, v, k, h)
  {
    VisitTouchesOneNet(cfg, w, v);
    if Watched(cfg, v) && InterfaceEntry(cfg, w.entries, k).Some? && k == v.iface.netAddress {
      VisitRecordsInEntry(cfg, w, v, h);
    }
  }

  lemma VisitRecordsInEntry(cfg: PluginConfig, w: Work, v: Visit, h: HostInfo)
    requires ConfigOk(cfg) && w.Work? && MapOk(cfg, w.entries) && Watched(cfg, v)
    requires InterfaceEntry(cfg, w.entries, v.iface.netAddress).Some?
    requires var r := VisitOne(cfg, w, v); r.Work? && v.iface.netAddress in r.entries && h in r.entries[v.iface.netAddress].hosts
    ensures FromVisit(cfg, w.entries, v, v.iface.netAddress, h)
  {
    var net := v.iface.netAddress;
    InterfaceEntryOk(cfg, w.entries, net);
    var e := InterfaceEntry(cfg, w.entries, net).value;
    var p := HostPos(e.hosts, v.hostName);
    PositionOf(e.hosts, v.hostName);
    if p >= 0 {
      RefreshOk(cfg, e, p, v);
      RefreshedFromVisit(cfg, w.entries, e, v, p, h);
    } else if TryAdd(cfg, e, v).Some? {
      AddedFromVisit(cfg, w.entries, e, v, h);
    }
  }

  lemma {:induction false} PassShowsLast(cfg: PluginConfig, w: Work, visits: seq<Visit>, k: string, h: HostInfo)
    requires ConfigOk(cfg) && w.Work? && MapOk(cfg, w.entries)
    requires var r := VisitAll(cfg, w, visits); r.Work? && k in r.entries && h in r.entries[k].hosts
    ensures ShowsLast(cfg, visits, k, h)
  {
    if visits != [] {
      var n := |visits| - 1;
      SecondPassOk(cfg, w, visits[..n]);
      var mid := VisitAll(cfg, w, visits[..n]);
      VisitRecords(cfg, mid, visits[n], k, h);
      if !(visits[n].iface.netAddress == k && visits[n].hostName == h.hostName) {
        PassShowsLast(cfg, w, visits[..n], k, h);
      }
    }
  }

  // ---------- A pass of quiet visits ----------

  // A record brought up to date by the last visit of its host.
  function ByLast(cfg: PluginConfig, visits: seq<Visit>, net: string, h: HostInfo): HostInfo
  {
    var last := LastVisit(visits, net, h.hostName);
    if last.Some? && Watched(cfg, last.value) then Refreshed(cfg, h, h.podCidr, last.value) else h
  }

  function AllByLast(cfg: PluginConfig, visits: seq<Visit>, net: string, hosts: seq<HostInfo>): (r: seq<HostInfo>)
    ensures |r| == |hosts| && forall i :: 0 <= i < |r| ==> r[i] == ByLast(cfg, visits, net, hosts[i])
  {
    seq(|hosts|, i requires 0 <= i < |hosts| => ByLast(cfg, visits, net, hosts[i]))
  }

  function MapByLast(cfg: PluginConfig, visits: seq<Visit>, m: map<string, Entry>): map<string, Entry>
  {
    map k | k in m :: m[k].(hosts := AllByLast(cfg, visits, k, m[k].hosts))
  }

  lemma ByLastExtends(cfg: PluginConfig, init: seq<Visit>, v: Visit, net: string, h: HostInfo)
    ensures ByLast(cfg, init + [v], net, h) ==
            if v.hostName == h.hostName && v.iface.netAddress == net && Watched(cfg, v)
            then Refreshed(cfg, ByLast(cfg, init, net, h), h.podCidr, v) else ByLast(cfg, init, net, h)
  {
    assert (init + [v])[..|init|] == init;
  }

  // One more quiet visit, on an entry it does not change and on one it refreshes.
  lemma HostsUnvisited(cfg: PluginConfig, init: seq<Visit>, v: Visit, net: string, hosts: seq<HostInfo>)
    requires forall i :: 0 <= i < |hosts| ==> hosts[i].hostName != v.hostName || v.iface.netAddress != net || !Watched(cfg, v)
    ensures AllByLast(cfg, init + [v], net, hosts) == AllByLast(cfg, init, net, hosts)
  {
    forall i | 0 <= i < |hosts| ensures ByLast(cfg, init + [v], net, hosts[i]) == ByLast(cfg, init, net, hosts[i]) {
      ByLastExtends(cfg, init, v, net, hosts[i]);
    }
  }

  lemma HostRevisited(cfg: PluginConfig, init: seq<Visit>, v: Visit, hosts: seq<HostInfo>, p: nat)
    requires HostsDistinct(hosts) && p < |hosts| && hosts[p].hostName == v.hostName && Watched(cfg, v)
    ensures var net, before := v.iface.netAddress, AllByLast(cfg, init, v.iface.netAddress, hosts);
      && HostPos(before, v.hostName) == p && before[p].podCidr == hosts[p].podCidr
      && AllByLast(cfg, init + [v], net, hosts) == before[p := Refreshed(cfg, before[p], before[p].podCidr, v)]
  {
    var net, before := v.iface.netAddress, AllByLast(cfg, init, v.iface.netAddress, hosts);
    var after := AllByLast(cfg, init + [v], net, hosts);
    forall i | 0 <= i < |hosts| ensures after[i] == if i == p then Refreshed(cfg, before[p], before[p].podCidr, v) else before[i] {
      ByLastExtends(cfg, init, v, net, hosts[i]);
      if i != p { assert hosts[i].hostName != hosts[p].hostName by { assert i < p || p < i; } }
    }
    forall i | 0 <= i < p ensures before[i].hostName != v.hostName { assert hosts[i].hostName != hosts[p].hostName; }
  }

  lemma SameIndexesSameChoice(cfg: PluginConfig, e: Entry, e': Entry, v: Visit)
    requires Fits(cfg) && e.vlanCidr.len == cfg.subnet.len + cfg.interfaceBlock && e'.vlanCidr == e.vlanCidr
    requires |e'.hosts| == |e.hosts| && forall i :: 0 <= i < |e.hosts| ==> SameBlock(e.hosts[i], e'.hosts[i])
    ensures TryAdd(cfg, e, v).None? ==> TryAdd(cfg, e', v).None?
    ensures HostPos(e'.hosts, v.hostName) == HostPos(e.hosts, v.hostName)
  {
    forall h | h in e.hosts ensures exists h' :: h' in e'.hosts && SameBlock(h, h') {
      var i :| 0 <= i < |e.hosts| && e.hosts[i] == h;
      assert e'.hosts[i] in e'.hosts;
    }
    if TryAdd(cfg, e, v).None? { FullStaysFull(cfg, e, e', v); }
  }

  // The visited entry, before and after one more quiet visit.
  lemma QuietVisitRefreshes(cfg: PluginConfig, init: seq<Visit>, v: Visit, m: map<string, Entry>, w: Work)
    requires ConfigOk(cfg) && MapOk(cfg, m) && Quiet(cfg, m, v)
    requires w.Work? && w.entries == MapByLast(cfg, init, m) && MapOk(cfg, w.entries)
    ensures var r := VisitOne(cfg, w, v); r.Work? && r.entries == MapByLast(cfg, init + [v], m)
  {
    if Watched(cfg, v) && v.iface.netAddress in m {
      NetsUnvisited(cfg, init, v, m);
      QuietVisitOfEntry(cfg, init, v, m, w);
    } else {
      MapUnvisited(cfg, init, v, m);
      QuietVisitElsewhere(cfg, v, m, w);
    }
  }

  lemma NetsUnvisited(cfg: PluginConfig, init: seq<Visit>, v: Visit, m: map<string, Entry>)
    ensures forall k :: k in m && (k != v.iface.netAddress || !Watched(cfg, v)) ==>
              AllByLast(cfg, init + [v], k, m[k].hosts) == AllByLast(cfg, init, k, m[k].hosts)
  {
    forall k | k in m && (k != v.iface.netAddress || !Watched(cfg, v))
      ensures AllByLast(cfg, init + [v], k, m[k].hosts) == AllByLast(cfg, init, k, m[k].hosts)
    {
      HostsUnvisited(cfg, init, v, k, m[k].hosts);
    }
  }

  lemma MapUnvisited(cfg: PluginConfig, init: seq<Visit>, v: Visit, m: map<string, Entry>)
    requires !Watched(cfg, v) || v.iface.netAddress !in m
    ensures MapByLast(cfg, init + [v], m) == MapByLast(cfg, init, m)
  {
    NetsUnvisited(cfg, init, v, m);
  }

  // A quiet visit of a network without an entry stores none.
  lemma QuietVisitElsewhere(cfg: PluginConfig, v: Visit, m: map<string, Entry>, w: Work)
    requires ConfigOk(cfg) && MapOk(cfg, m) && Quiet(cfg, m, v) && (!Watched(cfg, v) || v.iface.netAddress !in m)
    requires w.Work? && MapOk(cfg, w.entries) && w.entries.Keys == m.Keys
    requires forall k :: k in m ==> w.entries[k].interfaceIndex == m[k].interfaceIndex
    ensures VisitOne(cfg, w, v) == w
  {
    VisitTouchesOneNet(cfg, w, v);
    if Watched(cfg, v) { NoInterfaceLeft(cfg, m, w.entries, v.iface.netAddress); }
  }

  // What a visit stores for a network that has an entry.
  lemma RefreshStores(cfg: PluginConfig, w: Work, v: Visit)
    requires ConfigOk(cfg) && w.Work? && MapOk(cfg, w.entries) && v.iface.netAddress in w.entries && Watched(cfg, v)
    requires HostPos(w.entries[v.iface.netAddress].hosts, v.hostName) >= 0
    ensures var e := w.entries[v.iface.netAddress];
      var p := HostPos(e.hosts, v.hostName);
      var r := VisitOne(cfg, w, v);
      r.Work? && r.entries == w.entries[v.iface.netAddress := e.(hosts := e.hosts[p := Refreshed(cfg, e.hosts[p], e.hosts[p].podCidr, v)])]
  {
    var e := w.entries[v.iface.netAddress];
    RefreshOk(cfg, e, HostPos(e.hosts, v.hostName), v);
  }

  lemma RejectStores(cfg: PluginConfig, w: Work, v: Visit)
    requires ConfigOk(cfg) && w.Work? && MapOk(cfg, w.entries) && v.iface.netAddress in w.entries && Watched(cfg, v)
    requires HostPos(w.entries[v.iface.netAddress].hosts, v.hostName) == -1 && TryAdd(cfg, w.entries[v.iface.netAddress], v).None?
    ensures VisitOne(cfg, w, v) == Work(w.entries, false)
  {
    assert w.entries[v.iface.netAddress := w.entries[v.iface.netAddress]] == w.entries;
  }

  lemma MapByLastExtends(cfg: PluginConfig, init: seq<Visit>, v: Visit, m: map<string, Entry>, net: string)
    requires net in m
    requires forall k :: k in m && k != net ==> AllByLast(cfg, init + [v], k, m[k].hosts) == AllByLast(cfg, init, k, m[k].hosts)
    ensures var hosts := AllByLast(cfg, init + [v], net, m[net].hosts);
      MapByLast(cfg, init + [v], m) == MapByLast(cfg, init, m)[net := MapByLast(cfg, init, m)[net].(hosts := hosts)]
  {
  }

  lemma QuietVisitOfEntry(cfg: PluginConfig, init: seq<Visit>, v: Visit, m: map<string, Entry>, w: Work)
    requires ConfigOk(cfg) && MapOk(cfg, m) && Quiet(cfg, m, v) && v.iface.netAddress in m && Watched(cfg, v)
    requires w.Work? && w.entries == MapByLast(cfg, init, m) && MapOk(cfg, w.entries)
    requires forall k :: k in m && k != v.iface.netAddress ==>
               AllByLast(cfg, init + [v], k, m[k].hosts) == AllByLast(cfg, init, k, m[k].hosts)
    ensures var r := VisitOne(cfg, w, v); r.Work? && r.entries == MapByLast(cfg, init + [v], m)
  {
    var net := v.iface.netAddress;
    var p := HostPos(m[net].hosts, v.hostName);
    MapByLastExtends(cfg, init, v, m, net);
    SameIndexesSameChoice(cfg, m[net], w.entries[net], v);
    if p >= 0 {
      HostRevisited(cfg, init, v, m[net].hosts, p);
      RefreshStores(cfg, w, v);
    } else {
      HostsUnvisited(cfg, init, v, net, m[net].hosts);
      RejectStores(cfg, w, v);
      assert w.entries[net := w.entries[net]] == w.entries;
    }
  }

  // Quiet visits refresh each record by the last visit of its host, and do no more.
  lemma {:induction false} QuietPassRefreshes(cfg: PluginConfig, m: map<string, Entry>, changed: bool, visits: seq<Visit>)
    requires ConfigOk(cfg) && MapOk(cfg, m) && forall i :: 0 <= i < |visits| ==> Quiet(cfg, m, visits[i])
    ensures var r := VisitAll(cfg, Work(m, changed), visits); r.Work? && r.entries == MapByLast(cfg, visits, m)
  {
    if visits == [] {
      assert forall k :: k in m ==> AllByLast(cfg, [], k, m[k].hosts) == m[k].hosts;
    } else {
      var n := |visits| - 1;
      QuietPassRefreshes(cfg, m, changed, visits[..n]);
      SecondPassOk(cfg, Work(m, changed), visits[..n]);
      QuietVisitRefreshes(cfg, visits[..n], visits[n], m, VisitAll(cfg, Work(m, changed), visits[..n]));
      assert visits[..n] + [visits[n]] == visits;
    }
  }

  // ---------- The visits of a snapshot, in any order ----------

  ghost predicate InSnapshot(snap: Snapshot, v: Visit)
  {
    exists k, a :: k in snap && 0 <= a < |snap[k].ifaces| && v == Visit(snap[k].hostName, snap[k].ifaces[a])
  }

  lemma {:induction false} VisitsAreInSnapshot(snap: Snapshot, order: seq<string>, i: nat)
    requires forall k :: 0 <= k < |order| ==> order[k] in snap
    requires i < |Visits(snap, order)|
    ensures InSnapshot(snap, Visits(snap, order)[i])
  {
    var n := |order| - 1;
    var before := Visits(snap, order[..n]);
    if i < |before| {
      VisitsAreInSnapshot(snap, order[..n], i);
    } else {
      var a := i - |before|;
      assert Visits(snap, order)[i] == IfaceVisits(snap[order[n]])[a] == Visit(snap[order[n]].hostName, snap[order[n]].ifaces[a]);
    }
  }

  lemma {:induction false} SnapshotIsVisited(snap: Snapshot, order: seq<string>, k: string, a: nat)
    requires forall j :: 0 <= j < |order| ==> order[j] in snap
    requires k in order && a < |snap[k].ifaces|
    ensures Visit(snap[k].hostName, snap[k].ifaces[a]) in Visits(snap, order)
  {
    var n := |order| - 1;
    if k == order[n] {
      assert IfaceVisits(snap[k])[a] == Visit(snap[k].hostName, snap[k].ifaces[a]);
      assert Visits(snap, order)[|Visits(snap, order[..n])| + a] == Visit(snap[k].hostName, snap[k].ifaces[a]);
    } else {
      assert k in order[..n];
      SnapshotIsVisited(snap, order[..n], k, a);
    }
  }

  lemma {:induction false} LastVisitConcat(a: seq<Visit>, b: seq<Visit>, net: string, name: string)
    ensures LastVisit(a + b, net, name) ==
            if LastVisit(b, net, name).Some? then LastVisit(b, net, name) else LastVisit(a, net, name)
  {
    if b == [] {
      assert a + b == a;
    } else {
      LastVisitConcat(a, b[..|b| - 1], net, name);
      assert (a + b)[..|a + b| - 1] == a + b[..|b| - 1];
    }
  }

  // The last interface of a host on a network, as the snapshot lists them.
  function LastOn(snap: Snapshot, net: string, name: string): Option<Visit>
  {
    if name in snap then LastVisit(IfaceVisits(snap[name]), net, name) else None
  }

  // The last visit does not depend on the order of the hosts.
  lemma {:induction false} LastVisitIsLastOn(snap: Snapshot, order: seq<string>, net: string, name: string)
    requires (forall k :: 0 <= k < |order| ==> order[k] in snap) && KeyedByHost(snap)
    ensures LastVisit(Visits(snap, order), net, name) == if name in order then LastOn(snap, net, name) else None
  {
    if order != [] {
      var n := |order| - 1;
      assert order == order[..n] + [order[n]];
      LastVisitIsLastOn(snap, order[..n], net, name);
      LastVisitConcat(Visits(snap, order[..n]), IfaceVisits(snap[order[n]]), net, name);
      if order[n] != name {
        var last := LastVisit(IfaceVisits(snap[order[n]]), net, name);
        assert last.None?;
      }
    }
  }

  // Nothing in the snapshot opens an entry or adds a host, and every record shows
  // the last interface of its host on the network.
  ghost predicate Settled(cfg: PluginConfig, m: map<string, Entry>, snap: Snapshot)
    requires Fits(cfg) && VlanLengths(cfg, m)
  {
    && (forall v :: InSnapshot(snap, v) ==> Quiet(cfg, m, v))
    && (forall k, h :: k in m && h in m[k].hosts ==>
          var last := LastOn(snap, k, h.hostName); last.Some? && Watched(cfg, last.value) ==> Current(h, last.value))
  }

  ghost predicate OrderOk(snap: Snapshot, order: seq<string>)
  {
    KeyedByHost(snap) && forall k :: k in order <==> k in snap
  }

  lemma PassSettles(cfg: PluginConfig, w: Work, snap: Snapshot, order: seq<string>)
    requires ConfigOk(cfg) && w.Work? && MapOk(cfg, w.entries) && OrderOk(snap, order)
    ensures var r := VisitAll(cfg, w, Visits(snap, order)); r.Work? && MapOk(cfg, r.entries) && Settled(cfg, r.entries, snap)
  {
    var visits := Visits(snap, order);
    var r := VisitAll(cfg, w, visits);
    SecondPassOk(cfg, w, visits);
    forall v | InSnapshot(snap, v) ensures Quiet(cfg, r.entries, v) {
      var k, a :| k in snap && 0 <= a < |snap[k].ifaces| && v == Visit(snap[k].hostName, snap[k].ifaces[a]);
      SnapshotIsVisited(snap, order, k, a);
      var i :| 0 <= i < |visits| && visits[i] == v;
      PassQuiets(cfg, w, visits, i);
    }
    forall k, h | k in r.entries && h in r.entries[k].hosts ensures ShowsLast(cfg, visits, k, h) {
      PassShowsLast(cfg, w, visits, k, h);
    }
    forall k, h | k in r.entries && h in r.entries[k].hosts ensures LastVisit(visits, k, h.hostName) == LastOn(snap, k, h.hostName) {
      LastVisitIsLastOn(snap, order, k, h.hostName);
    }
  }

  lemma SettledIsByLast(cfg: PluginConfig, m: map<string, Entry>, snap: Snapshot, order: seq<string>)
    requires ConfigOk(cfg) && MapOk(cfg, m) && OrderOk(snap, order) && Settled(cfg, m, snap)
    ensures MapByLast(cfg, Visits(snap, order), m) == m
  {
    var visits := Visits(snap, order);
    forall k | k in m ensures AllByLast(cfg, visits, k, m[k].hosts) == m[k].hosts {
      forall i | 0 <= i < |m[k].hosts| ensures ByLast(cfg, visits, k, m[k].hosts[i]) == m[k].hosts[i] {
        LastVisitIsLastOn(snap, order, k, m[k].hosts[i].hostName);
        assert m[k].hosts[i] in m[k].hosts;
      }
    }
  }

  // A pass leaves the entries as they are exactly if they are settled.
  lemma SettledExactly(cfg: PluginConfig, m: map<string, Entry>, changed: bool, snap: Snapshot, order: seq<string>)
    requires ConfigOk(cfg) && MapOk(cfg, m) && OrderOk(snap, order)
    ensures var r := VisitAll(cfg, Work(m, changed), Visits(snap, order)); r.Work? && (r.entries == m <==> Settled(cfg, m, snap))
  {
    var visits := Visits(snap, order);
    PassSettles(cfg, Work(m, changed), snap, order);
    if Settled(cfg, m, snap) {
      forall i | 0 <= i < |visits| ensures Quiet(cfg, m, visits[i]) { VisitsAreInSnapshot(snap, order, i); }
      QuietPassRefreshes(cfg, m, changed, visits);
      SettledIsByLast(cfg, m, snap, order);
    }
  }
}
