// UpdateEntries as the loops it is, proved to compute the step of Reconcile.
module Updating {
  import opened Powers
  import opened Blocks
  import opened Compute
  import opened Excludes
  import opened Sorting
  import opened Plan
  import opened Indexing
  import opened Reconcile
  import opened ReconcileSafe

  method HasNet(hif: HostInterface, net: string) returns (found: bool)
    ensures found == OnNet(hif, net)
  {
    for i := 0 to |hif.ifaces|
      invariant forall j :: 0 <= j < i ==> hif.ifaces[j].netAddress != net
    {
      if hif.ifaces[i].netAddress == net { return true; }
    }
    return false;
  }

  method RetainHosts(snap: Snapshot, gone: Lookup, e: nat, entry: Entry, died0: set<string>, changed0: bool)
    returns (kept: seq<HostInfo>, died: set<string>, changed: bool)
    ensures Retained(kept, died, changed) ==
            Retain(snap, gone, e, entry.netAddress, entry.hosts, Retained([], died0, changed0))
  {
    kept, died, changed := [], died0, changed0;
    for i := 0 to |entry.hosts|
      invariant Retained(kept, died, changed) ==
                Retain(snap, gone, e, entry.netAddress, entry.hosts[..i], Retained([], died0, changed0))
    {
      assert entry.hosts[..i + 1][..i] == entry.hosts[..i];
      var host := entry.hosts[i];
      if host.hostName in snap {
        var found := HasNet(snap[host.hostName], entry.netAddress);
        if found { kept := kept + [host]; }
      } else if host.hostName in died {
        changed := true;
      } else if gone(e, i) {
        died := died + {host.hostName};
      } else {
        kept := kept + [host];
      }
    }
    assert entry.hosts[..|entry.hosts|] == entry.hosts;
  }

  method KeepHosts(entries: seq<Entry>, snap: Snapshot, gone: Lookup, changed0: bool)
    returns (m: map<string, Entry>, died: set<string>, changed: bool)
    ensures Kept(m, died, changed) == KeepEntries(snap, gone, entries, changed0)
  {
    m, died, changed := map[], {}, changed0;
    for i := 0 to |entries|
      invariant Kept(m, died, changed) == KeepEntries(snap, gone, entries[..i], changed0)
    {
      assert entries[..i + 1][..i] == entries[..i];
      var entry := entries[i];
      var kept;
      kept, died, changed := RetainHosts(snap, gone, i, entry, died, changed);
      if |entry.hosts| != |kept| || died != {} { changed := true; }
      if |entry.hosts| == 0 || |kept| > 0 {
        m := m[entry.netAddress := entry.(hosts := kept)];
      }
    }
    assert entries[..|entries|] == entries;
  }

  method GetHostIndex(hosts: seq<HostInfo>, hostName: string) returns (index: int)
    ensures index == HostPos(hosts, hostName)
  {
    for i := 0 to |hosts|
      invariant HostPos(hosts[..i], hostName) == -1
    {
      assert hosts[..i + 1][..i] == hosts[..i];
      if hosts[i].hostName == hostName {
        FirstPos(hosts, hostName, i);
        return i;
      }
    }
    assert hosts[..|hosts|] == hosts;
    return -1;
  }

  lemma FirstPos(hosts: seq<HostInfo>, hostName: string, i: nat)
    requires i < |hosts| && hosts[i].hostName == hostName && HostPos(hosts[..i], hostName) == -1
    ensures HostPos(hosts, hostName) == i
  {
    assert forall j :: 0 <= j < i ==> hosts[..i][j] == hosts[j];
  }

  method TryAddNewHost(cfg: PluginConfig, entry: Entry, maxHostIndex: nat, v: Visit) returns (r: Entry, added: bool)
    requires ConfigOk(cfg) && EntryOk(cfg, entry) && maxHostIndex == Pow2(cfg.hostBlock) - 1
    ensures var e := TryAdd(cfg, entry, v); added == e.Some? && r == if e.Some? then e.value else entry
  {
    EntryBlocks(cfg, entry);
    Pow2Mono(1, cfg.hostBlock);
    assert NoDuplicates(Indexes(entry.hosts));
    var slot := AddNewHost(entry.hosts, maxHostIndex, entry.vlanCidr, cfg.hostBlock, cfg.excludes);
    if slot.None? { return entry, false; }
    var pod := slot.value.cidr;
    var host := HostInfo(slot.value.index, v.hostName, v.iface.interfaceName, v.iface.hostIP, pod, Some(PoolName(cfg.name, pod)));
    return entry.(hosts := ByIndex(entry.hosts + [host])), true;
  }

  method RefreshHost(cfg: PluginConfig, host: HostInfo, pod: Cidr, v: Visit, changed0: bool)
    returns (h: HostInfo, changed: bool)
    ensures h == Refreshed(cfg, host, pod, v) && changed == (changed0 || h != host)
  {
    h, changed := host, changed0;
    if pod != host.podCidr {
      h := h.(podCidr := pod);
      changed := true;
    }
    if v.iface.interfaceName != host.interfaceName {
      h := h.(interfaceName := v.iface.interfaceName);
      changed := true;
    }
    if v.iface.hostIP != host.hostIP {
      h := h.(hostIP := v.iface.hostIP);
      changed := true;
    }
    if host.ipPool == None {
      h := h.(ipPool := Some(PoolName(cfg.name, pod)));
      changed := true;
    }
  }

  // The body of the loop over interfaces.
  method VisitInterface(cfg: PluginConfig, m: map<string, Entry>, changed0: bool, v: Visit)
    returns (m': map<string, Entry>, changed: bool)
    requires ConfigOk(cfg) && MapOk(cfg, m)
    ensures Work(m', changed) == VisitOne(cfg, Work(m, changed0), v)
  {
    m', changed := m, changed0;
    if |cfg.masterNets| > 0 && v.iface.netAddress !in cfg.masterNets { return; }
    var found := GetInterfaceEntry(cfg, m, v.iface.netAddress);
    if found.None? { return; }
    var entry := found.value;
    InterfaceEntryOk(cfg, m, v.iface.netAddress);
    var itemIndex := GetHostIndex(entry.hosts, v.hostName);
    if itemIndex == -1 {
      entry, changed := TryAddNewHost(cfg, entry, Pow2(cfg.hostBlock) - 1, v);
    } else {
      var host := entry.hosts[itemIndex];
      RefreshOk(cfg, entry, itemIndex, v);
      EntryBlocks(cfg, entry);
      var pod := TryIndex(entry.vlanCidr, host.hostIndex, cfg.hostBlock, SortAddress(cfg.excludes));
      if pod.None? {
        assert false;
      } else {
        var h;
        h, changed := RefreshHost(cfg, host, pod.value, v, changed);
        entry := entry.(hosts := entry.hosts[itemIndex := h]);
      }
    }
    m' := m[v.iface.netAddress := entry];
  }

  lemma {:induction false} VisitAllConcat(cfg: PluginConfig, w: Work, a: seq<Visit>, b: seq<Visit>)
    requires Fits(cfg) && (w.Work? ==> VlanLengths(cfg, w.entries))
    ensures VisitAll(cfg, w, a + b) == VisitAll(cfg, VisitAll(cfg, w, a), b)
  {
    if b == [] {
      assert a + b == a;
    } else {
      VisitAllConcat(cfg, w, a, b[..|b| - 1]);
      assert (a + b)[..|a + b| - 1] == a + b[..|b| - 1];
    }
  }

  // The loop over the interfaces of one host.
  method VisitHost(cfg: PluginConfig, m0: map<string, Entry>, changed0: bool, hif: HostInterface)
    returns (m: map<string, Entry>, changed: bool)
    requires ConfigOk(cfg) && MapOk(cfg, m0)
    ensures MapOk(cfg, m) && Work(m, changed) == VisitAll(cfg, Work(m0, changed0), IfaceVisits(hif))
  {
    ghost var visits := IfaceVisits(hif);
    m, changed := m0, changed0;
    for j := 0 to |hif.ifaces|
      invariant MapOk(cfg, m)
      invariant Work(m, changed) == VisitAll(cfg, Work(m0, changed0), visits[..j])
    {
      var v := Visit(hif.hostName, hif.ifaces[j]);
      assert visits[..j + 1][..j] == visits[..j];
      VisitOk(cfg, Work(m, changed), v);
      m, changed := VisitInterface(cfg, m, changed, v);
    }
    assert visits[..|visits|] == visits;
  }

  method VisitSnapshot(cfg: PluginConfig, m0: map<string, Entry>, changed0: bool, snap: Snapshot, order: seq<string>)
    returns (m: map<string, Entry>, changed: bool)
    requires ConfigOk(cfg) && MapOk(cfg, m0) && forall i :: 0 <= i < |order| ==> order[i] in snap
    ensures Work(m, changed) == VisitAll(cfg, Work(m0, changed0), Visits(snap, order))
  {
    m, changed := m0, changed0;
    for i := 0 to |order|
      invariant MapOk(cfg, m)
      invariant Work(m, changed) == VisitAll(cfg, Work(m0, changed0), Visits(snap, order[..i]))
    {
      assert order[..i + 1][..i] == order[..i];
      VisitAllConcat(cfg, Work(m0, changed0), Visits(snap, order[..i]), IfaceVisits(snap[order[i]]));
      m, changed := VisitHost(cfg, m, changed, snap[order[i]]);
    }
    assert order[..|order|] == order;
  }

  method DropDiedHosts(m: map<string, Entry>, died: set<string>) returns (r: map<string, Entry>)
    ensures r == DropDied(m, died)
  {
    r := m;
    var keys := m.Keys;
    while keys != {}
      invariant keys <= m.Keys && r.Keys == m.Keys
      invariant forall k :: k in m ==> r[k] == if k in keys then m[k] else Bury(m[k], died)
    {
      var k :| k in keys;
      var entry := r[k];
      var alive: seq<HostInfo> := [];
      for i := 0 to |entry.hosts|
        invariant alive == Alive(entry.hosts[..i], died)
      {
        assert entry.hosts[..i + 1][..i] == entry.hosts[..i];
        if entry.hosts[i].hostName !in died { alive := alive + [entry.hosts[i]]; }
      }
      assert entry.hosts[..|entry.hosts|] == entry.hosts;
      if |alive| != 0 { r := r[k := entry.(hosts := alive)]; }
      keys := keys - {k};
    }
  }

  method UpdateEntries(cfg: PluginConfig, entries: seq<Entry>, input: Input, changed0: bool)
    returns (m: map<string, Entry>, changed: bool)
    requires ConfigOk(cfg) && PlanOk(cfg, entries) && InputOk(input)
    ensures StoredLengths(cfg, entries) && Work(m, changed) == Updated(cfg, entries, input, changed0)
    ensures MapOk(cfg, m)
  {
    UpdateOk(cfg, entries, input, changed0);
    FirstPassOk(cfg, input.snap, input.gone, entries, changed0);
    var died;
    m, died, changed := KeepHosts(entries, input.snap, input.gone, changed0);
    m, changed := VisitSnapshot(cfg, m, changed, input.snap, input.order);
    if died != {} { m := DropDiedHosts(m, died); }
  }
}
