// Runs of a network's plan: NewCIDR, then any number of updates, each under its
// own snapshot, look-up answers and map orders.
module Runs {
  import opened Blocks
  import opened Compute
  import opened Excludes
  import opened Sorting
  import opened Plan
  import opened Indexing
  import opened NewPlan
  import opened Reconcile
  import opened ReconcileSafe

  // The entries of a map as a list, in some order.
  ghost predicate Listing(m: map<string, Entry>, entries: seq<Entry>)
  {
    && (forall i :: 0 <= i < |entries| ==> entries[i].netAddress in m && m[entries[i].netAddress] == entries[i])
    && (forall i, j :: 0 <= i < j < |entries| ==> entries[i].netAddress != entries[j].netAddress)
    && (forall k :: k in m ==> m[k] in entries)
  }

  datatype Round = Round(input: Input, isNew: bool)

  // updateCIDR: the new plan is stored if it is reported as changed and the API
  // call succeeds; otherwise the old one stays. A recomputed index would leave
  // the next plan open.
  ghost predicate Transition(cfg: PluginConfig, plan: seq<Entry>, r: Round, plan': seq<Entry>)
    requires Fits(cfg)
  {
    && InputOk(r.input)
    && (StoredLengths(cfg, plan) ==>
          var w := Updated(cfg, plan, r.input, r.isNew);
          w.Work? ==> plan' == plan || (w.changed && Listing(w.entries, plan')))
  }

  ghost predicate IsRun(cfg: PluginConfig, plans: seq<seq<Entry>>, rounds: seq<Round>)
    requires ConfigOk(cfg)
  {
    && |plans| == |rounds| + 1
    && Enough(cfg) && plans[0] == FirstPlan(cfg)
    && forall t :: 0 <= t < |rounds| ==> Transition(cfg, plans[t], rounds[t], plans[t + 1])
  }

  lemma ListingOk(cfg: PluginConfig, m: map<string, Entry>, entries: seq<Entry>)
    requires ConfigOk(cfg) && MapOk(cfg, m) && Listing(m, entries)
    ensures PlanOk(cfg, entries)
  {
  }

  lemma TransitionOk(cfg: PluginConfig, plan: seq<Entry>, r: Round, plan': seq<Entry>)
    requires ConfigOk(cfg) && PlanOk(cfg, plan) && Transition(cfg, plan, r, plan')
    ensures StoredLengths(cfg, plan) && Updated(cfg, plan, r.input, r.isNew).Work?
    ensures PlanOk(cfg, plan')
  {
    UpdateOk(cfg, plan, r.input, r.isNew);
    var w := Updated(cfg, plan, r.input, r.isNew);
    if plan' != plan { ListingOk(cfg, w.entries, plan'); }
  }

  lemma {:induction false} RunKeepsPlanOk(cfg: PluginConfig, plans: seq<seq<Entry>>, rounds: seq<Round>, t: nat)
    requires ConfigOk(cfg) && IsRun(cfg, plans, rounds) && t < |plans|
    ensures PlanOk(cfg, plans[t])
  {
    if t == 0 {
      FirstPlanOk(cfg);
    } else {
      RunKeepsPlanOk(cfg, plans, rounds, t - 1);
      TransitionOk(cfg, plans[t - 1], rounds[t - 1], plans[t]);
    }
  }

  // At every point of every run, pod blocks are disjoint and nested as designed,
  // and the next update never recomputes an index.
  lemma RunSafe(cfg: PluginConfig, plans: seq<seq<Entry>>, rounds: seq<Round>, t: nat)
    requires ConfigOk(cfg) && IsRun(cfg, plans, rounds) && t < |plans|
    ensures PlanOk(cfg, plans[t]) && PodBlocksSeparate(cfg, plans[t]) && StoredLengths(cfg, plans[t])
    ensures t < |rounds| ==> InputOk(rounds[t].input) && Updated(cfg, plans[t], rounds[t].input, rounds[t].isNew).Work?
  {
    RunKeepsPlanOk(cfg, plans, rounds, t);
    PlanSeparates(cfg, plans[t]);
    PlanLengths(cfg, plans[t]);
    if t < |rounds| { TransitionOk(cfg, plans[t], rounds[t], plans[t + 1]); }
  }

  // ---------- Stability ----------

  // Host interfaces are cached under their host's name.
  ghost predicate KeyedByHost(snap: Snapshot)
  {
    forall k :: k in snap ==> snap[k].hostName == k
  }

  ghost predicate SameBlock(h: HostInfo, h': HostInfo)
  {
    h.hostName == h'.hostName && h.hostIndex == h'.hostIndex && h.podCidr == h'.podCidr
  }

  // Every record of hosts is in hosts', on the same block.
  ghost predicate Carried(hosts: seq<HostInfo>, hosts': seq<HostInfo>)
  {
    forall h :: h in hosts ==> exists h' :: h' in hosts' && SameBlock(h, h')
  }

  // Every entry of m is in m', on the same VLAN, with all its records.
  ghost predicate Stays(m: map<string, Entry>, m': map<string, Entry>)
  {
    forall k :: k in m ==>
      && k in m' && m'[k].interfaceIndex == m[k].interfaceIndex && m'[k].vlanCidr == m[k].vlanCidr
      && Carried(m[k].hosts, m'[k].hosts)
  }

  ghost predicate HasRecord(m: map<string, Entry>, net: string, hostName: string)
  {
    net in m && exists h :: h in m[net].hosts && h.hostName == hostName
  }

  lemma RefreshCarries(cfg: PluginConfig, e: Entry, p: nat, v: Visit)
    requires p < |e.hosts|
    ensures Carried(e.hosts, e.hosts[p := Refreshed(cfg, e.hosts[p], e.hosts[p].podCidr, v)])
    ensures forall h' :: h' in e.hosts[p := Refreshed(cfg, e.hosts[p], e.hosts[p].podCidr, v)] ==>
              exists h :: h in e.hosts && h.hostName == h'.hostName
  {
    var hosts' := e.hosts[p := Refreshed(cfg, e.hosts[p], e.hosts[p].podCidr, v)];
    forall h | h in e.hosts ensures exists h' :: h' in hosts' && SameBlock(h, h') {
      var i :| 0 <= i < |e.hosts| && e.hosts[i] == h;
      assert hosts'[i] in hosts' && SameBlock(h, hosts'[i]);
    }
    forall h' | h' in hosts' ensures exists h :: h in e.hosts && h.hostName == h'.hostName {
      var i :| 0 <= i < |hosts'| && hosts'[i] == h';
      assert e.hosts[i] in e.hosts;
    }
  }

  lemma TryAddCarries(cfg: PluginConfig, e: Entry, v: Visit)
    requires e.vlanCidr.len + cfg.hostBlock <= 32 && Prefixes(cfg.excludes) && TryAdd(cfg, e, v).Some?
    ensures var e' := TryAdd(cfg, e, v).value;
      && Carried(e.hosts, e'.hosts)
      && forall h' :: h' in e'.hosts ==> h' in e.hosts || h'.hostName == v.hostName
  {
    var i := ChooseHostIndex(e.hosts, e.vlanCidr, cfg.hostBlock, cfg.excludes);
    var pod := Block(e.vlanCidr, cfg.hostBlock, i.value);
    var h := HostInfo(i.value, v.hostName, v.iface.interfaceName, v.iface.hostIP, pod, Some(PoolName(cfg.name, pod)));
    SameElements(ByIndex(e.hosts + [h]), e.hosts + [h]);
    forall g | g in e.hosts ensures exists g' :: g' in TryAdd(cfg, e, v).value.hosts && SameBlock(g, g') {
      assert g in e.hosts + [h];
    }
  }

  ghost predicate OnlyAdds(m: map<string, Entry>, m': map<string, Entry>, net: string, hostName: string)
  {
    forall k, n :: HasRecord(m', k, n) ==> HasRecord(m, k, n) || (n == hostName && k == net)
  }

  lemma ReplaceStays(m: map<string, Entry>, net: string, e: Entry, e': Entry, hostName: string)
    requires if net in m then m[net] == e else e.hosts == []
    requires e'.interfaceIndex == e.interfaceIndex && e'.vlanCidr == e.vlanCidr && Carried(e.hosts, e'.hosts)
    requires forall h' :: h' in e'.hosts ==> h'.hostName == hostName || exists h :: h in e.hosts && h.hostName == h'.hostName
    ensures Stays(m, m[net := e']) && OnlyAdds(m, m[net := e'], net, hostName)
  {
    ReplaceOnlyAdds(m, net, e, e', hostName);
    ReplaceKeeps(m, net, e');
  }

  lemma ReplaceKeeps(m: map<string, Entry>, net: string, e': Entry)
    requires net in m ==>
      e'.interfaceIndex == m[net].interfaceIndex && e'.vlanCidr == m[net].vlanCidr && Carried(m[net].hosts, e'.hosts)
    ensures Stays(m, m[net := e'])
  {
    forall k | k in m && k != net ensures Carried(m[k].hosts, m[k].hosts) {
      SelfCarried(m[k].hosts);
    }
  }

  lemma ReplaceOnlyAdds(m: map<string, Entry>, net: string, e: Entry, e': Entry, hostName: string)
    requires if net in m then m[net] == e else e.hosts == []
    requires forall h' :: h' in e'.hosts ==> h'.hostName == hostName || exists h :: h in e.hosts && h.hostName == h'.hostName
    ensures OnlyAdds(m, m[net := e'], net, hostName)
  {
    forall k, n | HasRecord(m[net := e'], k, n) ensures HasRecord(m, k, n) || (n == hostName && k == net) {
      if k == net && n != hostName {
        var h' :| h' in e'.hosts && h'.hostName == n;
        var h :| h in e.hosts && h.hostName == n;
        assert net in m && h in m[net].hosts;
      }
    }
  }

  lemma SelfCarried(hosts: seq<HostInfo>)
    ensures Carried(hosts, hosts)
  {
    forall h | h in hosts ensures exists h' :: h' in hosts && SameBlock(h, h') {
      assert SameBlock(h, h);
    }
  }

  lemma SelfStays(m: map<string, Entry>)
    ensures Stays(m, m)
  {
    forall k | k in m ensures Carried(m[k].hosts, m[k].hosts) {
      SelfCarried(m[k].hosts);
    }
  }

  // One visit keeps every record on its block, and adds none but the visited one.
  lemma VisitStays(cfg: PluginConfig, w: Work, v: Visit)
    requires ConfigOk(cfg) && w.Work? && MapOk(cfg, w.entries)
    ensures var r := VisitOne(cfg, w, v);
      r.Work? && Stays(w.entries, r.entries) && OnlyAdds(w.entries, r.entries, v.iface.netAddress, v.hostName)
  {
    var net := v.iface.netAddress;
    var found := InterfaceEntry(cfg, w.entries, net);
    SelfStays(w.entries);
    if Watched(cfg, v) && found.Some? {
      InterfaceEntryOk(cfg, w.entries, net);
      var e := found.value;
      var p := HostPos(e.hosts, v.hostName);
      if p >= 0 {
        RefreshOk(cfg, e, p, v);
        RefreshCarries(cfg, e, p, v);
        ReplaceStays(w.entries, net, e, e.(hosts := e.hosts[p := Refreshed(cfg, e.hosts[p], e.hosts[p].podCidr, v)]), v.hostName);
      } else if TryAdd(cfg, e, v).Some? {
        TryAddCarries(cfg, e, v);
        ReplaceStays(w.entries, net, e, TryAdd(cfg, e, v).value, v.hostName);
      } else {
        SelfCarried(e.hosts);
        ReplaceStays(w.entries, net, e, e, v.hostName);
      }
    }
  }

  lemma StaysTransitive(a: map<string, Entry>, b: map<string, Entry>, c: map<string, Entry>)
    requires Stays(a, b) && Stays(b, c)
    ensures Stays(a, c)
  {
    forall k | k in a ensures Carried(a[k].hosts, c[k].hosts) {
      forall h | h in a[k].hosts ensures exists h'' :: h'' in c[k].hosts && SameBlock(h, h'') {
        var h' :| h' in b[k].hosts && SameBlock(h, h');
        var h'' :| h'' in c[k].hosts && SameBlock(h', h'');
        assert SameBlock(h, h'');
      }
    }
  }

  // The host is visited on the network.
  ghost predicate Visited(cfg: PluginConfig, visits: seq<Visit>, net: string, name: string)
  {
    exists i :: 0 <= i < |visits| && visits[i].hostName == name && visits[i].iface.netAddress == net && Watched(cfg, visits[i])
  }

  lemma VisitedExtends(cfg: PluginConfig, init: seq<Visit>, v: Visit, visits: seq<Visit>, net: string, name: string)
    requires visits == init + [v]
    requires Visited(cfg, init, net, name) || (v.hostName == name && v.iface.netAddress == net && Watched(cfg, v))
    ensures Visited(cfg, visits, net, name)
  {
    if Visited(cfg, init, net, name) {
      var i :| 0 <= i < |init| && init[i].hostName == name && init[i].iface.netAddress == net && Watched(cfg, init[i]);
      assert visits[i] == init[i];
    } else {
      assert visits[|init|] == v;
    }
  }

  lemma {:induction false} VisitsStay(cfg: PluginConfig, w: Work, visits: seq<Visit>)
    requires ConfigOk(cfg) && w.Work? && MapOk(cfg, w.entries)
    ensures var r := VisitAll(cfg, w, visits);
      && r.Work? && Stays(w.entries, r.entries)
      && forall k, n :: HasRecord(r.entries, k, n) ==>
           HasRecord(w.entries, k, n) || Visited(cfg, visits, k, n)
  {
    SelfStays(w.entries);
    if visits != [] {
      var init, v := visits[..|visits| - 1], visits[|visits| - 1];
      var mid := VisitAll(cfg, w, init);
      VisitsStay(cfg, w, init);
      SecondPassOk(cfg, w, init);
      VisitStays(cfg, mid, v);
      var r := VisitAll(cfg, w, visits);
      StaysTransitive(w.entries, mid.entries, r.entries);
      forall k, n | HasRecord(r.entries, k, n) && !HasRecord(w.entries, k, n) ensures Visited(cfg, visits, k, n) {
        VisitedExtends(cfg, init, v, visits, k, n);
      }
    }
  }
}
