// Which host index a new host gets: one above all those in use, as long as there
// is one, so that an index that was given back is not used again at once.
module Placement {
  import opened Powers
  import opened Compute
  import opened Excludes
  import opened Sorting
  import opened Plan
  import opened Indexing
  import opened Reconcile
  import opened ReconcileSafe
  import opened Runs
  import opened Stability
  import opened Settling
  import opened Membership
  import opened Coverage

  // No free index of the entry lies above all those in use.
  ghost predicate NoneAbove(cfg: PluginConfig, e: Entry)
    requires e.vlanCidr.len + cfg.hostBlock <= 32 && Prefixes(cfg.excludes)
  {
    forall j: nat :: AboveAll(e.hosts, j) ==> !FreeFor(e.hosts, e.vlanCidr, cfg.hostBlock, cfg.excludes, j)
  }

  ghost predicate Named(hosts: seq<HostInfo>, name: string)
  {
    exists k :: 0 <= k < |hosts| && hosts[k].hostName == name
  }

  // A host that is in e' and not in e is below a host of e only for that reason.
  ghost predicate WellPlaced(cfg: PluginConfig, e: Entry, e': Entry)
    requires e'.vlanCidr.len + cfg.hostBlock <= 32 && Prefixes(cfg.excludes)
  {
    forall g, h :: g in e.hosts && h in e'.hosts && h.hostIndex < g.hostIndex && !Named(e.hosts, h.hostName) ==> NoneAbove(cfg, e')
  }

  // More indexes in use leave no more free ones above them.
  lemma NoneAboveStays(cfg: PluginConfig, e: Entry, e': Entry)
    requires e.vlanCidr.len + cfg.hostBlock <= 32 && Prefixes(cfg.excludes) && NoneAbove(cfg, e) && e'.vlanCidr == e.vlanCidr
    requires forall h :: h in e.hosts ==> exists h' :: h' in e'.hosts && h'.hostIndex == h.hostIndex
    ensures NoneAbove(cfg, e')
  {
    forall j: nat | AboveAll(e'.hosts, j) ensures !FreeFor(e'.hosts, e.vlanCidr, cfg.hostBlock, cfg.excludes, j) {
      forall k | 0 <= k < |e.hosts| ensures e.hosts[k].hostIndex < j {
        assert e.hosts[k] in e.hosts;
        var h' :| h' in e'.hosts && h'.hostIndex == e.hosts[k].hostIndex;
        var l :| 0 <= l < |e'.hosts| && e'.hosts[l] == h';
      }
      assert AboveAll(e.hosts, j);
      assert !FreeFor(e.hosts, e.vlanCidr, cfg.hostBlock, cfg.excludes, j);
    }
  }

  // The entry after a visit: the records it had, by name and index, and perhaps
  // one more on an index chosen for the visited host.
  ghost predicate Grown(cfg: PluginConfig, e: Entry, e': Entry, v: Visit)
    requires e.vlanCidr.len + cfg.hostBlock <= 32 && Prefixes(cfg.excludes)
  {
    && e'.vlanCidr == e.vlanCidr
    && (forall h :: h in e.hosts ==> exists h' :: h' in e'.hosts && h'.hostIndex == h.hostIndex)
    && (forall h' :: h' in e'.hosts ==>
          || (exists h :: h in e.hosts && h.hostName == h'.hostName && h.hostIndex == h'.hostIndex)
          || ChooseHostIndex(e.hosts, e.vlanCidr, cfg.hostBlock, cfg.excludes) == Some(h'.hostIndex))
  }

  lemma RefreshGrows(cfg: PluginConfig, e: Entry, p: nat, h: HostInfo, v: Visit)
    requires e.vlanCidr.len + cfg.hostBlock <= 32 && Prefixes(cfg.excludes) && p < |e.hosts|
    requires h.hostName == e.hosts[p].hostName && h.hostIndex == e.hosts[p].hostIndex
    ensures Grown(cfg, e, e.(hosts := e.hosts[p := h]), v)
  {
    var hosts' := e.hosts[p := h];
    forall g | g in e.hosts ensures exists g' :: g' in hosts' && g'.hostIndex == g.hostIndex {
      var k :| 0 <= k < |e.hosts| && e.hosts[k] == g;
      assert hosts'[k] in hosts';
    }
    forall g' | g' in hosts' ensures exists g :: g in e.hosts && g.hostName == g'.hostName && g.hostIndex == g'.hostIndex {
      var k :| 0 <= k < |hosts'| && hosts'[k] == g';
      assert e.hosts[k] in e.hosts;
    }
  }

  lemma AddGrows(cfg: PluginConfig, e: Entry, v: Visit)
    requires e.vlanCidr.len + cfg.hostBlock <= 32 && Prefixes(cfg.excludes) && TryAdd(cfg, e, v).Some?
    ensures Grown(cfg, e, TryAdd(cfg, e, v).value, v)
  {
    var i := ChooseHostIndex(e.hosts, e.vlanCidr, cfg.hostBlock, cfg.excludes);
    var pod := Blocks.Block(e.vlanCidr, cfg.hostBlock, i.value);
    var x := HostInfo(i.value, v.hostName, v.iface.interfaceName, v.iface.hostIP, pod, Some(PoolName(cfg.name, pod)));
    AppendedGrows(cfg, e, ByIndex(e.hosts + [x]), x, v);
  }

  lemma AppendedGrows(cfg: PluginConfig, e: Entry, hosts: seq<HostInfo>, x: HostInfo, v: Visit)
    requires e.vlanCidr.len + cfg.hostBlock <= 32 && Prefixes(cfg.excludes)
    requires ChooseHostIndex(e.hosts, e.vlanCidr, cfg.hostBlock, cfg.excludes) == Some(x.hostIndex)
    requires multiset(hosts) == multiset(e.hosts + [x])
    ensures Grown(cfg, e, e.(hosts := hosts), v)
  {
    SameElements(hosts, e.hosts + [x]);
    forall h | h in e.hosts ensures exists h' :: h' in hosts && h'.hostIndex == h.hostIndex {
      assert h in e.hosts + [x];
    }
    forall h | h in hosts && h != x ensures exists g :: g in e.hosts && g.hostName == h.hostName && g.hostIndex == h.hostIndex {
      assert h in e.hosts;
    }
  }

  // A visit of a network that has an entry.
  lemma VisitGrows(cfg: PluginConfig, w: Work, v: Visit)
    requires ConfigOk(cfg) && w.Work? && MapOk(cfg, w.entries) && v.iface.netAddress in w.entries
    ensures var r, net := VisitOne(cfg, w, v), v.iface.netAddress;
      r.Work? && net in r.entries && Grown(cfg, w.entries[net], r.entries[net], v)
  {
    var net := v.iface.netAddress;
    var e := w.entries[net];
    var p := HostPos(e.hosts, v.hostName);
    VisitTouchesOneNet(cfg, w, v);
    if Watched(cfg, v) {
      if p >= 0 {
        RefreshStores(cfg, w, v);
        RefreshGrows(cfg, e, p, Refreshed(cfg, e.hosts[p], e.hosts[p].podCidr, v), v);
      } else if TryAdd(cfg, e, v).Some? {
        AddGrows(cfg, e, v);
      }
    }
  }

  // The step of the induction, on the entry that is visited.
  lemma GrownIsPlaced(cfg: PluginConfig, e0: Entry, e: Entry, e': Entry, v: Visit, g: HostInfo, h: HostInfo)
    requires e.vlanCidr.len + cfg.hostBlock <= 32 && Prefixes(cfg.excludes)
    requires WellPlaced(cfg, e0, e) && Carried(e0.hosts, e.hosts) && Grown(cfg, e, e', v)
    requires g in e0.hosts && h in e'.hosts && h.hostIndex < g.hostIndex && !Named(e0.hosts, h.hostName)
    ensures NoneAbove(cfg, e')
  {
    if h0 :| h0 in e.hosts && h0.hostName == h.hostName && h0.hostIndex == h.hostIndex {
      assert NoneAbove(cfg, e);
    } else {
      var g' :| g' in e.hosts && SameBlock(g, g');
      ChosenBelow(cfg, e, h.hostIndex, g');
    }
    NoneAboveStays(cfg, e, e');
  }

  lemma ChosenBelow(cfg: PluginConfig, e: Entry, i: nat, g: HostInfo)
    requires e.vlanCidr.len + cfg.hostBlock <= 32 && Prefixes(cfg.excludes) && g in e.hosts && i < g.hostIndex
    requires ChooseHostIndex(e.hosts, e.vlanCidr, cfg.hostBlock, cfg.excludes) == Some(i)
    ensures NoneAbove(cfg, e)
  {
    var k :| 0 <= k < |e.hosts| && e.hosts[k] == g;
    assert !AboveAll(e.hosts, i);
    ChosenIndex(e.hosts, e.vlanCidr, cfg.hostBlock, cfg.excludes);
  }

  lemma GrownStaysPlaced(cfg: PluginConfig, e0: Entry, e: Entry, e': Entry, v: Visit)
    requires e.vlanCidr.len + cfg.hostBlock <= 32 && Prefixes(cfg.excludes)
    requires WellPlaced(cfg, e0, e) && Carried(e0.hosts, e.hosts) && Grown(cfg, e, e', v)
    ensures WellPlaced(cfg, e0, e')
  {
    forall g, h | g in e0.hosts && h in e'.hosts && h.hostIndex < g.hostIndex && !Named(e0.hosts, h.hostName) ensures NoneAbove(cfg, e') {
      GrownIsPlaced(cfg, e0, e, e', v, g, h);
    }
  }

  lemma VisitPlaces(cfg: PluginConfig, m: map<string, Entry>, w: Work, v: Visit, net: string)
    requires ConfigOk(cfg) && w.Work? && MapOk(cfg, w.entries) && Stays(m, w.entries) && net in m && WellPlaced(cfg, m[net], w.entries[net])
    ensures var r := VisitOne(cfg, w, v); r.Work? && net in r.entries && MapOk(cfg, r.entries) && WellPlaced(cfg, m[net], r.entries[net])
  {
    VisitOk(cfg, w, v);
    VisitStays(cfg, w, v);
    VisitTouchesOneNet(cfg, w, v);
    if net == v.iface.netAddress {
      VisitGrows(cfg, w, v);
      GrownStaysPlaced(cfg, m[net], w.entries[net], VisitOne(cfg, w, v).entries[net], v);
    }
  }

  lemma {:induction false} PassPlaces(cfg: PluginConfig, w: Work, visits: seq<Visit>, net: string)
    requires ConfigOk(cfg) && w.Work? && MapOk(cfg, w.entries) && net in w.entries
    ensures var r := VisitAll(cfg, w, visits);
      r.Work? && net in r.entries && MapOk(cfg, r.entries) && WellPlaced(cfg, w.entries[net], r.entries[net])
  {
    if visits != [] {
      var n := |visits| - 1;
      PassPlaces(cfg, w, visits[..n], net);
      VisitsStay(cfg, w, visits[..n]);
      VisitPlaces(cfg, w.entries, VisitAll(cfg, w, visits[..n]), visits[n], net);
    }
  }

  // ---------- The whole step ----------

  // The index lies above every index in use on the network before the update and
  // after it.
  ghost predicate BeyondAll(e: Entry, e': Entry, j: nat)
  {
    AboveAll(e.hosts, j) && AboveAll(e'.hosts, j)
  }

  lemma BeyondAllIsAbove(cfg: PluginConfig, entries: seq<Entry>, input: Input, changed: bool, p: Passes, e': Entry, i: nat, j: nat)
    requires ConfigOk(cfg) && PlanOk(cfg, entries) && IsPasses(cfg, entries, input, changed, p) && i < |entries| && entries[i].hosts != []
    requires entries[i].netAddress in p.r && BeyondAll(entries[i], e', j)
    requires forall h :: h in p.r[entries[i].netAddress].hosts && h.hostName !in p.died ==> h in e'.hosts
    ensures AboveAll(p.r[entries[i].netAddress].hosts, j)
  {
    var net := entries[i].netAddress;
    OnlyEntry(cfg, entries, i);
    forall k | 0 <= k < |p.r[net].hosts| ensures p.r[net].hosts[k].hostIndex < j {
      var h := p.r[net].hosts[k];
      if h.hostName in p.died {
        var i', a' := BuriedWasStored(cfg, entries, input, changed, p, net, h);
      } else {
        var l :| 0 <= l < |e'.hosts| && e'.hosts[l] == h;
      }
    }
  }

  // A host that is new on a network gets an index below one that a host keeps only
  // if no free index lies above all those in use.
  lemma NewHostIsPlaced(cfg: PluginConfig, entries: seq<Entry>, input: Input, changed: bool, i: nat, a: nat, h: HostInfo, j: nat)
    requires ConfigOk(cfg) && PlanOk(cfg, entries) && StoredLengths(cfg, entries) && InputOk(input) && KeyedByHost(input.snap)
    requires IsRecord(entries, i, a)
    requires var w, net := Updated(cfg, entries, input, changed), entries[i].netAddress;
      && w.Work? && HasRecord(w.entries, net, entries[i].hosts[a].hostName)
      && h in w.entries[net].hosts && !Present(entries, net, h.hostName) && h.hostIndex < entries[i].hosts[a].hostIndex
      && j < Pow2(cfg.hostBlock) && BeyondAll(entries[i], w.entries[net], j)
    ensures entries[i].vlanCidr.len + cfg.hostBlock <= 32
    ensures Tabu(entries[i].vlanCidr, cfg.hostBlock, j, cfg.excludes)
  {
    var net, g := entries[i].netAddress, entries[i].hosts[a];
    var p := UpdatePasses(cfg, entries, input, changed);
    var m := Updated(cfg, entries, input, changed).entries;
    ResultKeys(p, m);
    forall x | x in p.r[net].hosts && x.hostName !in p.died ensures x in m[net].hosts { AliveExactly(p.r[net].hosts, p.died, x); }
    BeyondAllIsAbove(cfg, entries, input, changed, p, m[net], i, j);
    assert HasRecord(p.r, net, g.hostName);
    NoneAboveAfterVisits(cfg, entries, input, changed, p, i, a, h);
  }

  lemma NoneAboveAfterVisits(cfg: PluginConfig, entries: seq<Entry>, input: Input, changed: bool, p: Passes, i: nat, a: nat, h: HostInfo)
    requires ConfigOk(cfg) && PlanOk(cfg, entries) && StoredLengths(cfg, entries) && InputOk(input)
    requires IsPasses(cfg, entries, input, changed, p) && IsRecord(entries, i, a)
    requires var k := KeepEntries(input.snap, input.gone, entries, changed);
      var r := VisitAll(cfg, Work(k.entries, k.changed), Visits(input.snap, input.order)); r.Work? && r.entries == p.r
    requires var net, g := entries[i].netAddress, entries[i].hosts[a];
      && HasRecord(p.r, net, g.hostName) && h in p.r[net].hosts && h.hostIndex < g.hostIndex && !Present(entries, net, h.hostName)
    ensures entries[i].vlanCidr == p.r[entries[i].netAddress].vlanCidr && NoneAbove(cfg, p.r[entries[i].netAddress])
  {
    var net := entries[i].netAddress;
    KeptBySecondPass(cfg, entries, input, changed, p, i, a);
    SurvivorsAreKept(cfg, entries, input, changed, p, i, a);
    NewIsNotKept(cfg, entries, input, changed, p, net, h.hostName);
    var k := KeepEntries(input.snap, input.gone, entries, changed);
    PassPlaces(cfg, Work(k.entries, k.changed), Visits(input.snap, input.order), net);
    assert !Named(p.m[net].hosts, h.hostName);
  }

  lemma NewIsNotKept(cfg: PluginConfig, entries: seq<Entry>, input: Input, changed: bool, p: Passes, net: string, name: string)
    requires ConfigOk(cfg) && PlanOk(cfg, entries) && IsPasses(cfg, entries, input, changed, p) && !Present(entries, net, name)
    ensures !HasRecord(p.m, net, name)
  {
    if HasRecord(p.m, net, name) {
      var h :| h in p.m[net].hosts && h.hostName == name;
      var i, a := KeptFromPlan(input.snap, input.gone, entries, changed, net, h);
      assert false;
    }
  }

  // ---------- Over runs ----------

  // The same of any two successive plans of a run.
  lemma RunPlacesAbove(cfg: PluginConfig, plans: seq<seq<Entry>>, rounds: seq<Round>, t: nat, i: nat, a: nat, i': nat, a': nat, b': nat, j: nat)
    requires ConfigOk(cfg) && IsRun(cfg, plans, rounds) && t < |rounds| && KeyedByHost(rounds[t].input.snap)
    requires IsRecord(plans[t], i, a) && IsRecord(plans[t + 1], i', a') && IsRecord(plans[t + 1], i', b')
    requires plans[t + 1][i'].netAddress == plans[t][i].netAddress
    requires plans[t + 1][i'].hosts[a'].hostName == plans[t][i].hosts[a].hostName
    requires !Present(plans[t], plans[t][i].netAddress, plans[t + 1][i'].hosts[b'].hostName)
    requires plans[t + 1][i'].hosts[b'].hostIndex < plans[t][i].hosts[a].hostIndex
    requires j < Pow2(cfg.hostBlock) && BeyondAll(plans[t][i], plans[t + 1][i'], j)
    ensures plans[t][i].vlanCidr.len + cfg.hostBlock <= 32
    ensures Tabu(plans[t][i].vlanCidr, cfg.hostBlock, j, cfg.excludes)
  {
    var plan, plan', r := plans[t], plans[t + 1], rounds[t];
    RunKeepsPlanOk(cfg, plans, rounds, t);
    TransitionOk(cfg, plan, r, plan');
    assert plan' != plan;
    var w := Updated(cfg, plan, r.input, r.isNew);
    assert plan'[i'].hosts[a'] in w.entries[plan[i].netAddress].hosts;
    NewHostIsPlaced(cfg, plan, r.input, r.isNew, i, a, plan'[i'].hosts[b'], j);
  }
}
