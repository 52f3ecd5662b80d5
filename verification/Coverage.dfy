// Who gets into the plan: what an update adds for the interfaces of a snapshot,
// told from the configuration, the snapshot and the result alone.
module Coverage {
  import opened Powers
  import opened Excludes
  import opened Plan
  import opened Indexing
  import opened NewPlan
  import opened Reconcile
  import opened ReconcileSafe
  import opened Runs
  import opened Stability
  import opened Settling
  import opened Membership

  ghost predicate ShownOn(snap: Snapshot, name: string, net: string)
  {
    name in snap && exists a :: 0 <= a < |snap[name].ifaces| && snap[name].ifaces[a].netAddress == net
  }

  ghost predicate Stored(entries: seq<Entry>, net: string)
  {
    exists i :: 0 <= i < |entries| && entries[i].netAddress == net
  }

  // ---------- Nothing else gets in ----------

  lemma {:induction false} OpenedByVisit(cfg: PluginConfig, w: Work, visits: seq<Visit>, net: string) returns (i: nat)
    requires ConfigOk(cfg) && w.Work? && MapOk(cfg, w.entries) && net !in w.entries
    requires var r := VisitAll(cfg, w, visits); r.Work? && net in r.entries
    ensures i < |visits| && visits[i].iface.netAddress == net && (cfg.masterNets == [] || net in cfg.masterNets)
  {
    var n := |visits| - 1;
    SecondPassOk(cfg, w, visits[..n]);
    var mid := VisitAll(cfg, w, visits[..n]);
    VisitTouchesOneNet(cfg, mid, visits[n]);
    if net in mid.entries { i := OpenedByVisit(cfg, w, visits[..n], net); } else { i := n; }
  }

  // A network of the result is a stored one, or shown by the snapshot and among the
  // master networks, if those are given.
  lemma NetworksComeFrom(cfg: PluginConfig, entries: seq<Entry>, input: Input, changed: bool, p: Passes, net: string)
    requires ConfigOk(cfg) && PlanOk(cfg, entries) && StoredLengths(cfg, entries) && InputOk(input) && KeyedByHost(input.snap)
    requires IsPasses(cfg, entries, input, changed, p) && net in p.r && net !in p.m
    requires var k := KeepEntries(input.snap, input.gone, entries, changed);
      var r := VisitAll(cfg, Work(k.entries, k.changed), Visits(input.snap, input.order)); r.Work? && r.entries == p.r
    ensures (cfg.masterNets == [] || net in cfg.masterNets) && exists name :: ShownOn(input.snap, name, net)
  {
    var k, visits := KeepEntries(input.snap, input.gone, entries, changed), Visits(input.snap, input.order);
    var i := OpenedByVisit(cfg, Work(k.entries, k.changed), visits, net);
    VisitsComeFromSnapshot(input.snap, input.order, i);
    assert ShownOn(input.snap, visits[i].hostName, net);
  }

  lemma RecordsComeFrom(cfg: PluginConfig, entries: seq<Entry>, input: Input, changed: bool, p: Passes, net: string, name: string)
    requires ConfigOk(cfg) && PlanOk(cfg, entries) && IsPasses(cfg, entries, input, changed, p)
    requires HasRecord(p.r, net, name) && !Present(entries, net, name)
    ensures (cfg.masterNets == [] || net in cfg.masterNets) && ShownOn(input.snap, name, net)
  {
    if HasRecord(p.m, net, name) {
      var h :| h in p.m[net].hosts && h.hostName == name;
      var i, a := KeptFromPlan(input.snap, input.gone, entries, changed, net, h);
      assert false;
    }
  }

  lemma ResultKeys(p: Passes, m: map<string, Entry>)
    requires m == if p.died == {} then p.r else DropDied(p.r, p.died)
    ensures m.Keys == p.r.Keys
    ensures forall k :: k in m ==> m[k] == p.r[k].(hosts := m[k].hosts) && forall h :: h in m[k].hosts ==> h in p.r[k].hosts
  {
    forall k | k in m ensures m[k] == p.r[k].(hosts := m[k].hosts) && forall h :: h in m[k].hosts ==> h in p.r[k].hosts {
      forall h | h in Alive(p.r[k].hosts, p.died) ensures h in p.r[k].hosts { AliveExactly(p.r[k].hosts, p.died, h); }
    }
  }

  // Every network and every record that is new in the result is on a master
  // network, if those are given, and shown by the snapshot.
  lemma AddedOnlyIfShown(cfg: PluginConfig, entries: seq<Entry>, input: Input, changed: bool)
    requires ConfigOk(cfg) && PlanOk(cfg, entries) && StoredLengths(cfg, entries) && InputOk(input) && KeyedByHost(input.snap)
    ensures var w := Updated(cfg, entries, input, changed);
      && w.Work?
      && (forall net :: net in w.entries && !Stored(entries, net) ==>
            (cfg.masterNets == [] || net in cfg.masterNets) && exists name :: ShownOn(input.snap, name, net))
      && (forall net, name :: HasRecord(w.entries, net, name) && !Present(entries, net, name) ==>
            (cfg.masterNets == [] || net in cfg.masterNets) && ShownOn(input.snap, name, net))
  {
    var p := UpdatePasses(cfg, entries, input, changed);
    var m := Updated(cfg, entries, input, changed).entries;
    ResultKeys(p, m);
    KeepIsFromPlan(input.snap, input.gone, entries, changed);
    forall net | net in m && !Stored(entries, net)
      ensures (cfg.masterNets == [] || net in cfg.masterNets) && exists name :: ShownOn(input.snap, name, net)
    {
      NetworksComeFrom(cfg, entries, input, changed, p, net);
    }
    forall net, name | HasRecord(m, net, name) && !Present(entries, net, name)
      ensures (cfg.masterNets == [] || net in cfg.masterNets) && ShownOn(input.snap, name, net)
    {
      assert HasRecord(p.r, net, name);
      RecordsComeFrom(cfg, entries, input, changed, p, net, name);
    }
  }

  // ---------- Everyone shown gets in ----------

  // The host index is covered by an exclude, in use, or was held until the last
  // pass by a host that was found dead.
  ghost predicate HostTaken(cfg: PluginConfig, entries: seq<Entry>, input: Input, e: Entry, j: nat)
    requires e.vlanCidr.len + cfg.hostBlock <= 32 && Prefixes(cfg.excludes)
  {
    || Tabu(e.vlanCidr, cfg.hostBlock, j, cfg.excludes)
    || (exists h :: h in e.hosts && h.hostIndex == j)
    || (exists i, a :: IsRecord(entries, i, a) && entries[i].netAddress == e.netAddress && entries[i].hosts[a].hostIndex == j &&
          FoundDead(input.snap, input.gone, entries, entries[i].hosts[a].hostName))
  }

  // A record that the third pass takes was stored, with the same index.
  lemma BuriedWasStored(cfg: PluginConfig, entries: seq<Entry>, input: Input, changed: bool, p: Passes, net: string, h: HostInfo)
    returns (i: nat, a: nat)
    requires ConfigOk(cfg) && PlanOk(cfg, entries) && IsPasses(cfg, entries, input, changed, p)
    requires net in p.r && h in p.r[net].hosts && h.hostName in p.died
    ensures IsRecord(entries, i, a) && entries[i].netAddress == net && entries[i].hosts[a].hostIndex == h.hostIndex
    ensures entries[i].hosts[a].hostName == h.hostName && FoundDead(input.snap, input.gone, entries, h.hostName)
  {
    DiedExactly(input.snap, input.gone, entries, changed, h.hostName);
    assert HasRecord(p.r, net, h.hostName);
    IndexOfKept(cfg, p, net, h);
    var g :| g in p.m[net].hosts && SameBlock(g, h);
    i, a := KeptFromPlan(input.snap, input.gone, entries, changed, net, g);
  }

  lemma StillTaken(cfg: PluginConfig, entries: seq<Entry>, input: Input, changed: bool, p: Passes, m: map<string, Entry>, net: string, j: nat)
    requires ConfigOk(cfg) && PlanOk(cfg, entries) && IsPasses(cfg, entries, input, changed, p)
    requires m == if p.died == {} then p.r else DropDied(p.r, p.died)
    requires net in m && net in p.r && MapOk(cfg, m) && exists h :: h in p.r[net].hosts && h.hostIndex == j
    ensures HostTaken(cfg, entries, input, m[net], j)
  {
    var h :| h in p.r[net].hosts && h.hostIndex == j;
    if h.hostName in p.died {
      var i, a := BuriedWasStored(cfg, entries, input, changed, p, net, h);
    } else {
      AliveExactly(p.r[net].hosts, p.died, h);
      assert h in m[net].hosts;
    }
  }

  ghost predicate NoInterfaceFor(cfg: PluginConfig, m: map<string, Entry>, net: string)
    requires ConfigOk(cfg)
  {
    net !in m && forall j: nat :: j < Pow2(cfg.interfaceBlock) ==> InterfaceTaken(cfg, m, j)
  }

  ghost predicate NoHostIndexFor(cfg: PluginConfig, entries: seq<Entry>, input: Input, m: map<string, Entry>, net: string)
    requires ConfigOk(cfg) && MapOk(cfg, m)
  {
    net in m && forall j: nat :: j < Pow2(cfg.hostBlock) ==> HostTaken(cfg, entries, input, m[net], j)
  }

  // An interface shown on a master network, or on any if none are given, has a
  // record of its host there, unless all interface indexes are taken, or all host
  // indexes of the network are.
  lemma ShownIsServed(cfg: PluginConfig, entries: seq<Entry>, input: Input, changed: bool, name: string, net: string)
    requires ConfigOk(cfg) && PlanOk(cfg, entries) && StoredLengths(cfg, entries) && InputOk(input) && KeyedByHost(input.snap)
    requires ShownOn(input.snap, name, net) && (cfg.masterNets == [] || net in cfg.masterNets)
    ensures var w := Updated(cfg, entries, input, changed);
      && w.Work? && MapOk(cfg, w.entries)
      && (HasRecord(w.entries, net, name) || NoInterfaceFor(cfg, w.entries, net) || NoHostIndexFor(cfg, entries, input, w.entries, net))
  {
    var p := UpdatePasses(cfg, entries, input, changed);
    UpdateOk(cfg, entries, input, changed);
    var m := Updated(cfg, entries, input, changed).entries;
    var a :| 0 <= a < |input.snap[name].ifaces| && input.snap[name].ifaces[a].netAddress == net;
    var v := Visit(name, input.snap[name].ifaces[a]);
    assert InSnapshot(input.snap, v);
    ResultKeys(p, m);
    ServedAfterVisits(cfg, p.r, v);
    if net !in p.r {
      assert forall j: nat :: InterfaceTaken(cfg, p.r, j) ==> InterfaceTaken(cfg, m, j);
    } else if HasRecord(p.r, net, name) {
      DiedExactly(input.snap, input.gone, entries, changed, name);
      BuriedExactly(p.r, p.died, net, name);
    } else {
      forall j: nat | j < Pow2(cfg.hostBlock) ensures HostTaken(cfg, entries, input, m[net], j) {
        if !Tabu(m[net].vlanCidr, cfg.hostBlock, j, cfg.excludes) { StillTaken(cfg, entries, input, changed, p, m, net, j); }
      }
    }
  }

  // The same of a map in which the visit is quiet.
  lemma ServedAfterVisits(cfg: PluginConfig, r: map<string, Entry>, v: Visit)
    requires ConfigOk(cfg) && MapOk(cfg, r) && Quiet(cfg, r, v)
    requires cfg.masterNets == [] || v.iface.netAddress in cfg.masterNets
    ensures var net := v.iface.netAddress;
      if net !in r then forall j: nat :: j < Pow2(cfg.interfaceBlock) ==> InterfaceTaken(cfg, r, j)
      else HasRecord(r, net, v.hostName) ||
           forall j: nat :: j < Pow2(cfg.hostBlock) ==>
             Tabu(r[net].vlanCidr, cfg.hostBlock, j, cfg.excludes) || exists h :: h in r[net].hosts && h.hostIndex == j
  {
    var net := v.iface.netAddress;
    InterfaceEntryExactly(cfg, r, net);
    if net in r {
      var e := r[net];
      PositionOf(e.hosts, v.hostName);
      ChosenIndex(e.hosts, e.vlanCidr, cfg.hostBlock, cfg.excludes);
      if TryAdd(cfg, e, v).None? {
        forall j: nat | j < Pow2(cfg.hostBlock) && !Tabu(e.vlanCidr, cfg.hostBlock, j, cfg.excludes)
          ensures exists h :: h in e.hosts && h.hostIndex == j
        {
          assert !FreeFor(e.hosts, e.vlanCidr, cfg.hostBlock, cfg.excludes, j);
          var k :| 0 <= k < |e.hosts| && e.hosts[k].hostIndex == j;
          assert e.hosts[k] in e.hosts;
        }
      }
    }
  }

  // ---------- Which networks stay ----------

  lemma {:induction false} EmptyEntryIsKept(snap: Snapshot, gone: Lookup, entries: seq<Entry>, changed: bool, i: nat)
    requires i < |entries| && entries[i].hosts == []
    ensures entries[i].netAddress in KeepEntries(snap, gone, entries, changed).entries
  {
    var n := |entries| - 1;
    if i < n { EmptyEntryIsKept(snap, gone, entries[..n], changed, i); }
  }

  ghost predicate AnySurvives(input: Input, entries: seq<Entry>, i: nat)
    requires i < |entries|
  {
    exists a :: IsRecord(entries, i, a) && Survives(input.snap, input.gone, entries, i, a)
  }

  // A network keeps its entry exactly if that was empty before or one of its
  // records survives the first pass; otherwise only a host shown on it brings it
  // back.
  lemma NetworkStaysExactly(cfg: PluginConfig, entries: seq<Entry>, input: Input, changed: bool, i: nat)
    requires ConfigOk(cfg) && PlanOk(cfg, entries) && StoredLengths(cfg, entries) && InputOk(input) && KeyedByHost(input.snap)
    requires i < |entries|
    ensures var w, net := Updated(cfg, entries, input, changed), entries[i].netAddress;
      && w.Work?
      && (entries[i].hosts == [] || AnySurvives(input, entries, i) ==> net in w.entries)
      && (entries[i].hosts != [] && AnySurvives(input, entries, i) ==> w.entries[net].vlanCidr == entries[i].vlanCidr)
      && (entries[i].hosts != [] && !AnySurvives(input, entries, i) && net in w.entries ==>
            (cfg.masterNets == [] || net in cfg.masterNets) && exists name :: ShownOn(input.snap, name, net))
  {
    var net := entries[i].netAddress;
    var p := UpdatePasses(cfg, entries, input, changed);
    ResultKeys(p, Updated(cfg, entries, input, changed).entries);
    if entries[i].hosts == [] {
      EmptyEntryIsKept(input.snap, input.gone, entries, changed, i);
    } else {
      KeptIfAnySurvives(cfg, entries, input, changed, i);
      if net in p.r && net !in p.m { NetworksComeFrom(cfg, entries, input, changed, p, net); }
    }
  }

  lemma KeptIfAnySurvives(cfg: PluginConfig, entries: seq<Entry>, input: Input, changed: bool, i: nat)
    requires ConfigOk(cfg) && PlanOk(cfg, entries) && i < |entries| && entries[i].hosts != []
    ensures var m, net := KeepEntries(input.snap, input.gone, entries, changed).entries, entries[i].netAddress;
      && (net in m <==> AnySurvives(input, entries, i))
      && (net in m ==> m[net].vlanCidr == entries[i].vlanCidr)
  {
    var m, net := KeepEntries(input.snap, input.gone, entries, changed).entries, entries[i].netAddress;
    OnlyEntry(cfg, entries, i);
    forall a | IsRecord(entries, i, a)
      ensures Survives(input.snap, input.gone, entries, i, a) <==> net in m && entries[i].hosts[a] in m[net].hosts
    {
      KeptEntry(input.snap, input.gone, entries, changed, i, a);
    }
    KeptEntry(input.snap, input.gone, entries, changed, i, 0);
    if net in m {
      assert m[net].hosts[0] in entries[i].hosts;
      var a :| 0 <= a < |entries[i].hosts| && entries[i].hosts[a] == m[net].hosts[0];
      assert IsRecord(entries, i, a);
    }
  }

  // ---------- Which interface index a network gets ----------

  lemma TakenStays(cfg: PluginConfig, m: map<string, Entry>, m': map<string, Entry>, j: nat)
    requires ConfigOk(cfg) && Stays(m, m') && InterfaceTaken(cfg, m, j)
    ensures InterfaceTaken(cfg, m', j)
  {
    if !Tabu(cfg.subnet, cfg.interfaceBlock, j, cfg.excludes) {
      var k :| k in m && m[k].interfaceIndex == j;
      assert m'[k].interfaceIndex == j;
    }
  }

  ghost predicate Lowest(cfg: PluginConfig, m: map<string, Entry>, net: string)
    requires ConfigOk(cfg) && net in m
  {
    forall j: nat :: j < m[net].interfaceIndex ==> InterfaceTaken(cfg, m, j)
  }

  lemma OpenedIsLowest(cfg: PluginConfig, w: Work, v: Visit)
    requires ConfigOk(cfg) && w.Work? && MapOk(cfg, w.entries)
    ensures var r, net := VisitOne(cfg, w, v), v.iface.netAddress;
      r.Work? && (net in r.entries && net !in w.entries ==> forall j: nat :: j < r.entries[net].interfaceIndex ==> InterfaceTaken(cfg, w.entries, j))
  {
    var net := v.iface.netAddress;
    VisitTouchesOneNet(cfg, w, v);
    InterfaceEntryExactly(cfg, w.entries, net);
    var found := InterfaceEntry(cfg, w.entries, net);
    if found.Some? && net !in w.entries {
      InterfaceEntryOk(cfg, w.entries, net);
      TryAddOk(cfg, found.value, v);
    }
  }

  lemma {:induction false} PassOpensLowest(cfg: PluginConfig, w: Work, visits: seq<Visit>, net: string)
    requires ConfigOk(cfg) && w.Work? && MapOk(cfg, w.entries) && net !in w.entries
    ensures var r := VisitAll(cfg, w, visits); r.Work? && (net in r.entries ==> Lowest(cfg, r.entries, net))
  {
    if visits != [] {
      var n := |visits| - 1;
      PassOpensLowest(cfg, w, visits[..n], net);
      SecondPassOk(cfg, w, visits[..n]);
      var mid, r := VisitAll(cfg, w, visits[..n]), VisitAll(cfg, w, visits);
      VisitStays(cfg, mid, visits[n]);
      VisitTouchesOneNet(cfg, mid, visits[n]);
      OpenedIsLowest(cfg, mid, visits[n]);
      if net in r.entries {
        forall j: nat | j < r.entries[net].interfaceIndex ensures InterfaceTaken(cfg, r.entries, j) {
          TakenStays(cfg, mid.entries, r.entries, j);
        }
      }
    }
  }

  // A network is on the interface index it had before, or on one below which every
  // other is taken.
  lemma NetworkIndexIsLowest(cfg: PluginConfig, entries: seq<Entry>, input: Input, changed: bool, net: string)
    requires ConfigOk(cfg) && PlanOk(cfg, entries) && StoredLengths(cfg, entries) && InputOk(input) && KeyedByHost(input.snap)
    requires var w := Updated(cfg, entries, input, changed); w.Work? && net in w.entries
    ensures var m := Updated(cfg, entries, input, changed).entries;
      || (exists i :: 0 <= i < |entries| && entries[i].netAddress == net && entries[i].interfaceIndex == m[net].interfaceIndex)
      || Lowest(cfg, m, net)
  {
    var p := UpdatePasses(cfg, entries, input, changed);
    var m := Updated(cfg, entries, input, changed).entries;
    ResultKeys(p, m);
    KeepIsFromPlan(input.snap, input.gone, entries, changed);
    if net !in p.m {
      var k := KeepEntries(input.snap, input.gone, entries, changed);
      PassOpensLowest(cfg, Work(k.entries, k.changed), Visits(input.snap, input.order), net);
      assert forall j: nat :: InterfaceTaken(cfg, p.r, j) ==> InterfaceTaken(cfg, m, j);
    }
  }

  // ---------- Over runs ----------

  lemma TransitionStaysOnMasters(cfg: PluginConfig, plan: seq<Entry>, r: Round, plan': seq<Entry>, i: nat)
    requires ConfigOk(cfg) && PlanOk(cfg, plan) && Transition(cfg, plan, r, plan') && KeyedByHost(r.input.snap) && i < |plan'|
    ensures Stored(plan, plan'[i].netAddress) || cfg.masterNets == [] || plan'[i].netAddress in cfg.masterNets
  {
    TransitionOk(cfg, plan, r, plan');
    if plan' != plan { AddedOnlyIfShown(cfg, plan, r.input, r.isNew); }
  }

  // With master networks given, a run never leaves them.
  lemma {:induction false} RunStaysOnMasters(cfg: PluginConfig, plans: seq<seq<Entry>>, rounds: seq<Round>, t: nat, i: nat)
    requires ConfigOk(cfg) && IsRun(cfg, plans, rounds) && t < |plans| && i < |plans[t]|
    requires forall u :: 0 <= u < |rounds| ==> KeyedByHost(rounds[u].input.snap)
    ensures cfg.masterNets == [] || plans[t][i].netAddress in cfg.masterNets
    decreases t
  {
    if t == 0 {
      FirstPlanExactly(cfg, i);
    } else {
      RunKeepsPlanOk(cfg, plans, rounds, t - 1);
      TransitionStaysOnMasters(cfg, plans[t - 1], rounds[t - 1], plans[t], i);
      if Stored(plans[t - 1], plans[t][i].netAddress) {
        var j :| 0 <= j < |plans[t - 1]| && plans[t - 1][j].netAddress == plans[t][i].netAddress;
        RunStaysOnMasters(cfg, plans, rounds, t - 1, j);
      }
    }
  }
}
