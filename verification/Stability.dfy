// A host that stays in an entry keeps its index and its pod block.
module Stability {
  import opened Plan
  import opened Reconcile
  import opened ReconcileSafe
  import opened Runs

  // A host the snapshot still shows on the network is retained.
  lemma {:induction false} RetainKeepsPresent(snap: Snapshot, gone: Lookup, e: nat, net: string, hosts: seq<HostInfo>, start: Retained, h: HostInfo)
    requires h in hosts && h.hostName in snap && OnNet(snap[h.hostName], net)
    ensures h in Retain(snap, gone, e, net, hosts, start).kept
  {
    if h in hosts[..|hosts| - 1] {
      RetainKeepsPresent(snap, gone, e, net, hosts[..|hosts| - 1], start, h);
    } else {
      assert h == hosts[|hosts| - 1];
    }
  }

  // What the first pass makes of the only entry of a network.
  ghost predicate Trimmed(snap: Snapshot, e: Entry, m: map<string, Entry>)
  {
    var net := e.netAddress;
    && (net in m ==> m[net] == e.(hosts := m[net].hosts) && forall h :: h in m[net].hosts ==> h in e.hosts)
    && (forall h :: h in e.hosts && h.hostName in snap && OnNet(snap[h.hostName], net) ==>
          net in m && h in m[net].hosts)
  }

  lemma {:induction false} KeepTrims(snap: Snapshot, gone: Lookup, entries: seq<Entry>, changed: bool, i: nat)
    requires i < |entries| && HostsDistinct(entries[i].hosts)
    requires forall j :: 0 <= j < |entries| && j != i ==> entries[j].netAddress != entries[i].netAddress
    ensures Trimmed(snap, entries[i], KeepEntries(snap, gone, entries, changed).entries)
  {
    var n := |entries| - 1;
    var w := KeepEntries(snap, gone, entries[..n], changed);
    if i < n {
      KeepTrims(snap, gone, entries[..n], changed, i);
    } else {
      var e := entries[n];
      KeepHasNoOther(snap, gone, entries[..n], changed, e.netAddress);
      var start := Retained([], w.died, w.changed);
      RetainSelects(snap, gone, n, e.netAddress, e.hosts, w.died, w.changed);
      forall h | h in e.hosts && h.hostName in snap && OnNet(snap[h.hostName], e.netAddress)
        ensures h in Retain(snap, gone, n, e.netAddress, e.hosts, start).kept
      {
        RetainKeepsPresent(snap, gone, n, e.netAddress, e.hosts, start, h);
      }
    }
  }

  lemma {:induction false} KeepHasNoOther(snap: Snapshot, gone: Lookup, entries: seq<Entry>, changed: bool, net: string)
    requires forall j :: 0 <= j < |entries| ==> entries[j].netAddress != net
    ensures net !in KeepEntries(snap, gone, entries, changed).entries
  {
    if entries != [] { KeepHasNoOther(snap, gone, entries[..|entries| - 1], changed, net); }
  }

  lemma {:induction false} VisitsComeFromSnapshot(snap: Snapshot, order: seq<string>, i: nat)
    requires forall k :: 0 <= k < |order| ==> order[k] in snap
    requires i < |Visits(snap, order)| && KeyedByHost(snap)
    ensures var v := Visits(snap, order)[i]; v.hostName in snap && OnNet(snap[v.hostName], v.iface.netAddress)
  {
    var n := |order| - 1;
    var before := Visits(snap, order[..n]);
    if i < |before| {
      VisitsComeFromSnapshot(snap, order[..n], i);
    } else {
      assert IfaceVisits(snap[order[n]])[i - |before|] == Visits(snap, order)[i];
    }
  }

  ghost predicate Agree(e: Entry, h: HostInfo, e': Entry, h': HostInfo)
  {
    && e'.interfaceIndex == e.interfaceIndex && e'.vlanCidr == e.vlanCidr
    && h'.hostIndex == h.hostIndex && h'.podCidr == h.podCidr
  }

  // A record found after the second pass was there before, on the same block.
  lemma SecondPassAgrees(cfg: PluginConfig, snap: Snapshot, order: seq<string>, e: Entry, h: HostInfo, m: map<string, Entry>, changed: bool, h': HostInfo)
    requires ConfigOk(cfg) && MapOk(cfg, m) && Trimmed(snap, e, m) && KeyedByHost(snap)
    requires HostsDistinct(e.hosts) && h in e.hosts
    requires forall k :: 0 <= k < |order| ==> order[k] in snap
    requires var r := VisitAll(cfg, Work(m, changed), Visits(snap, order));
      r.Work? && e.netAddress in r.entries && h' in r.entries[e.netAddress].hosts && h'.hostName == h.hostName
    ensures Agree(e, h, VisitAll(cfg, Work(m, changed), Visits(snap, order)).entries[e.netAddress], h')
  {
    var visits, net := Visits(snap, order), e.netAddress;
    var r := VisitAll(cfg, Work(m, changed), visits);
    VisitsStay(cfg, Work(m, changed), visits);
    SecondPassOk(cfg, Work(m, changed), visits);
    assert HasRecord(r.entries, net, h.hostName);
    assert net in m && h in m[net].hosts by {
      if HasRecord(m, net, h.hostName) {
        var g :| g in m[net].hosts && g.hostName == h.hostName;
        SameNameSameRecord(e.hosts, g, h);
      } else {
        var i :| 0 <= i < |visits| && visits[i].hostName == h.hostName && visits[i].iface.netAddress == net;
        VisitsComeFromSnapshot(snap, order, i);
      }
    }
    var g' :| g' in r.entries[net].hosts && SameBlock(h, g');
    SameNameSameRecord(r.entries[net].hosts, g', h');
  }

  lemma SameNameSameRecord(hosts: seq<HostInfo>, g: HostInfo, h: HostInfo)
    requires HostsDistinct(hosts) && g in hosts && h in hosts && g.hostName == h.hostName
    ensures g == h
  {
    var i :| 0 <= i < |hosts| && hosts[i] == g;
    var j :| 0 <= j < |hosts| && hosts[j] == h;
    assert !(i < j) && !(j < i);
  }

  lemma {:induction false} AliveIn(hosts: seq<HostInfo>, died: set<string>, h: HostInfo)
    requires h in Alive(hosts, died)
    ensures h in hosts
  {
    if h in Alive(hosts[..|hosts| - 1], died) { AliveIn(hosts[..|hosts| - 1], died, h); }
  }

  lemma OnlyEntry(cfg: PluginConfig, entries: seq<Entry>, i: nat)
    requires ConfigOk(cfg) && PlanOk(cfg, entries) && i < |entries| && entries[i].hosts != []
    ensures forall j :: 0 <= j < |entries| && j != i ==> entries[j].netAddress != entries[i].netAddress
  {
  }

  lemma UpdateAgrees(cfg: PluginConfig, entries: seq<Entry>, input: Input, changed: bool, i: nat, h: HostInfo, h': HostInfo)
    requires ConfigOk(cfg) && PlanOk(cfg, entries) && InputOk(input) && KeyedByHost(input.snap)
    requires i < |entries| && h in entries[i].hosts
    requires StoredLengths(cfg, entries)
    requires var w := Updated(cfg, entries, input, changed);
      && w.Work? && entries[i].netAddress in w.entries
      && h' in w.entries[entries[i].netAddress].hosts && h'.hostName == h.hostName
    ensures Agree(entries[i], h, Updated(cfg, entries, input, changed).entries[entries[i].netAddress], h')
  {
    var e := entries[i];
    var k := KeepEntries(input.snap, input.gone, entries, changed);
    OnlyEntry(cfg, entries, i);
    KeepTrims(input.snap, input.gone, entries, changed, i);
    FirstPassOk(cfg, input.snap, input.gone, entries, changed);
    var r := VisitAll(cfg, Work(k.entries, k.changed), Visits(input.snap, input.order));
    if h' !in r.entries[e.netAddress].hosts {
      AliveIn(r.entries[e.netAddress].hosts, k.died, h');
    }
    SecondPassAgrees(cfg, input.snap, input.order, e, h, k.entries, k.changed, h');
  }

  // ---------- Over runs ----------

  ghost predicate Present(plan: seq<Entry>, net: string, hostName: string)
  {
    exists i, a :: 0 <= i < |plan| && 0 <= a < |plan[i].hosts| && plan[i].netAddress == net && plan[i].hosts[a].hostName == hostName
  }

  lemma TransitionAgrees(cfg: PluginConfig, plan: seq<Entry>, r: Round, plan': seq<Entry>, i: nat, a: nat, j: nat, b: nat)
    requires ConfigOk(cfg) && PlanOk(cfg, plan) && Transition(cfg, plan, r, plan') && KeyedByHost(r.input.snap)
    requires i < |plan| && a < |plan[i].hosts| && j < |plan'| && b < |plan'[j].hosts|
    requires plan[i].netAddress == plan'[j].netAddress && plan[i].hosts[a].hostName == plan'[j].hosts[b].hostName
    ensures Agree(plan[i], plan[i].hosts[a], plan'[j], plan'[j].hosts[b])
  {
    TransitionOk(cfg, plan, r, plan');
    if plan' == plan {
      OnlyEntry(cfg, plan, i);
      SameNameSameRecord(plan[i].hosts, plan[i].hosts[a], plan'[j].hosts[b]);
    } else {
      UpdateAgrees(cfg, plan, r.input, r.isNew, i, plan[i].hosts[a], plan'[j].hosts[b]);
    }
  }

  // A plan has one record of a host on a network.
  lemma OneRecord(cfg: PluginConfig, plan: seq<Entry>, i: nat, a: nat, j: nat, b: nat)
    requires ConfigOk(cfg) && PlanOk(cfg, plan)
    requires i < |plan| && a < |plan[i].hosts| && j < |plan| && b < |plan[j].hosts|
    requires plan[i].netAddress == plan[j].netAddress && plan[i].hosts[a].hostName == plan[j].hosts[b].hostName
    ensures i == j && plan[i].hosts[a] == plan[j].hosts[b]
  {
    OnlyEntry(cfg, plan, i);
    SameNameSameRecord(plan[i].hosts, plan[i].hosts[a], plan[j].hosts[b]);
  }

  // Over any stretch of any run during which a host never leaves an entry, its
  // index, its pod block and the entry's VLAN block do not change.
  lemma {:induction false} StableWhilePresent(cfg: PluginConfig, plans: seq<seq<Entry>>, rounds: seq<Round>,
                                             s: nat, t: nat, i: nat, a: nat, j: nat, b: nat)
    requires ConfigOk(cfg) && IsRun(cfg, plans, rounds) && s <= t < |plans|
    requires forall u :: s <= u < t ==> KeyedByHost(rounds[u].input.snap)
    requires i < |plans[s]| && a < |plans[s][i].hosts| && j < |plans[t]| && b < |plans[t][j].hosts|
    requires plans[s][i].netAddress == plans[t][j].netAddress
    requires plans[s][i].hosts[a].hostName == plans[t][j].hosts[b].hostName
    requires forall u :: s <= u <= t ==> Present(plans[u], plans[s][i].netAddress, plans[s][i].hosts[a].hostName)
    ensures Agree(plans[s][i], plans[s][i].hosts[a], plans[t][j], plans[t][j].hosts[b])
    decreases t
  {
    var net, name := plans[s][i].netAddress, plans[s][i].hosts[a].hostName;
    if s == t {
      RunKeepsPlanOk(cfg, plans, rounds, t);
      OneRecord(cfg, plans[s], i, a, j, b);
    } else {
      assert Present(plans[t - 1], net, name);
      var i', a' :| 0 <= i' < |plans[t - 1]| && 0 <= a' < |plans[t - 1][i'].hosts| &&
                    plans[t - 1][i'].netAddress == net && plans[t - 1][i'].hosts[a'].hostName == name;
      StableWhilePresent(cfg, plans, rounds, s, t - 1, i, a, i', a');
      RunKeepsPlanOk(cfg, plans, rounds, t - 1);
      TransitionAgrees(cfg, plans[t - 1], rounds[t - 1], plans[t], i', a', j, b);
    }
  }
}
