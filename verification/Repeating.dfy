// What UpdateEntries reports when it runs again on a plan it has settled: the
// entries stay, but a host with several interfaces on one network is reported.
module Repeating {
  import opened Compute
  import opened Plan
  import opened Reconcile
  import opened ReconcileSafe
  import opened Runs
  import opened Stability
  import opened Settling
  import opened Membership
  import opened Fixpoint
  import opened Reporting
  import opened Samples

  // A visit of a host that has a record on the network.
  ghost predicate Recorded(cfg: PluginConfig, m: map<string, Entry>, v: Visit)
  {
    Watched(cfg, v) && v.iface.netAddress in m && HostPos(m[v.iface.netAddress].hosts, v.hostName) >= 0
  }

  // The host has no record, although its network has an entry.
  ghost predicate TurnedAway(cfg: PluginConfig, m: map<string, Entry>, v: Visit)
  {
    Watched(cfg, v) && v.iface.netAddress in m && HostPos(m[v.iface.netAddress].hosts, v.hostName) == -1
  }

  // Visit j shows another interface than the record has by then: that of the last
  // visit before it, or the stored one.
  ghost predicate Flips(cfg: PluginConfig, m: map<string, Entry>, visits: seq<Visit>, j: nat)
    requires j < |visits|
  {
    && Recorded(cfg, m, visits[j])
    && var v := visits[j];
       var hosts := m[v.iface.netAddress].hosts;
       !Current(ByLast(cfg, visits[..j], v.iface.netAddress, hosts[HostPos(hosts, v.hostName)]), v)
  }

  ghost predicate AllQuiet(cfg: PluginConfig, m: map<string, Entry>, visits: seq<Visit>)
    requires Fits(cfg) && VlanLengths(cfg, m)
  {
    forall i :: 0 <= i < |visits| ==> Quiet(cfg, m, visits[i])
  }

  lemma QuietEffect(cfg: PluginConfig, m: map<string, Entry>, init: seq<Visit>, v: Visit)
    requires ConfigOk(cfg) && MapOk(cfg, m) && Quiet(cfg, m, v) && MapOk(cfg, MapByLast(cfg, init, m))
    ensures var m' := MapByLast(cfg, init, m);
      && (Rejected(cfg, m', v) <==> TurnedAway(cfg, m, v))
      && (Alters(cfg, m', v) <==>
            && Recorded(cfg, m, v)
            && var hosts := m[v.iface.netAddress].hosts;
               !Current(ByLast(cfg, init, v.iface.netAddress, hosts[HostPos(hosts, v.hostName)]), v))
  {
    var net, m' := v.iface.netAddress, MapByLast(cfg, init, m);
    if Watched(cfg, v) {
      if net in m {
        SameIndexesSameChoice(cfg, m[net], m'[net], v);
      } else {
        NoInterfaceLeft(cfg, m, m', net);
      }
    }
  }

  // What the visits do to entries that are settled.
  lemma QuietEffects(cfg: PluginConfig, m: map<string, Entry>, visits: seq<Visit>, j: nat)
    requires ConfigOk(cfg) && MapOk(cfg, m) && AllQuiet(cfg, m, visits) && j < |visits|
    ensures Effects(cfg, Work(m, false), visits)[j] == Effect(Flips(cfg, m, visits, j), TurnedAway(cfg, m, visits[j]))
  {
    EffectAt(cfg, Work(m, false), visits, j);
    QuietPassRefreshes(cfg, m, false, visits[..j]);
    SecondPassOk(cfg, Work(m, false), visits[..j]);
    QuietEffect(cfg, m, visits[..j], visits[j]);
  }

  // A visit flips a record and no host is turned away after it.
  ghost predicate Restless(cfg: PluginConfig, m: map<string, Entry>, visits: seq<Visit>)
  {
    exists j :: 0 <= j < |visits| && Flips(cfg, m, visits, j) && forall k :: j < k < |visits| ==> !TurnedAway(cfg, m, visits[k])
  }

  lemma RestlessIsNotHidden(cfg: PluginConfig, m: map<string, Entry>, visits: seq<Visit>, effects: seq<Effect>)
    requires |effects| == |visits|
    requires forall j :: 0 <= j < |visits| ==> effects[j] == Effect(Flips(cfg, m, visits, j), TurnedAway(cfg, m, visits[j]))
    ensures Restless(cfg, m, visits) <==> !Hidden(false, effects)
  {
    if Restless(cfg, m, visits) {
      var j :| 0 <= j < |visits| && Flips(cfg, m, visits, j) && forall k :: j < k < |visits| ==> !TurnedAway(cfg, m, visits[k]);
      assert effects[j].alters && NoRejectFrom(effects, j + 1);
    }
    if !Hidden(false, effects) {
      var j :| 0 <= j < |effects| && effects[j].alters && NoRejectFrom(effects, j + 1);
      assert Flips(cfg, m, visits, j);
    }
  }

  lemma QuietPassReports(cfg: PluginConfig, m: map<string, Entry>, visits: seq<Visit>)
    requires ConfigOk(cfg) && MapOk(cfg, m) && AllQuiet(cfg, m, visits)
    ensures var r := VisitAll(cfg, Work(m, false), visits); r.Work? && (r.changed <==> Restless(cfg, m, visits))
  {
    var effects := Effects(cfg, Work(m, false), visits);
    ReportedExactly(cfg, Work(m, false), visits);
    forall j | 0 <= j < |visits| ensures effects[j] == Effect(Flips(cfg, m, visits, j), TurnedAway(cfg, m, visits[j])) {
      QuietEffects(cfg, m, visits, j);
    }
    RestlessIsNotHidden(cfg, m, visits, effects);
  }

  // Running an update again on its own result with the same snapshot reports a
  // change exactly when a visit flips a record and no host is turned away after it.
  lemma RepeatReportsExactly(cfg: PluginConfig, entries: seq<Entry>, first: Input, changed: bool, again: seq<Entry>, second: Input, dead: set<string>)
    requires ConfigOk(cfg) && PlanOk(cfg, entries) && StoredLengths(cfg, entries)
    requires InputOk(first) && InputOk(second) && second.snap == first.snap && KeyedByHost(first.snap)
    requires Consistent(first.gone, entries, dead) && Consistent(second.gone, again, dead)
    requires var w := Updated(cfg, entries, first, changed); w.Work? && Listing(w.entries, again)
    ensures StoredLengths(cfg, again)
    ensures var m, visits := Updated(cfg, entries, first, changed).entries, Visits(second.snap, second.order);
      Updated(cfg, again, second, false) == Work(m, Restless(cfg, m, visits))
  {
    UpdateIsIdempotent(cfg, entries, first, changed, again, second, dead);
    var m, visits := Updated(cfg, entries, first, changed).entries, Visits(second.snap, second.order);
    forall i | 0 <= i < |visits| ensures Quiet(cfg, m, visits[i]) { VisitsAreInSnapshot(second.snap, second.order, i); }
    QuietPassReports(cfg, m, visits);
  }

  // ---------- Which hosts flip ----------

  ghost predicate Differ(u: Iface, v: Iface)
  {
    u.interfaceName != v.interfaceName || u.hostIP != v.hostIP
  }

  // A host with a record has two different interfaces on the network.
  ghost predicate TwoFaced(cfg: PluginConfig, m: map<string, Entry>, u: Visit, v: Visit)
  {
    Recorded(cfg, m, v) && u.hostName == v.hostName && u.iface.netAddress == v.iface.netAddress && Differ(u.iface, v.iface)
  }

  ghost predicate AnyTwoFaced(cfg: PluginConfig, m: map<string, Entry>, snap: Snapshot)
  {
    exists u, v :: InSnapshot(snap, u) && InSnapshot(snap, v) && TwoFaced(cfg, m, u, v)
  }

  lemma FlipIsTwoFaced(cfg: PluginConfig, m: map<string, Entry>, snap: Snapshot, order: seq<string>, j: nat)
    requires ConfigOk(cfg) && MapOk(cfg, m) && OrderOk(snap, order) && Settled(cfg, m, snap)
    requires j < |Visits(snap, order)| && Flips(cfg, m, Visits(snap, order), j)
    ensures AnyTwoFaced(cfg, m, snap)
  {
    var visits := Visits(snap, order);
    var v := visits[j];
    var net := v.iface.netAddress;
    var h := m[net].hosts[HostPos(m[net].hosts, v.hostName)];
    VisitsAreInSnapshot(snap, order, j);
    var before, last := LastVisit(visits[..j], net, v.hostName), LastVisit(visits, net, v.hostName);
    assert v in visits;
    LastVisitIsLastOn(snap, order, net, v.hostName);
    assert h in m[net].hosts;
    var u := if before.Some? then before.value else last.value;
    assert u in visits by { if before.Some? { assert u in visits[..j]; } }
    var i :| 0 <= i < |visits| && visits[i] == u;
    VisitsAreInSnapshot(snap, order, i);
    assert TwoFaced(cfg, m, u, v);
  }

  // As long as no visit flips, the stored record is the one each visit finds.
  lemma {:induction false} UnflippedStays(cfg: PluginConfig, m: map<string, Entry>, visits: seq<Visit>, j: nat, net: string, h: HostInfo)
    requires ConfigOk(cfg) && MapOk(cfg, m) && j <= |visits| && forall i :: 0 <= i < j ==> !Flips(cfg, m, visits, i)
    requires net in m && h in m[net].hosts
    ensures ByLast(cfg, visits[..j], net, h) == h
  {
    if j > 0 {
      var v := visits[j - 1];
      UnflippedStays(cfg, m, visits, j - 1, net, h);
      ByLastExtends(cfg, visits[..j - 1], v, net, h);
      assert visits[..j] == visits[..j - 1] + [v];
      if v.hostName == h.hostName && v.iface.netAddress == net && Watched(cfg, v) {
        PositionOf(m[net].hosts, v.hostName);
        SameNameSameRecord(m[net].hosts, m[net].hosts[HostPos(m[net].hosts, v.hostName)], h);
        assert !Flips(cfg, m, visits, j - 1);
        RefreshedIsSame(cfg, h, v);
      }
    }
  }

  lemma UnflippedIsCurrent(cfg: PluginConfig, m: map<string, Entry>, snap: Snapshot, order: seq<string>, v: Visit)
    requires ConfigOk(cfg) && MapOk(cfg, m) && OrderOk(snap, order) && InSnapshot(snap, v) && Recorded(cfg, m, v)
    requires forall j :: 0 <= j < |Visits(snap, order)| ==> !Flips(cfg, m, Visits(snap, order), j)
    ensures var hosts := m[v.iface.netAddress].hosts; Current(hosts[HostPos(hosts, v.hostName)], v)
  {
    var visits, hosts := Visits(snap, order), m[v.iface.netAddress].hosts;
    var h := hosts[HostPos(hosts, v.hostName)];
    var k, a :| k in snap && 0 <= a < |snap[k].ifaces| && v == Visit(snap[k].hostName, snap[k].ifaces[a]);
    SnapshotIsVisited(snap, order, k, a);
    var j :| 0 <= j < |visits| && visits[j] == v;
    assert h in hosts;
    UnflippedStays(cfg, m, visits, j, v.iface.netAddress, h);
    assert !Flips(cfg, m, visits, j);
  }

  // Some visit flips exactly if a host with a record has two different interfaces
  // on one network; so with one interface per network nothing is reported.
  lemma FlipsExactly(cfg: PluginConfig, m: map<string, Entry>, snap: Snapshot, order: seq<string>)
    requires ConfigOk(cfg) && MapOk(cfg, m) && OrderOk(snap, order) && Settled(cfg, m, snap)
    ensures (exists j :: 0 <= j < |Visits(snap, order)| && Flips(cfg, m, Visits(snap, order), j)) <==> AnyTwoFaced(cfg, m, snap)
  {
    if j :| 0 <= j < |Visits(snap, order)| && Flips(cfg, m, Visits(snap, order), j) {
      FlipIsTwoFaced(cfg, m, snap, order, j);
    } else if AnyTwoFaced(cfg, m, snap) {
      var u, v :| InSnapshot(snap, u) && InSnapshot(snap, v) && TwoFaced(cfg, m, u, v);
      assert Recorded(cfg, m, u);
      UnflippedIsCurrent(cfg, m, snap, order, u);
      UnflippedIsCurrent(cfg, m, snap, order, v);
    }
  }

  // ---------- A host that is reported for ever ----------

  // Host A has two interfaces on network a.
  const Doubled: Input :=
    Input(map["A" := HostInterface("A", [Iface("a", "eth1", ""), Iface("a", "", "")])], (e, h) => false, ["A"])

  lemma DoubledVisits()
    ensures InputOk(Doubled) && KeyedByHost(Doubled.snap)
    ensures Visits(Doubled.snap, Doubled.order) == [Visit("A", Iface("a", "eth1", "")), Visit("A", Iface("a", "", ""))]
  {
    var snap, order := Doubled.snap, Doubled.order;
    assert order[..0] == [];
    assert Visits(snap, order) == Visits(snap, []) + IfaceVisits(snap["A"]);
  }

  // The update leaves the plan as it is and reports a change.
  ghost predicate ReportsUnchanged(cfg: PluginConfig, entries: seq<Entry>, input: Input)
    requires ConfigOk(cfg)
  {
    && PlanOk(cfg, entries) && StoredLengths(cfg, entries) && InputOk(input)
    && Updated(cfg, entries, input, false) == Work(MapOf(entries), true)
  }

  // The record of A shows the second interface, so the first one flips it.
  lemma DoubledFlips(cfg: PluginConfig, a: Entry, b: Entry)
    requires ConfigOk(cfg) && PlanOk(cfg, [a, b]) && cfg.masterNets == []
    requires a.netAddress == "a" && b.netAddress == "b" && |a.hosts| == 1 && b.hosts == []
    requires a.hosts[0].hostName == "A" && FreshRecord(a.hosts[0])
    ensures var m, visits := MapOf([a, b]), Visits(Doubled.snap, Doubled.order);
      MapOk(cfg, m) && AllQuiet(cfg, m, visits) && Restless(cfg, m, visits)
  {
    var entries := [a, b];
    var m, visits := MapOf(entries), Visits(Doubled.snap, Doubled.order);
    DoubledVisits();
    MapOfOnly(entries, 0);
    MapOfOk(cfg, entries);
    assert HostPos(a.hosts, "A") == 0;
    assert Recorded(cfg, m, visits[0]) && Recorded(cfg, m, visits[1]);
    assert visits[..0] == [];
    assert Flips(cfg, m, visits, 0);
  }

  lemma DoubledIsRestless(cfg: PluginConfig, a: Entry, b: Entry)
    requires ConfigOk(cfg) && PlanOk(cfg, [a, b]) && cfg.masterNets == []
    requires a.netAddress == "a" && b.netAddress == "b" && |a.hosts| == 1 && b.hosts == []
    requires a.hosts[0].hostName == "A" && FreshRecord(a.hosts[0])
    ensures ReportsUnchanged(cfg, [a, b], Doubled)
  {
    var m, visits := MapOf([a, b]), Visits(Doubled.snap, Doubled.order);
    PlanLengths(cfg, [a, b]);
    DoubledVisits();
    DoubledIsKept(cfg, a, b);
    DoubledFlips(cfg, a, b);
    QuietPassReports(cfg, m, visits);
    QuietPassRefreshes(cfg, m, false, visits);
    DoubledByLast(cfg, m, a, b);
  }

  lemma DoubledIsKept(cfg: PluginConfig, a: Entry, b: Entry)
    requires a.netAddress == "a" && |a.hosts| == 1 && a.hosts[0].hostName == "A" && b.hosts == []
    ensures KeepEntries(Doubled.snap, Doubled.gone, [a, b], false) == Kept(MapOf([a, b]), {}, false)
  {
    var entries := [a, b];
    assert OnNet(Doubled.snap["A"], "a") by { assert Doubled.snap["A"].ifaces[0].netAddress == "a"; }
    forall i, k | IsRecord(entries, i, k) ensures !Leaves(Doubled.snap, Doubled.gone, entries, i, k) {
      assert i == 0 && k == 0;
    }
    KeepAll(Doubled.snap, Doubled.gone, entries, false);
  }

  lemma DoubledByLast(cfg: PluginConfig, m: map<string, Entry>, a: Entry, b: Entry)
    requires a.netAddress == "a" && b.netAddress == "b" && m == MapOf([a, b]) && |a.hosts| == 1 && b.hosts == []
    requires a.hosts[0].hostName == "A" && FreshRecord(a.hosts[0])
    ensures MapByLast(cfg, Visits(Doubled.snap, Doubled.order), m) == m
  {
    DoubledVisits();
    var visits := Visits(Doubled.snap, Doubled.order);
    MapOfDistinct([a, b]);
    assert [a, b][0] == a && [a, b][1] == b;
    assert LastVisit(visits, "a", "A") == Some(visits[1]);
    RefreshedIsSame(cfg, a.hosts[0], visits[1]);
    assert AllByLast(cfg, visits, "a", a.hosts) == a.hosts;
    assert AllByLast(cfg, visits, "b", b.hosts) == b.hosts;
  }

  lemma PlanIsReportedForEver() returns (cfg: PluginConfig, entries: seq<Entry>)
    ensures ConfigOk(cfg) && ReportsUnchanged(cfg, entries, Doubled)
  {
    var c, a, b := SmallPlan(["A"], []);
    DoubledIsRestless(c, a, b);
    cfg, entries := c, [a, b];
  }
}
