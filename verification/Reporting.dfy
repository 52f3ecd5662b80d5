// The `changed` result of UpdateEntries, on which storing the new plan depends.
module Reporting {
  import opened Powers
  import opened Plan
  import opened Indexing
  import opened Reconcile
  import opened ReconcileSafe
  import opened Runs
  import opened Stability
  import opened Settling
  import opened Membership
  import opened Fixpoint
  import opened Samples

  // ---------- One visit ----------

  // The visit finds no index for a new host.
  ghost predicate Rejected(cfg: PluginConfig, m: map<string, Entry>, v: Visit)
    requires Fits(cfg) && VlanLengths(cfg, m)
  {
    && Watched(cfg, v)
    && var e := InterfaceEntry(cfg, m, v.iface.netAddress);
       e.Some? && HostPos(e.value.hosts, v.hostName) == -1 && TryAdd(cfg, e.value, v).None?
  }

  // The host is new and there is an index for it, or its record is out of date.
  ghost predicate Alters(cfg: PluginConfig, m: map<string, Entry>, v: Visit)
    requires Fits(cfg) && VlanLengths(cfg, m)
  {
    && Watched(cfg, v)
    && var e := InterfaceEntry(cfg, m, v.iface.netAddress);
       && e.Some?
       && var p := HostPos(e.value.hosts, v.hostName);
          if p == -1 then TryAdd(cfg, e.value, v).Some? else !Current(e.value.hosts[p], v)
  }

  // A rejected host whose network had no entry leaves an empty one behind.
  ghost predicate Opens(cfg: PluginConfig, m: map<string, Entry>, v: Visit)
    requires Fits(cfg) && VlanLengths(cfg, m)
  {
    Rejected(cfg, m, v) && v.iface.netAddress !in m
  }

  lemma RefreshedIsSame(cfg: PluginConfig, h: HostInfo, v: Visit)
    ensures Refreshed(cfg, h, h.podCidr, v) == h <==> Current(h, v)
  {
  }

  lemma RefreshReports(cfg: PluginConfig, w: Work, v: Visit)
    requires ConfigOk(cfg) && w.Work? && MapOk(cfg, w.entries) && v.iface.netAddress in w.entries && Watched(cfg, v)
    requires HostPos(w.entries[v.iface.netAddress].hosts, v.hostName) >= 0
    ensures var r := VisitOne(cfg, w, v);
      r.Work? && r.changed == (w.changed || Alters(cfg, w.entries, v)) && (r.entries != w.entries <==> Alters(cfg, w.entries, v))
  {
    var e := w.entries[v.iface.netAddress];
    var p := HostPos(e.hosts, v.hostName);
    RefreshOk(cfg, e, p, v);
    RefreshedIsSame(cfg, e.hosts[p], v);
    var hosts' := e.hosts[p := Refreshed(cfg, e.hosts[p], e.hosts[p].podCidr, v)];
    if Current(e.hosts[p], v) {
      assert hosts' == e.hosts;
      assert w.entries[v.iface.netAddress := e] == w.entries;
    } else {
      assert hosts'[p] != e.hosts[p];
    }
  }

  // What a visit reports, and when it changes an entry.
  lemma VisitReports(cfg: PluginConfig, w: Work, v: Visit)
    requires ConfigOk(cfg) && w.Work? && MapOk(cfg, w.entries)
    ensures var r := VisitOne(cfg, w, v);
      && r.Work?
      && r.changed == ((w.changed && !Rejected(cfg, w.entries, v)) || Alters(cfg, w.entries, v))
      && (r.entries != w.entries <==> Alters(cfg, w.entries, v) || Opens(cfg, w.entries, v))
  {
    VisitOk(cfg, w, v);
    var net := v.iface.netAddress;
    var found := InterfaceEntry(cfg, w.entries, net);
    if Watched(cfg, v) && found.Some? {
      var e := found.value;
      if HostPos(e.hosts, v.hostName) >= 0 {
        RefreshReports(cfg, w, v);
      } else if TryAdd(cfg, e, v).Some? {
        assert |TryAdd(cfg, e, v).value.hosts| == |e.hosts| + 1;
      } else if net in w.entries {
        RejectStores(cfg, w, v);
      }
    }
  }

  // ---------- The second pass ----------

  datatype Effect = Effect(alters: bool, rejects: bool)

  ghost function EffectOf(cfg: PluginConfig, m: map<string, Entry>, v: Visit): Effect
    requires Fits(cfg) && VlanLengths(cfg, m)
  {
    Effect(Alters(cfg, m, v), Rejected(cfg, m, v))
  }

  // What each visit of the second pass does, in order.
  ghost function Effects(cfg: PluginConfig, w: Work, visits: seq<Visit>): (s: seq<Effect>)
    requires ConfigOk(cfg) && w.Work? && MapOk(cfg, w.entries)
    ensures |s| == |visits|
  {
    if visits == [] then []
    else
      var n := |visits| - 1;
      SecondPassOk(cfg, w, visits[..n]);
      var m := VisitAll(cfg, w, visits[..n]).entries;
      Effects(cfg, w, visits[..n]) + [EffectOf(cfg, m, visits[n])]
  }

  lemma {:induction false} EffectAt(cfg: PluginConfig, w: Work, visits: seq<Visit>, j: nat)
    requires ConfigOk(cfg) && w.Work? && MapOk(cfg, w.entries) && j < |visits|
    ensures var r := VisitAll(cfg, w, visits[..j]);
      r.Work? && Effects(cfg, w, visits)[j] == EffectOf(cfg, r.entries, visits[j])
  {
    var n := |visits| - 1;
    EffectsExtend(cfg, w, visits);
    if j < n {
      EffectAt(cfg, w, visits[..n], j);
      assert visits[..n][..j] == visits[..j];
    }
  }

  lemma EffectsExtend(cfg: PluginConfig, w: Work, visits: seq<Visit>)
    requires ConfigOk(cfg) && w.Work? && MapOk(cfg, w.entries) && visits != []
    ensures var n := |visits| - 1;
      var r := VisitAll(cfg, w, visits[..n]);
      r.Work? && Effects(cfg, w, visits) == Effects(cfg, w, visits[..n]) + [EffectOf(cfg, r.entries, visits[n])]
  {
    SecondPassOk(cfg, w, visits[..|visits| - 1]);
  }

  ghost function Report(changed: bool, effects: seq<Effect>): bool
  {
    if effects == [] then changed
    else
      var last := effects[|effects| - 1];
      (Report(changed, effects[..|effects| - 1]) && !last.rejects) || last.alters
  }

  ghost predicate NoRejectFrom(effects: seq<Effect>, i: nat)
  {
    forall k :: i <= k < |effects| ==> !effects[k].rejects
  }

  lemma {:induction false} ReportExactly(changed: bool, effects: seq<Effect>)
    ensures Report(changed, effects) <==>
      || (changed && NoRejectFrom(effects, 0))
      || exists j :: 0 <= j < |effects| && effects[j].alters && NoRejectFrom(effects, j + 1)
  {
    if effects != [] {
      var n := |effects| - 1;
      var init := effects[..n];
      ReportExactly(changed, init);
      if effects[n].alters {
        assert NoRejectFrom(effects, n + 1);
      } else if Report(changed, effects) {
        if !(changed && NoRejectFrom(init, 0)) {
          var j :| 0 <= j < n && init[j].alters && NoRejectFrom(init, j + 1);
          assert effects[j].alters && NoRejectFrom(effects, j + 1);
        }
      } else {
        forall j | 0 <= j < |effects| && effects[j].alters ensures !NoRejectFrom(effects, j + 1) {
          assert init[j].alters;
          if !effects[n].rejects { assert !NoRejectFrom(init, j + 1); }
        }
      }
    }
  }

  lemma {:induction false} SecondPassReports(cfg: PluginConfig, w: Work, visits: seq<Visit>)
    requires ConfigOk(cfg) && w.Work? && MapOk(cfg, w.entries)
    ensures var r := VisitAll(cfg, w, visits);
      && r.Work? && r.changed == Report(w.changed, Effects(cfg, w, visits))
      && (NoRejectFrom(Effects(cfg, w, visits), 0) && !r.changed ==> r == w)
  {
    if visits != [] {
      var n := |visits| - 1;
      var effects := Effects(cfg, w, visits);
      SecondPassReports(cfg, w, visits[..n]);
      SecondPassOk(cfg, w, visits[..n]);
      VisitReports(cfg, VisitAll(cfg, w, visits[..n]), visits[n]);
      assert effects[..n] == Effects(cfg, w, visits[..n]);
      assert NoRejectFrom(effects, 0) ==> NoRejectFrom(effects[..n], 0) && !effects[n].rejects;
    }
  }

  // No change, made before the visits or by one of them, is without a rejected
  // host after it.
  ghost predicate Hidden(changed: bool, effects: seq<Effect>)
  {
    && (changed ==> !NoRejectFrom(effects, 0))
    && forall j :: 0 <= j < |effects| && effects[j].alters ==> !NoRejectFrom(effects, j + 1)
  }

  // The second pass reports a change exactly when some change is followed by no
  // rejected host.
  lemma ReportedExactly(cfg: PluginConfig, w: Work, visits: seq<Visit>)
    requires ConfigOk(cfg) && w.Work? && MapOk(cfg, w.entries)
    ensures var r := VisitAll(cfg, w, visits); r.Work? && (r.changed <==> !Hidden(w.changed, Effects(cfg, w, visits)))
  {
    SecondPassReports(cfg, w, visits);
    ReportExactly(w.changed, Effects(cfg, w, visits));
  }

  // ---------- The whole step ----------

  // A leaving record is not kept.
  lemma {:induction false} RetainDrops(snap: Snapshot, gone: Lookup, e: nat, net: string, hosts: seq<HostInfo>, start: Retained, a: int)
    requires start.kept == []
    ensures var kept := Retain(snap, gone, e, net, hosts, start).kept;
      && |kept| <= |hosts|
      && (0 <= a < |hosts| && (if hosts[a].hostName in snap then !OnNet(snap[hosts[a].hostName], net) else gone(e, a)) ==> |kept| < |hosts|)
  {
    if hosts != [] { RetainDrops(snap, gone, e, net, hosts[..|hosts| - 1], start, a); }
  }

  lemma {:induction false} RetainReports(snap: Snapshot, gone: Lookup, e: nat, net: string, hosts: seq<HostInfo>, start: Retained)
    ensures var r := Retain(snap, gone, e, net, hosts, start); (start.changed ==> r.changed) && start.died <= r.died
  {
    if hosts != [] { RetainReports(snap, gone, e, net, hosts[..|hosts| - 1], start); }
  }

  // The first pass reports a change exactly when it drops a host.
  lemma {:induction false} FirstPassReports(snap: Snapshot, gone: Lookup, entries: seq<Entry>, changed: bool)
    ensures KeepEntries(snap, gone, entries, changed).changed <==> changed || Drops(snap, gone, entries)
  {
    if !Drops(snap, gone, entries) {
      KeepAll(snap, gone, entries, changed);
    } else {
      var i, a :| IsRecord(entries, i, a) && Leaves(snap, gone, entries, i, a);
      var n := |entries| - 1;
      var w := KeepEntries(snap, gone, entries[..n], changed);
      var start := Retained([], w.died, w.changed);
      FirstPassReports(snap, gone, entries[..n], changed);
      RetainReports(snap, gone, n, entries[n].netAddress, entries[n].hosts, start);
      if i < n {
        assert IsRecord(entries[..n], i, a) && Leaves(snap, gone, entries[..n], i, a);
      } else {
        RetainDrops(snap, gone, n, entries[n].netAddress, entries[n].hosts, start, a);
      }
    }
  }

  lemma {:induction false} MapOfOnly(entries: seq<Entry>, i: nat)
    requires i < |entries| && forall j :: 0 <= j < |entries| && j != i ==> entries[j].netAddress != entries[i].netAddress
    ensures entries[i].netAddress in MapOf(entries) && MapOf(entries)[entries[i].netAddress] == entries[i]
  {
    if i < |entries| - 1 { MapOfOnly(entries[..|entries| - 1], i); }
  }

  // A leaving host is gone from the result.
  lemma DropsAreSeen(cfg: PluginConfig, entries: seq<Entry>, input: Input, changed: bool)
    requires ConfigOk(cfg) && PlanOk(cfg, entries) && StoredLengths(cfg, entries) && InputOk(input) && KeyedByHost(input.snap)
    requires Drops(input.snap, input.gone, entries)
    ensures var w := Updated(cfg, entries, input, changed); w.Work? && w.entries != MapOf(entries)
  {
    var i, a :| IsRecord(entries, i, a) && Leaves(input.snap, input.gone, entries, i, a);
    KeptExactly(cfg, entries, input, changed, i, a);
    OnlyEntry(cfg, entries, i);
    MapOfOnly(entries, i);
    assert entries[i].hosts[a] in entries[i].hosts;
    assert HasRecord(MapOf(entries), entries[i].netAddress, entries[i].hosts[a].hostName);
  }

  // An update leaves the plan as it is exactly if no host leaves a network and the
  // plan is settled with the snapshot.
  lemma UnchangedExactly(cfg: PluginConfig, entries: seq<Entry>, input: Input, changed: bool)
    requires ConfigOk(cfg) && PlanOk(cfg, entries) && StoredLengths(cfg, entries) && InputOk(input) && KeyedByHost(input.snap)
    ensures MapOk(cfg, MapOf(entries))
    ensures var w := Updated(cfg, entries, input, changed);
      && w.Work?
      && (w.entries == MapOf(entries) <==> !Drops(input.snap, input.gone, entries) && Settled(cfg, MapOf(entries), input.snap))
  {
    MapOfOk(cfg, entries);
    if Drops(input.snap, input.gone, entries) {
      DropsAreSeen(cfg, entries, input, changed);
    } else {
      KeepAll(input.snap, input.gone, entries, changed);
      SettledExactly(cfg, MapOf(entries), changed, input.snap, input.order);
    }
  }

  // The visits of an update, with what they do.
  ghost function UpdateEffects(cfg: PluginConfig, entries: seq<Entry>, input: Input): seq<Effect>
    requires ConfigOk(cfg) && PlanOk(cfg, entries) && InputOk(input)
  {
    FirstPassOk(cfg, input.snap, input.gone, entries, false);
    var k := KeepEntries(input.snap, input.gone, entries, false);
    Effects(cfg, Work(k.entries, k.changed), Visits(input.snap, input.order))
  }

  // An update that changes the plan and does not report it.
  ghost predicate Lost(cfg: PluginConfig, entries: seq<Entry>, input: Input)
    requires ConfigOk(cfg)
  {
    && PlanOk(cfg, entries) && StoredLengths(cfg, entries) && InputOk(input)
    && var w := Updated(cfg, entries, input, false); w.Work? && !w.changed && w.entries != MapOf(entries)
  }

  // That is so exactly if a host leaves a network or the plan is not settled, and a
  // host is rejected after every change.
  lemma LostExactly(cfg: PluginConfig, entries: seq<Entry>, input: Input)
    requires ConfigOk(cfg) && PlanOk(cfg, entries) && StoredLengths(cfg, entries) && InputOk(input) && KeyedByHost(input.snap)
    ensures MapOk(cfg, MapOf(entries))
    ensures Lost(cfg, entries, input) <==>
      var drops := Drops(input.snap, input.gone, entries);
      (drops || !Settled(cfg, MapOf(entries), input.snap)) && Hidden(drops, UpdateEffects(cfg, entries, input))
  {
    UnchangedExactly(cfg, entries, input, false);
    FirstPassReports(input.snap, input.gone, entries, false);
    FirstPassOk(cfg, input.snap, input.gone, entries, false);
    var k := KeepEntries(input.snap, input.gone, entries, false);
    ReportedExactly(cfg, Work(k.entries, k.changed), Visits(input.snap, input.order));
  }

  // Without a rejected host no update is lost.
  lemma LostNeedsRejection(cfg: PluginConfig, entries: seq<Entry>, input: Input)
    requires ConfigOk(cfg) && PlanOk(cfg, entries) && InputOk(input) && NoRejectFrom(UpdateEffects(cfg, entries, input), 0)
    ensures !Lost(cfg, entries, input)
  {
    var k := KeepEntries(input.snap, input.gone, entries, false);
    PlanLengths(cfg, entries);
    FirstPassReports(input.snap, input.gone, entries, false);
    FirstPassOk(cfg, input.snap, input.gone, entries, false);
    ReportedExactly(cfg, Work(k.entries, k.changed), Visits(input.snap, input.order));
    SecondPassReports(cfg, Work(k.entries, k.changed), Visits(input.snap, input.order));
    if !Drops(input.snap, input.gone, entries) { KeepAll(input.snap, input.gone, entries, false); }
  }

  // ---------- An update that is lost ----------

  // Host A is in the snapshot but has left network a; hosts B and C fill network
  // b and are not in the snapshot, but their nodes exist; host D is new on b.
  function Leaving(iface: Iface): Input
  {
    Input(map["A" := HostInterface("A", []), "D" := HostInterface("D", [iface])], (e, h) => false, ["A", "D"])
  }

  lemma LeavingFirstPass(a: Entry, b: Entry, iface: Iface)
    requires a.netAddress == "a" && b.netAddress == "b" && iface.netAddress == "b"
    requires |a.hosts| == 1 && a.hosts[0].hostName == "A"
    requires |b.hosts| == 2 && b.hosts[0].hostName == "B" && b.hosts[1].hostName == "C"
    ensures KeepEntries(Leaving(iface).snap, Leaving(iface).gone, [a, b], false) == Kept(map["b" := b], {}, true)
  {
    var snap, gone := Leaving(iface).snap, Leaving(iface).gone;
    assert [a, b][..1] == [a] && [a][..0] == [];
    assert a.hosts[..0] == [] && b.hosts[..1] == [b.hosts[0]] && b.hosts[..1][..0] == [];
    assert Retain(snap, gone, 0, "a", a.hosts, Retained([], {}, false)) == Retained([], {}, false);
    assert KeepEntries(snap, gone, [a], false) == Kept(map[], {}, true);
    assert Retain(snap, gone, 1, "b", b.hosts[..1], Retained([], {}, true)) == Retained([b.hosts[0]], {}, true);
    assert b.hosts == [b.hosts[0], b.hosts[1]];
    assert Retain(snap, gone, 1, "b", b.hosts, Retained([], {}, true)) == Retained(b.hosts, {}, true);
  }

  lemma LeavingVisits(iface: Iface)
    ensures InputOk(Leaving(iface))
    ensures Visits(Leaving(iface).snap, Leaving(iface).order) == [Visit("D", iface)]
  {
    var snap, order := Leaving(iface).snap, Leaving(iface).order;
    assert order[..1] == ["A"] && ["A"][..0] == [];
    assert Visits(snap, ["A"]) == Visits(snap, []) + IfaceVisits(snap["A"]) == [];
    assert Visits(snap, order) == Visits(snap, order[..1]) + IfaceVisits(snap["D"]);
  }

  lemma BothUsed(hosts: seq<HostInfo>)
    requires |hosts| == 2 && hosts[0].hostIndex < 2 && hosts[1].hostIndex < 2 && hosts[0].hostIndex != hosts[1].hostIndex
    ensures 0 in UsedIndexes(hosts) && 1 in UsedIndexes(hosts)
  {
    assert hosts[0] in hosts && hosts[1] in hosts;
  }

  lemma FullEntryRejects(cfg: PluginConfig, b: Entry, v: Visit)
    requires ConfigOk(cfg) && EntryOk(cfg, b) && cfg.hostBlock == 1 && |b.hosts| == 2
    ensures TryAdd(cfg, b, v).None?
  {
    assert Pow2(1) == 2;
    assert HostOk(cfg, b.vlanCidr, b.hosts[0]) && HostOk(cfg, b.vlanCidr, b.hosts[1]);
    BothUsed(b.hosts);
    ChooseHostIndexExact(b.hosts, b.vlanCidr, 1, cfg.excludes);
  }

  lemma RejectedVisitClears(cfg: PluginConfig, m: map<string, Entry>, v: Visit)
    requires Fits(cfg) && VlanLengths(cfg, m) && v.iface.netAddress in m && Watched(cfg, v)
    requires HostPos(m[v.iface.netAddress].hosts, v.hostName) == -1 && TryAdd(cfg, m[v.iface.netAddress], v).None?
    ensures VisitAll(cfg, Work(m, true), [v]) == Work(m, false)
  {
    assert [v][..0] == [];
    assert m[v.iface.netAddress := m[v.iface.netAddress]] == m;
    assert VisitOne(cfg, Work(m, true), v) == Work(m, false);
  }

  // The update drops network a with its host, but reports no change: D's
  // rejection has cleared the flag, and the plan that is kept still has A.
  lemma RejectionHidesUpdate(cfg: PluginConfig, a: Entry, b: Entry, iface: Iface)
    requires ConfigOk(cfg) && PlanOk(cfg, [a, b]) && StoredLengths(cfg, [a, b]) && cfg.hostBlock == 1 && cfg.masterNets == []
    requires a.netAddress == "a" && b.netAddress == "b" && iface.netAddress == "b"
    requires |a.hosts| == 1 && a.hosts[0].hostName == "A"
    requires |b.hosts| == 2 && b.hosts[0].hostName == "B" && b.hosts[1].hostName == "C"
    ensures InputOk(Leaving(iface)) && Updated(cfg, [a, b], Leaving(iface), false) == Work(map["b" := b], false)
  {
    LeavingFirstPass(a, b, iface);
    LeavingVisits(iface);
    KeepLengths(cfg, Leaving(iface).snap, Leaving(iface).gone, [a, b], false);
    assert EntryOk(cfg, b) by { assert [a, b][1] == b; }
    FullEntryRejects(cfg, b, Visit("D", iface));
    RejectedVisitClears(cfg, map["b" := b], Visit("D", iface));
  }

  // So an update can be lost.
  lemma UpdateCanBeLost() returns (cfg: PluginConfig, entries: seq<Entry>, input: Input)
    ensures ConfigOk(cfg) && Lost(cfg, entries, input)
  {
    var c, a, b := SmallPlan(["A"], ["B", "C"]);
    var iface := Iface("b", "", "");
    PlanLengths(c, [a, b]);
    RejectionHidesUpdate(c, a, b, iface);
    MapOfOnly([a, b], 0);
    assert "a" !in map["b" := b];
    cfg, entries, input := c, [a, b], Leaving(iface);
  }
}
