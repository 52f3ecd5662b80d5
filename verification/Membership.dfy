// Which hosts an update keeps, for any answers to the node look-ups, and what is
// left of that when the look-ups agree with each other.
module Membership {
  import opened Powers
  import opened Excludes
  import opened Plan
  import opened Indexing
  import opened Reconcile
  import opened ReconcileSafe
  import opened Runs
  import opened Stability
  import opened Settling
  import opened Samples

  // ---------- The first pass ----------

  ghost predicate IsRecord(entries: seq<Entry>, i: int, a: int)
  {
    0 <= i < |entries| && 0 <= a < |entries[i].hosts|
  }

  // A look-up for the host finds its node gone.
  ghost predicate FoundDead(snap: Snapshot, gone: Lookup, entries: seq<Entry>, name: string)
  {
    name !in snap && exists i, a :: IsRecord(entries, i, a) && entries[i].hosts[a].hostName == name && gone(i, a)
  }

  // A host in the snapshot is on the network; any other has not been found dead
  // when its record's turn comes.
  ghost predicate Survives(snap: Snapshot, gone: Lookup, entries: seq<Entry>, i: nat, a: nat)
    requires IsRecord(entries, i, a)
  {
    var name := entries[i].hosts[a].hostName;
    if name in snap then OnNet(snap[name], entries[i].netAddress)
    else !FoundDead(snap, gone, entries[..i], name) && !gone(i, a)
  }

  lemma {:induction false} RetainDied(snap: Snapshot, gone: Lookup, e: nat, net: string, hosts: seq<HostInfo>, start: Retained, n: string)
    ensures n in Retain(snap, gone, e, net, hosts, start).died <==>
            n in start.died || (n !in snap && exists a :: 0 <= a < |hosts| && hosts[a].hostName == n && gone(e, a))
  {
    if hosts != [] {
      RetainDied(snap, gone, e, net, hosts[..|hosts| - 1], start, n);
      assert forall a :: 0 <= a < |hosts| - 1 ==> hosts[..|hosts| - 1][a] == hosts[a];
    }
  }

  lemma FoundDeadExtends(snap: Snapshot, gone: Lookup, entries: seq<Entry>, i: nat, name: string)
    requires i < |entries|
    ensures FoundDead(snap, gone, entries[..i + 1], name) <==>
            || FoundDead(snap, gone, entries[..i], name)
            || (name !in snap && exists a :: 0 <= a < |entries[i].hosts| && entries[i].hosts[a].hostName == name && gone(i, a))
  {
    var s, t := entries[..i], entries[..i + 1];
    if FoundDead(snap, gone, s, name) {
      var j, a :| IsRecord(s, j, a) && s[j].hosts[a].hostName == name && gone(j, a);
      assert IsRecord(t, j, a) && t[j] == s[j];
    }
    if a :| name !in snap && 0 <= a < |entries[i].hosts| && entries[i].hosts[a].hostName == name && gone(i, a) {
      assert IsRecord(t, i, a) && t[i] == entries[i];
    }
    if FoundDead(snap, gone, t, name) {
      var j, a :| IsRecord(t, j, a) && t[j].hosts[a].hostName == name && gone(j, a);
      if j < i { assert IsRecord(s, j, a) && s[j] == t[j]; }
    }
  }

  lemma {:induction false} DiedExactly(snap: Snapshot, gone: Lookup, entries: seq<Entry>, changed: bool, n: string)
    ensures n in KeepEntries(snap, gone, entries, changed).died <==> FoundDead(snap, gone, entries, n)
  {
    if entries != [] {
      var i := |entries| - 1;
      DiedExactly(snap, gone, entries[..i], changed, n);
      var w := KeepEntries(snap, gone, entries[..i], changed);
      RetainDied(snap, gone, i, entries[i].netAddress, entries[i].hosts, Retained([], w.died, w.changed), n);
      FoundDeadExtends(snap, gone, entries, i, n);
      assert entries[..i + 1] == entries;
    }
  }

  ghost predicate Keeps(snap: Snapshot, gone: Lookup, e: nat, net: string, died: set<string>, h: HostInfo, a: nat)
  {
    if h.hostName in snap then OnNet(snap[h.hostName], net) else h.hostName !in died && !gone(e, a)
  }

  lemma {:induction false} RetainExact(snap: Snapshot, gone: Lookup, e: nat, net: string, hosts: seq<HostInfo>, start: Retained, a: nat)
    requires HostsDistinct(hosts) && start.kept == [] && a < |hosts|
    ensures hosts[a] in Retain(snap, gone, e, net, hosts, start).kept <==> Keeps(snap, gone, e, net, start.died, hosts[a], a)
  {
    var n := |hosts| - 1;
    var init := hosts[..n];
    var r := Retain(snap, gone, e, net, init, start);
    RetainSelects(snap, gone, e, net, init, start.died, start.changed);
    assert start == Retained([], start.died, start.changed);
    if a < n {
      RetainExact(snap, gone, e, net, init, start, a);
      assert hosts[a] != hosts[n];
    } else {
      RetainDied(snap, gone, e, net, init, start, hosts[n].hostName);
      assert forall b :: 0 <= b < n ==> init[b].hostName != hosts[n].hostName;
      assert hosts[n] !in r.kept;
    }
  }

  // The only entry of a network after the first pass: its surviving records.
  lemma {:induction false} KeptEntry(snap: Snapshot, gone: Lookup, entries: seq<Entry>, changed: bool, i: nat, a: nat)
    requires IsRecord(entries, i, a) && HostsDistinct(entries[i].hosts)
    requires forall j :: 0 <= j < |entries| && j != i ==> entries[j].netAddress != entries[i].netAddress
    ensures var m, net := KeepEntries(snap, gone, entries, changed).entries, entries[i].netAddress;
      && (Survives(snap, gone, entries, i, a) <==> net in m && entries[i].hosts[a] in m[net].hosts)
      && (net in m ==> m[net].hosts != [] && m[net] == entries[i].(hosts := m[net].hosts))
      && (net in m ==> forall h :: h in m[net].hosts ==> h in entries[i].hosts)
  {
    var n := |entries| - 1;
    var w, e := KeepEntries(snap, gone, entries[..n], changed), entries[n];
    if i < n {
      KeptEntry(snap, gone, entries[..n], changed, i, a);
      assert entries[..n][..i] == entries[..i];
    } else {
      var start := Retained([], w.died, w.changed);
      KeepHasNoOther(snap, gone, entries[..n], changed, e.netAddress);
      RetainSelects(snap, gone, n, e.netAddress, e.hosts, w.died, w.changed);
      RetainExact(snap, gone, n, e.netAddress, e.hosts, start, a);
      DiedExactly(snap, gone, entries[..n], changed, e.hosts[a].hostName);
    }
  }

  // ---------- The whole step ----------

  // No index of the entry is left: each is tabu or has a surviving record.
  ghost predicate NoRoom(cfg: PluginConfig, snap: Snapshot, gone: Lookup, entries: seq<Entry>, i: nat)
    requires i < |entries| && entries[i].vlanCidr.len + cfg.hostBlock <= 32 && Prefixes(cfg.excludes)
  {
    forall x: nat :: x < Pow2(cfg.hostBlock) ==>
      || Tabu(entries[i].vlanCidr, cfg.hostBlock, x, cfg.excludes)
      || exists b :: IsRecord(entries, i, b) && Survives(snap, gone, entries, i, b) && entries[i].hosts[b].hostIndex == x
  }

  ghost predicate Newcomer(cfg: PluginConfig, snap: Snapshot, net: string)
  {
    exists v :: InSnapshot(snap, v) && v.iface.netAddress == net && Watched(cfg, v)
  }

  // Every surviving host of the entry is found dead elsewhere, and none is added.
  ghost predicate DiesOut(cfg: PluginConfig, snap: Snapshot, gone: Lookup, entries: seq<Entry>, i: nat)
    requires i < |entries| && entries[i].vlanCidr.len + cfg.hostBlock <= 32 && Prefixes(cfg.excludes)
  {
    && (forall b :: IsRecord(entries, i, b) && Survives(snap, gone, entries, i, b) ==>
          FoundDead(snap, gone, entries, entries[i].hosts[b].hostName))
    && (Newcomer(cfg, snap, entries[i].netAddress) ==> NoRoom(cfg, snap, gone, entries, i))
  }

  // The update with its parts at hand: m after the first pass, r after the second.
  datatype Passes = Passes(m: map<string, Entry>, died: set<string>, r: map<string, Entry>)

  ghost predicate IsPasses(cfg: PluginConfig, entries: seq<Entry>, input: Input, changed: bool, p: Passes)
    requires ConfigOk(cfg)
  {
    var k := KeepEntries(input.snap, input.gone, entries, changed);
    && p.m == k.entries && p.died == k.died && MapOk(cfg, p.m) && MapOk(cfg, p.r)
    && Stays(p.m, p.r) && Settled(cfg, p.r, input.snap)
    && (forall x, n :: HasRecord(p.r, x, n) ==> HasRecord(p.m, x, n) || (n in input.snap && OnNet(input.snap[n], x) && Newcomer(cfg, input.snap, x)))
  }

  lemma UpdatePasses(cfg: PluginConfig, entries: seq<Entry>, input: Input, changed: bool) returns (p: Passes)
    requires ConfigOk(cfg) && PlanOk(cfg, entries) && StoredLengths(cfg, entries) && InputOk(input) && KeyedByHost(input.snap)
    ensures IsPasses(cfg, entries, input, changed, p)
    ensures var w := Updated(cfg, entries, input, changed);
      w.Work? && w.entries == if p.died == {} then p.r else DropDied(p.r, p.died)
    ensures var k := KeepEntries(input.snap, input.gone, entries, changed);
      var r := VisitAll(cfg, Work(k.entries, k.changed), Visits(input.snap, input.order)); r.Work? && r.entries == p.r
  {
    var k := KeepEntries(input.snap, input.gone, entries, changed);
    FirstPassOk(cfg, input.snap, input.gone, entries, changed);
    var w0, visits := Work(k.entries, k.changed), Visits(input.snap, input.order);
    PassSettles(cfg, w0, input.snap, input.order);
    VisitsStay(cfg, w0, visits);
    var r := VisitAll(cfg, w0, visits);
    p := Passes(k.entries, k.died, r.entries);
    forall x, n | HasRecord(p.r, x, n) && !HasRecord(p.m, x, n)
      ensures n in input.snap && OnNet(input.snap[n], x) && Newcomer(cfg, input.snap, x)
    {
      var j :| 0 <= j < |visits| && visits[j].hostName == n && visits[j].iface.netAddress == x && Watched(cfg, visits[j]);
      VisitsComeFromSnapshot(input.snap, input.order, j);
      VisitsAreInSnapshot(input.snap, input.order, j);
    }
  }

  lemma {:induction false} AliveExactly(hosts: seq<HostInfo>, died: set<string>, h: HostInfo)
    ensures h in Alive(hosts, died) <==> h in hosts && h.hostName !in died
  {
    if hosts != [] {
      assert hosts == hosts[..|hosts| - 1] + [hosts[|hosts| - 1]];
      AliveExactly(hosts[..|hosts| - 1], died, h);
    }
  }

  // The third pass takes a host it finds dead, unless it is in an entry of the dead.
  lemma BuriedExactly(r: map<string, Entry>, died: set<string>, net: string, name: string)
    requires net in r
    ensures HasRecord(DropDied(r, died), net, name) <==>
            HasRecord(r, net, name) && (name in died ==> forall h :: h in r[net].hosts ==> h.hostName in died)
  {
    var alive := Alive(r[net].hosts, died);
    forall h ensures h in alive <==> h in r[net].hosts && h.hostName !in died { AliveExactly(r[net].hosts, died, h); }
    if alive != [] { assert alive[0] in alive; }
  }

  lemma SurvivorsAreKept(cfg: PluginConfig, entries: seq<Entry>, input: Input, changed: bool, p: Passes, i: nat, b: nat)
    requires ConfigOk(cfg) && PlanOk(cfg, entries) && IsPasses(cfg, entries, input, changed, p) && IsRecord(entries, i, b)
    ensures var net, name := entries[i].netAddress, entries[i].hosts[b].hostName;
      && (Survives(input.snap, input.gone, entries, i, b) <==> HasRecord(p.m, net, name))
      && (Survives(input.snap, input.gone, entries, i, b) <==> net in p.m && entries[i].hosts[b] in p.m[net].hosts)
      && (net in p.m ==> p.m[net].vlanCidr == entries[i].vlanCidr && forall h :: h in p.m[net].hosts ==> h in entries[i].hosts)
  {
    var net, h := entries[i].netAddress, entries[i].hosts[b];
    OnlyEntry(cfg, entries, i);
    KeptEntry(input.snap, input.gone, entries, changed, i, b);
    if HasRecord(p.m, net, h.hostName) {
      var g :| g in p.m[net].hosts && g.hostName == h.hostName;
      SameNameSameRecord(entries[i].hosts, g, h);
    }
  }

  lemma RecordCarried(m: map<string, Entry>, m': map<string, Entry>, net: string, name: string)
    requires Stays(m, m') && HasRecord(m, net, name)
    ensures HasRecord(m', net, name)
  {
    var h :| h in m[net].hosts && h.hostName == name;
    var h' :| h' in m'[net].hosts && SameBlock(h, h');
  }

  // A record is still there after the second pass exactly when it survives.
  lemma KeptBySecondPass(cfg: PluginConfig, entries: seq<Entry>, input: Input, changed: bool, p: Passes, i: nat, a: nat)
    requires ConfigOk(cfg) && PlanOk(cfg, entries) && IsPasses(cfg, entries, input, changed, p) && IsRecord(entries, i, a)
    ensures HasRecord(p.r, entries[i].netAddress, entries[i].hosts[a].hostName) <==> Survives(input.snap, input.gone, entries, i, a)
  {
    var net, name := entries[i].netAddress, entries[i].hosts[a].hostName;
    SurvivorsAreKept(cfg, entries, input, changed, p, i, a);
    if HasRecord(p.m, net, name) { RecordCarried(p.m, p.r, net, name); }
  }

  // The index of a kept record is that of the record it came from.
  lemma IndexOfKept(cfg: PluginConfig, p: Passes, net: string, h: HostInfo)
    requires ConfigOk(cfg) && MapOk(cfg, p.r) && Stays(p.m, p.r) && net in p.r && h in p.r[net].hosts
    requires HasRecord(p.m, net, h.hostName)
    ensures exists g :: g in p.m[net].hosts && SameBlock(g, h)
  {
    var g :| g in p.m[net].hosts && g.hostName == h.hostName;
    var g' :| g' in p.r[net].hosts && SameBlock(g, g');
    SameNameSameRecord(p.r[net].hosts, g', h);
  }

  // An entry with a newcomer that is in it none the less has no index left.
  lemma NewcomerLeavesNoIndex(cfg: PluginConfig, r: map<string, Entry>, snap: Snapshot, net: string)
    requires ConfigOk(cfg) && MapOk(cfg, r) && Settled(cfg, r, snap) && KeyedByHost(snap) && Newcomer(cfg, snap, net)
    requires net in r && forall h :: h in r[net].hosts ==> h.hostName !in snap
    ensures forall x: nat :: x < Pow2(cfg.hostBlock) ==>
              x in UsedIndexes(r[net].hosts) || Tabu(r[net].vlanCidr, cfg.hostBlock, x, cfg.excludes)
  {
    var v :| InSnapshot(snap, v) && v.iface.netAddress == net && Watched(cfg, v);
    var e := r[net];
    assert Quiet(cfg, r, v);
    PositionOf(e.hosts, v.hostName);
    ChooseHostIndexExact(e.hosts, e.vlanCidr, cfg.hostBlock, cfg.excludes);
  }

  // Then each index that is not tabu has a surviving record.
  lemma UsedBySurvivor(cfg: PluginConfig, entries: seq<Entry>, input: Input, changed: bool, p: Passes, i: nat, h: HostInfo) returns (b: nat)
    requires ConfigOk(cfg) && PlanOk(cfg, entries) && IsPasses(cfg, entries, input, changed, p) && i < |entries| && entries[i].hosts != []
    requires entries[i].netAddress in p.r && h in p.r[entries[i].netAddress].hosts && h.hostName !in input.snap
    ensures IsRecord(entries, i, b) && Survives(input.snap, input.gone, entries, i, b) && entries[i].hosts[b].hostIndex == h.hostIndex
  {
    var net := entries[i].netAddress;
    assert HasRecord(p.r, net, h.hostName);
    IndexOfKept(cfg, p, net, h);
    var g :| g in p.m[net].hosts && SameBlock(g, h);
    SurvivorsAreKept(cfg, entries, input, changed, p, i, 0);
    b :| 0 <= b < |entries[i].hosts| && entries[i].hosts[b] == g;
    SurvivorsAreKept(cfg, entries, input, changed, p, i, b);
  }

  lemma AllDeadMeansNoRoom(cfg: PluginConfig, entries: seq<Entry>, input: Input, changed: bool, p: Passes, i: nat, a: nat)
    requires ConfigOk(cfg) && PlanOk(cfg, entries) && IsPasses(cfg, entries, input, changed, p)
    requires IsRecord(entries, i, a) && Survives(input.snap, input.gone, entries, i, a)
    requires entries[i].netAddress in p.r && forall h :: h in p.r[entries[i].netAddress].hosts ==> h.hostName !in input.snap
    requires Newcomer(cfg, input.snap, entries[i].netAddress) && KeyedByHost(input.snap)
    ensures entries[i].vlanCidr.len + cfg.hostBlock <= 32 && NoRoom(cfg, input.snap, input.gone, entries, i)
  {
    var net := entries[i].netAddress;
    SurvivorsAreKept(cfg, entries, input, changed, p, i, a);
    NewcomerLeavesNoIndex(cfg, p.r, input.snap, net);
    assert p.r[net].vlanCidr == entries[i].vlanCidr;
    forall x: nat | x < Pow2(cfg.hostBlock) && !Tabu(entries[i].vlanCidr, cfg.hostBlock, x, cfg.excludes)
      ensures exists b :: IsRecord(entries, i, b) && Survives(input.snap, input.gone, entries, i, b) && entries[i].hosts[b].hostIndex == x
    {
      var h :| h in p.r[net].hosts && h.hostIndex == x;
      var b := UsedBySurvivor(cfg, entries, input, changed, p, i, h);
    }
  }

  // Conversely an entry without room keeps its hosts to itself.
  lemma NoRoomMeansNoneAdded(cfg: PluginConfig, entries: seq<Entry>, input: Input, changed: bool, p: Passes, i: nat, a: nat, h: HostInfo)
    requires ConfigOk(cfg) && PlanOk(cfg, entries) && IsPasses(cfg, entries, input, changed, p)
    requires IsRecord(entries, i, a) && Survives(input.snap, input.gone, entries, i, a)
    requires entries[i].vlanCidr.len + cfg.hostBlock <= 32 && NoRoom(cfg, input.snap, input.gone, entries, i)
    requires entries[i].netAddress in p.r && h in p.r[entries[i].netAddress].hosts
    ensures HasRecord(p.m, entries[i].netAddress, h.hostName)
  {
    var net := entries[i].netAddress;
    SurvivorsAreKept(cfg, entries, input, changed, p, i, a);
    assert HostOk(cfg, p.r[net].vlanCidr, h);
    var b :| IsRecord(entries, i, b) && Survives(input.snap, input.gone, entries, i, b) && entries[i].hosts[b].hostIndex == h.hostIndex;
    SurvivorsAreKept(cfg, entries, input, changed, p, i, b);
    var g' :| g' in p.r[net].hosts && SameBlock(entries[i].hosts[b], g');
    SameIndexSameRecord(p.r[net].hosts, g', h);
  }

  lemma SameIndexSameRecord(hosts: seq<HostInfo>, g: HostInfo, h: HostInfo)
    requires HostsDistinct(hosts) && g in hosts && h in hosts && g.hostIndex == h.hostIndex
    ensures g == h
  {
    var i :| 0 <= i < |hosts| && hosts[i] == g;
    var j :| 0 <= j < |hosts| && hosts[j] == h;
    assert !(i < j) && !(j < i);
  }

  // An entry is all dead after the second pass exactly when it dies out.
  lemma DiesOutExactly(cfg: PluginConfig, entries: seq<Entry>, input: Input, changed: bool, p: Passes, i: nat, a: nat)
    requires ConfigOk(cfg) && PlanOk(cfg, entries) && IsPasses(cfg, entries, input, changed, p) && KeyedByHost(input.snap)
    requires IsRecord(entries, i, a) && Survives(input.snap, input.gone, entries, i, a)
    ensures entries[i].vlanCidr.len + cfg.hostBlock <= 32 && entries[i].netAddress in p.r
    ensures DiesOut(cfg, input.snap, input.gone, entries, i) <==>
            forall h :: h in p.r[entries[i].netAddress].hosts ==> h.hostName in p.died
  {
    var net := entries[i].netAddress;
    forall n ensures n in p.died <==> FoundDead(input.snap, input.gone, entries, n) { DiedExactly(input.snap, input.gone, entries, changed, n); }
    KeptBySecondPass(cfg, entries, input, changed, p, i, a);
    if forall h :: h in p.r[net].hosts ==> h.hostName in p.died {
      forall b | IsRecord(entries, i, b) && Survives(input.snap, input.gone, entries, i, b)
        ensures FoundDead(input.snap, input.gone, entries, entries[i].hosts[b].hostName)
      {
        KeptBySecondPass(cfg, entries, input, changed, p, i, b);
      }
      if Newcomer(cfg, input.snap, net) { AllDeadMeansNoRoom(cfg, entries, input, changed, p, i, a); }
    }
    if DiesOut(cfg, input.snap, input.gone, entries, i) {
      forall h | h in p.r[net].hosts ensures h.hostName in p.died { DeadIfDiesOut(cfg, entries, input, changed, p, i, a, h); }
    }
  }

  lemma DeadIfDiesOut(cfg: PluginConfig, entries: seq<Entry>, input: Input, changed: bool, p: Passes, i: nat, a: nat, h: HostInfo)
    requires ConfigOk(cfg) && PlanOk(cfg, entries) && IsPasses(cfg, entries, input, changed, p)
    requires IsRecord(entries, i, a) && Survives(input.snap, input.gone, entries, i, a)
    requires entries[i].vlanCidr.len + cfg.hostBlock <= 32 && DiesOut(cfg, input.snap, input.gone, entries, i)
    requires entries[i].netAddress in p.r && h in p.r[entries[i].netAddress].hosts
    ensures h.hostName in p.died
  {
    var net := entries[i].netAddress;
    SurvivorsAreKept(cfg, entries, input, changed, p, i, a);
    assert HasRecord(p.r, net, h.hostName);
    if Newcomer(cfg, input.snap, net) { NoRoomMeansNoneAdded(cfg, entries, input, changed, p, i, a, h); }
    assert HasRecord(p.m, net, h.hostName);
    var g :| g in p.m[net].hosts && g.hostName == h.hostName;
    var b :| 0 <= b < |entries[i].hosts| && entries[i].hosts[b] == g;
    SurvivorsAreKept(cfg, entries, input, changed, p, i, b);
    DiedExactly(input.snap, input.gone, entries, changed, h.hostName);
  }

  // After an update a record is still there exactly when it survives the first
  // pass and, if its host is found dead in another entry, its own entry dies out.
  lemma KeptExactly(cfg: PluginConfig, entries: seq<Entry>, input: Input, changed: bool, i: nat, a: nat)
    requires ConfigOk(cfg) && PlanOk(cfg, entries) && StoredLengths(cfg, entries) && InputOk(input)
    requires KeyedByHost(input.snap) && IsRecord(entries, i, a)
    ensures var w, net, name := Updated(cfg, entries, input, changed), entries[i].netAddress, entries[i].hosts[a].hostName;
      && w.Work?
      && (HasRecord(w.entries, net, name) <==>
            && Survives(input.snap, input.gone, entries, i, a)
            && (FoundDead(input.snap, input.gone, entries, name) ==> DiesOut(cfg, input.snap, input.gone, entries, i)))
  {
    var net, name := entries[i].netAddress, entries[i].hosts[a].hostName;
    var p := UpdatePasses(cfg, entries, input, changed);
    KeptBySecondPass(cfg, entries, input, changed, p, i, a);
    DiedExactly(input.snap, input.gone, entries, changed, name);
    if Survives(input.snap, input.gone, entries, i, a) {
      DiesOutExactly(cfg, entries, input, changed, p, i, a);
    }
    if net in p.r { BuriedExactly(p.r, p.died, net, name); }
  }

  // ---------- A host that stays although it is dead ----------

  // Hosts X and Y share network b; X alone is on network a. The first look-up for
  // X finds its node, the second does not.
  const Wavering: Input := Input(map[], (e, h) => e == 1 && h == 0, [])

  ghost predicate KeepsDead(cfg: PluginConfig, entries: seq<Entry>, input: Input, net: string, name: string)
    requires ConfigOk(cfg)
  {
    && PlanOk(cfg, entries) && StoredLengths(cfg, entries) && InputOk(input) && FoundDead(input.snap, input.gone, entries, name)
    && var w := Updated(cfg, entries, input, false); w.Work? && HasRecord(w.entries, net, name)
  }

  // X stays on a, although it is found dead on b.
  lemma WaveringKeepsDead(cfg: PluginConfig, a: Entry, b: Entry)
    requires ConfigOk(cfg) && PlanOk(cfg, [a, b])
    requires |a.hosts| == 1 && |b.hosts| == 2 && a.hosts[0].hostName == b.hosts[0].hostName
    ensures KeepsDead(cfg, [a, b], Wavering, a.netAddress, a.hosts[0].hostName)
  {
    var entries, name := [a, b], a.hosts[0].hostName;
    PlanLengths(cfg, entries);
    assert IsRecord(entries, 0, 0) && IsRecord(entries, 1, 0) && entries[1].hosts[0].hostName == name;
    KeptExactly(cfg, entries, Wavering, false, 0, 0);
  }

  lemma DeadHostStays() returns (cfg: PluginConfig, entries: seq<Entry>, input: Input)
    ensures ConfigOk(cfg) && KeepsDead(cfg, entries, input, "a", "X")
  {
    var c, a, b := SmallPlan(["X"], ["X", "Y"]);
    WaveringKeepsDead(c, a, b);
    cfg, entries, input := c, [a, b], Wavering;
  }

  // ---------- Look-ups that agree ----------

  // The look-ups find exactly the dead hosts gone.
  ghost predicate Consistent(gone: Lookup, entries: seq<Entry>, dead: set<string>)
  {
    forall i, a :: IsRecord(entries, i, a) ==> (gone(i, a) <==> entries[i].hosts[a].hostName in dead)
  }

  ghost predicate StaysOn(snap: Snapshot, dead: set<string>, net: string, name: string)
  {
    if name in snap then OnNet(snap[name], net) else name !in dead
  }

  lemma ConsistentlyDead(snap: Snapshot, gone: Lookup, entries: seq<Entry>, dead: set<string>, i: nat, a: nat)
    requires Consistent(gone, entries, dead) && IsRecord(entries, i, a)
    ensures Survives(snap, gone, entries, i, a) <==> StaysOn(snap, dead, entries[i].netAddress, entries[i].hosts[a].hostName)
    ensures FoundDead(snap, gone, entries, entries[i].hosts[a].hostName) ==> !Survives(snap, gone, entries, i, a)
  {
    var name := entries[i].hosts[a].hostName;
    if FoundDead(snap, gone, entries[..i], name) {
      var j, b :| IsRecord(entries[..i], j, b) && entries[..i][j].hosts[b].hostName == name && gone(j, b);
      assert IsRecord(entries, j, b);
    }
  }

  // If a node gets the same answer at every look-up, a host is still on a network
  // exactly when the snapshot shows it there, or not at all and its node exists.
  lemma ConsistentlyKept(cfg: PluginConfig, entries: seq<Entry>, input: Input, changed: bool, dead: set<string>, i: nat, a: nat)
    requires ConfigOk(cfg) && PlanOk(cfg, entries) && StoredLengths(cfg, entries) && InputOk(input)
    requires KeyedByHost(input.snap) && Consistent(input.gone, entries, dead) && IsRecord(entries, i, a)
    ensures var w, net, name := Updated(cfg, entries, input, changed), entries[i].netAddress, entries[i].hosts[a].hostName;
      w.Work? && (HasRecord(w.entries, net, name) <==> StaysOn(input.snap, dead, net, name))
  {
    KeptExactly(cfg, entries, input, changed, i, a);
    ConsistentlyDead(input.snap, input.gone, entries, dead, i, a);
  }

  ghost predicate AllStay(snap: Snapshot, dead: set<string>, m: map<string, Entry>)
  {
    forall k, n :: HasRecord(m, k, n) ==> StaysOn(snap, dead, k, n)
  }

  lemma {:induction false} KeptFromPlan(snap: Snapshot, gone: Lookup, entries: seq<Entry>, changed: bool, net: string, h: HostInfo) returns (i: nat, a: nat)
    requires forall j :: 0 <= j < |entries| ==> HostsDistinct(entries[j].hosts)
    requires var m := KeepEntries(snap, gone, entries, changed).entries; net in m && h in m[net].hosts
    ensures IsRecord(entries, i, a) && entries[i].netAddress == net && entries[i].hosts[a] == h
  {
    var n := |entries| - 1;
    var w, e := KeepEntries(snap, gone, entries[..n], changed), entries[n];
    var kept := Retain(snap, gone, n, e.netAddress, e.hosts, Retained([], w.died, w.changed)).kept;
    RetainSelects(snap, gone, n, e.netAddress, e.hosts, w.died, w.changed);
    if e.netAddress == net && (e.hosts == [] || kept != []) {
      assert h in kept;
      i := n;
      a :| 0 <= a < |e.hosts| && e.hosts[a] == h;
    } else {
      i, a := KeptFromPlan(snap, gone, entries[..n], changed, net, h);
    }
  }

  // Then the third pass finds nothing left to drop.
  lemma NothingToDrop(r: map<string, Entry>, died: set<string>)
    requires forall k, n :: HasRecord(r, k, n) ==> n !in died
    ensures DropDied(r, died) == r
  {
    forall k | k in r ensures Bury(r[k], died) == r[k] {
      forall h | h in r[k].hosts ensures h.hostName !in died { assert HasRecord(r, k, h.hostName); }
      AliveIsAll(r[k].hosts, died);
    }
  }

  lemma {:induction false} AliveIsAll(hosts: seq<HostInfo>, died: set<string>)
    requires forall h :: h in hosts ==> h.hostName !in died
    ensures Alive(hosts, died) == hosts
  {
    if hosts != [] {
      var n := |hosts| - 1;
      assert hosts == hosts[..n] + [hosts[n]];
      AliveIsAll(hosts[..n], died);
    }
  }

  lemma KeptStays(cfg: PluginConfig, entries: seq<Entry>, input: Input, changed: bool, dead: set<string>, p: Passes, net: string, name: string)
    requires ConfigOk(cfg) && PlanOk(cfg, entries) && IsPasses(cfg, entries, input, changed, p)
    requires Consistent(input.gone, entries, dead) && HasRecord(p.r, net, name)
    ensures StaysOn(input.snap, dead, net, name) && name !in p.died
  {
    DiedExactly(input.snap, input.gone, entries, changed, name);
    if HasRecord(p.m, net, name) {
      var h :| h in p.m[net].hosts && h.hostName == name;
      var i, a := KeptFromPlan(input.snap, input.gone, entries, changed, net, h);
      SurvivorsAreKept(cfg, entries, input, changed, p, i, a);
      ConsistentlyDead(input.snap, input.gone, entries, dead, i, a);
    }
  }

  lemma ConsistentUpdate(cfg: PluginConfig, entries: seq<Entry>, input: Input, changed: bool, dead: set<string>) returns (p: Passes)
    requires ConfigOk(cfg) && PlanOk(cfg, entries) && StoredLengths(cfg, entries) && InputOk(input) && KeyedByHost(input.snap)
    requires Consistent(input.gone, entries, dead)
    ensures IsPasses(cfg, entries, input, changed, p) && AllStay(input.snap, dead, p.r)
    ensures var w := Updated(cfg, entries, input, changed); w.Work? && w.entries == p.r
  {
    p := UpdatePasses(cfg, entries, input, changed);
    forall k, n | HasRecord(p.r, k, n) ensures StaysOn(input.snap, dead, k, n) && n !in p.died {
      KeptStays(cfg, entries, input, changed, dead, p, k, n);
    }
    NothingToDrop(p.r, p.died);
  }
}
