// The L3 routes a host gets (controllers/route_handler.go), from a plan and the
// daemons known to the controller.
module Routes {
  import opened Blocks
  import opened Compute
  import opened Plan

  datatype Route = Route(subnet: Cidr, nextHop: string, interfaceName: string)

  // ---------- GetHostInterfaceIndexMap ----------

  // The last record of a host in a list.
  function LookupHost(hosts: seq<HostInfo>, name: string): (r: Option<HostInfo>)
    ensures r.Some? ==> r.value in hosts && r.value.hostName == name
    ensures r.None? ==> forall h :: h in hosts ==> h.hostName != name
  {
    if hosts == [] then None
    else
      var n := |hosts| - 1;
      if hosts[n].hostName == name then Some(hosts[n]) else LookupHost(hosts[..n], name)
  }

  lemma LookupExtends(hosts: seq<HostInfo>, j: nat)
    requires j < |hosts|
    ensures forall name :: LookupHost(hosts[..j + 1], name) ==
              if name == hosts[j].hostName then Some(hosts[j]) else LookupHost(hosts[..j], name)
  {
    var s := hosts[..j + 1];
    assert s[..|s| - 1] == hosts[..j] && s[|s| - 1] == hosts[j];
    forall name
      ensures LookupHost(s, name) == if name == hosts[j].hostName then Some(hosts[j]) else LookupHost(hosts[..j], name)
    {
      assert LookupHost(s, name) == if s[|s| - 1].hostName == name then Some(s[|s| - 1]) else LookupHost(s[..|s| - 1], name);
    }
  }

  // The record of a host on an interface index; later entries win.
  function Lookup(entries: seq<Entry>, name: string, index: int): Option<HostInfo>
  {
    if entries == [] then None
    else
      var n := |entries| - 1;
      var here := LookupHost(entries[n].hosts, name);
      if entries[n].interfaceIndex == index && here.Some? then here else Lookup(entries[..n], name, index)
  }

  type IndexMap = map<string, map<int, HostInfo>>

  function Get(m: IndexMap, name: string, index: int): Option<HostInfo>
  {
    if name in m && index in m[name] then Some(m[name][index]) else None
  }

  method PutHost(m0: IndexMap, host: HostInfo, index: int) returns (m: IndexMap)
    ensures forall n, x :: Get(m, n, x) == if n == host.hostName && x == index then Some(host) else Get(m0, n, x)
  {
    m := m0;
    if host.hostName !in m { m := m[host.hostName := map[]]; }
    m := m[host.hostName := m[host.hostName][index := host]];
  }

  method AddHosts(m0: IndexMap, e: Entry) returns (m: IndexMap)
    ensures forall name, index :: Get(m, name, index) ==
              if index == e.interfaceIndex && LookupHost(e.hosts, name).Some? then LookupHost(e.hosts, name)
              else Get(m0, name, index)
  {
    m := m0;
    for j := 0 to |e.hosts|
      invariant forall name, index :: Get(m, name, index) ==
                  if index == e.interfaceIndex && LookupHost(e.hosts[..j], name).Some? then LookupHost(e.hosts[..j], name)
                  else Get(m0, name, index)
    {
      var host := e.hosts[j];
      LookupExtends(e.hosts, j);
      m := PutHost(m, host, e.interfaceIndex);
    }
    assert e.hosts[..|e.hosts|] == e.hosts;
  }

  method GetHostInterfaceIndexMap(entries: seq<Entry>) returns (m: IndexMap)
    ensures forall name, index :: Get(m, name, index) == Lookup(entries, name, index)
  {
    m := map[];
    for i := 0 to |entries|
      invariant forall name, index :: Get(m, name, index) == Lookup(entries[..i], name, index)
    {
      assert entries[..i + 1][..i] == entries[..i];
      m := AddHosts(m, entries[i]);
    }
    assert entries[..|entries|] == entries;
  }

  // In a plan, a host has one record per interface index.
  lemma {:induction false} LookupExact(cfg: PluginConfig, entries: seq<Entry>, i: nat, a: nat)
    requires ConfigOk(cfg) && PlanOk(cfg, entries) && i < |entries| && a < |entries[i].hosts|
    ensures Lookup(entries, entries[i].hosts[a].hostName, entries[i].interfaceIndex) == Some(entries[i].hosts[a])
  {
    var n := |entries| - 1;
    var h := entries[i].hosts[a];
    if i == n {
      var g := LookupHost(entries[n].hosts, h.hostName).value;
      var b :| 0 <= b < |entries[n].hosts| && entries[n].hosts[b] == g;
      assert !(a < b) && !(b < a);
    } else {
      assert entries[i].interfaceIndex != entries[n].interfaceIndex;
      LookupExact(cfg, entries[..n], i, a);
    }
  }

  // ---------- The routes of one host ----------

  datatype Source = Source(host: string, ip: string, daemons: map<string, string>)

  // Whether the loop adds a route for record b of entry i.
  predicate Routed(s: Source, entries: seq<Entry>, i: nat, b: nat)
    requires i < |entries| && b < |entries[i].hosts|
  {
    var dest := entries[i].hosts[b].hostName;
    dest in s.daemons && s.daemons[dest] != s.ip && Lookup(entries, s.host, entries[i].interfaceIndex).Some?
  }

  function RouteTo(s: Source, entries: seq<Entry>, i: nat, b: nat): Route
    requires i < |entries| && b < |entries[i].hosts| && Routed(s, entries, i, b)
  {
    var dest, index := entries[i].hosts[b], entries[i].interfaceIndex;
    var via := Lookup(entries, dest.hostName, index);
    Route(dest.podCidr, if via.Some? then via.value.hostIP else "", Lookup(entries, s.host, index).value.interfaceName)
  }

  datatype Position = Position(entry: nat, host: nat)

  // The records with a route that the loops pass before record j of entry i.
  function Passed(s: Source, entries: seq<Entry>, i: nat, j: nat): (p: seq<Position>)
    requires i <= |entries| && (i < |entries| ==> j <= |entries[i].hosts|) && (i == |entries| ==> j == 0)
    ensures forall k :: 0 <= k < |p| ==>
              && p[k].entry < |entries| && p[k].host < |entries[p[k].entry].hosts|
              && Routed(s, entries, p[k].entry, p[k].host)
              && (p[k].entry < i || (p[k].entry == i && p[k].host < j))
    ensures forall k, l :: 0 <= k < l < |p| ==> p[k] != p[l]
    decreases i, j
  {
    if j > 0 then
      Passed(s, entries, i, j - 1) + if Routed(s, entries, i, j - 1) then [Position(i, j - 1)] else []
    else if i > 0 then Passed(s, entries, i - 1, |entries[i - 1].hosts|)
    else []
  }

  lemma {:induction false} PassedAll(s: Source, entries: seq<Entry>, i: nat, j: nat, e: nat, h: nat)
    requires i <= |entries| && (i < |entries| ==> j <= |entries[i].hosts|) && (i == |entries| ==> j == 0)
    requires e < |entries| && h < |entries[e].hosts| && (e < i || (e == i && h < j)) && Routed(s, entries, e, h)
    ensures Position(e, h) in Passed(s, entries, i, j)
    decreases i, j
  {
    if j > 0 {
      if e != i || h != j - 1 { PassedAll(s, entries, i, j - 1, e, h); }
    } else {
      PassedAll(s, entries, i - 1, |entries[i - 1].hosts|, e, h);
    }
  }

  function RoutesAt(s: Source, entries: seq<Entry>, p: seq<Position>): (r: seq<Route>)
    requires forall k :: 0 <= k < |p| ==>
               p[k].entry < |entries| && p[k].host < |entries[p[k].entry].hosts| && Routed(s, entries, p[k].entry, p[k].host)
    ensures |r| == |p| && forall k :: 0 <= k < |r| ==> r[k] == RouteTo(s, entries, p[k].entry, p[k].host)
  {
    seq(|p|, k requires 0 <= k < |p| => RouteTo(s, entries, p[k].entry, p[k].host))
  }

  function RoutesOf(s: Source, entries: seq<Entry>): seq<Route>
  {
    RoutesAt(s, entries, Passed(s, entries, |entries|, 0))
  }

  // The routes AddRoutesToHost sends to the daemon of the source host.
  method CollectRoutes(s: Source, entries: seq<Entry>) returns (routes: seq<Route>)
    ensures routes == RoutesOf(s, entries)
  {
    var m := GetHostInterfaceIndexMap(entries);
    routes := [];
    for i := 0 to |entries|
      invariant routes == RoutesAt(s, entries, Passed(s, entries, i, 0))
    {
      for j := 0 to |entries[i].hosts|
        invariant routes == RoutesAt(s, entries, Passed(s, entries, i, j))
      {
        var host, index := entries[i].hosts[j], entries[i].interfaceIndex;
        assert Get(m, s.host, index) == Lookup(entries, s.host, index);
        assert Get(m, host.hostName, index) == Lookup(entries, host.hostName, index);
        if host.hostName in s.daemons {
          if s.daemons[host.hostName] != s.ip {
            var ifaceInfo := Get(m, s.host, index);
            if ifaceInfo.Some? {
              var via := Get(m, host.hostName, index);
              var route := Route(host.podCidr, if via.Some? then via.value.hostIP else "", ifaceInfo.value.interfaceName);
              assert route == RouteTo(s, entries, i, j);
              routes := routes + [route];
            }
          }
        }
      }
    }
  }

  // ---------- Forwarding ----------

  // A route matches an address of another host's block exactly when it is the
  // route to that host on that network.
  lemma RouteMatches(cfg: PluginConfig, entries: seq<Entry>, s: Source, p: Position, i: nat, b: nat, x: nat)
    requires ConfigOk(cfg) && PlanOk(cfg, entries) && i < |entries| && b < |entries[i].hosts|
    requires p.entry < |entries| && p.host < |entries[p.entry].hosts| && Routed(s, entries, p.entry, p.host)
    requires entries[i].hosts[b].podCidr.len <= 32 && In(x, entries[i].hosts[b].podCidr)
    ensures RouteTo(s, entries, p.entry, p.host).subnet.len <= 32
    ensures Contains(RouteTo(s, entries, p.entry, p.host).subnet, x) <==> p == Position(i, b)
  {
    PlanSeparates(cfg, entries);
    var pod := entries[p.entry].hosts[p.host].podCidr;
    ContainsIsIn(pod, x);
    if p != Position(i, b) {
      assert Disjoint(pod, entries[i].hosts[b].podCidr);
    }
  }

  // Source and destination have daemons with different addresses and both are on
  // network i: exactly one route matches any address of the destination's block,
  // with the destination's address on that network as next hop and the source's
  // interface on it as device.
  lemma Forwards(cfg: PluginConfig, entries: seq<Entry>, s: Source, i: nat, a: nat, b: nat, x: nat) returns (r: nat)
    requires ConfigOk(cfg) && PlanOk(cfg, entries) && i < |entries|
    requires a < |entries[i].hosts| && entries[i].hosts[a].hostName == s.host
    requires b < |entries[i].hosts| && entries[i].hosts[b].hostName in s.daemons && s.daemons[entries[i].hosts[b].hostName] != s.ip
    requires entries[i].hosts[b].podCidr.len <= 32 && In(x, entries[i].hosts[b].podCidr)
    ensures var routes := RoutesOf(s, entries);
      && r < |routes|
      && routes[r] == Route(entries[i].hosts[b].podCidr, entries[i].hosts[b].hostIP, entries[i].hosts[a].interfaceName)
      && forall k :: 0 <= k < |routes| ==> routes[k].subnet.len <= 32 && (Contains(routes[k].subnet, x) <==> k == r)
  {
    var p, routes := Passed(s, entries, |entries|, 0), RoutesOf(s, entries);
    LookupExact(cfg, entries, i, a);
    LookupExact(cfg, entries, i, b);
    PassedAll(s, entries, |entries|, 0, i, b);
    r :| 0 <= r < |p| && p[r] == Position(i, b);
    forall k | 0 <= k < |routes| ensures routes[k].subnet.len <= 32 && (Contains(routes[k].subnet, x) <==> k == r) {
      RouteMatches(cfg, entries, s, p[k], i, b, x);
      assert p[k] == p[r] ==> !(k < r) && !(r < k);
    }
  }

  // No route leads away from a host's own pod blocks.
  lemma OwnBlocksStayLocal(cfg: PluginConfig, entries: seq<Entry>, s: Source, i: nat, a: nat, x: nat, k: nat)
    requires ConfigOk(cfg) && PlanOk(cfg, entries) && i < |entries| && a < |entries[i].hosts|
    requires entries[i].hosts[a].hostName == s.host && s.host in s.daemons && s.daemons[s.host] == s.ip
    requires entries[i].hosts[a].podCidr.len <= 32 && In(x, entries[i].hosts[a].podCidr)
    requires k < |RoutesOf(s, entries)|
    ensures RoutesOf(s, entries)[k].subnet.len <= 32 && !Contains(RoutesOf(s, entries)[k].subnet, x)
  {
    RouteMatches(cfg, entries, s, Passed(s, entries, |entries|, 0)[k], i, a, x);
  }

  // In a plan, a record found for an interface index is one of that entry.
  lemma {:induction false} LookupIsInEntry(cfg: PluginConfig, entries: seq<Entry>, name: string, i: nat) returns (a: nat)
    requires ConfigOk(cfg) && PlanOk(cfg, entries) && i < |entries| && Lookup(entries, name, entries[i].interfaceIndex).Some?
    ensures a < |entries[i].hosts| && entries[i].hosts[a].hostName == name
    ensures Lookup(entries, name, entries[i].interfaceIndex) == Some(entries[i].hosts[a])
  {
    var n := |entries| - 1;
    if i == n {
      if LookupHost(entries[n].hosts, name).None? { LookupElsewhere(entries[..n], name, entries[n].interfaceIndex); }
      a :| 0 <= a < |entries[n].hosts| && entries[n].hosts[a] == LookupHost(entries[n].hosts, name).value;
    } else {
      assert entries[i].interfaceIndex != entries[n].interfaceIndex;
      a := LookupIsInEntry(cfg, entries[..n], name, i);
    }
  }

  lemma {:induction false} LookupElsewhere(entries: seq<Entry>, name: string, index: int)
    requires forall i :: 0 <= i < |entries| ==> entries[i].interfaceIndex != index
    ensures Lookup(entries, name, index).None?
  {
    if entries != [] { LookupElsewhere(entries[..|entries| - 1], name, index); }
  }

  // Every route is to a record whose host has a daemon with another address, on a
  // network the source is on too.
  lemma RouteIsReachable(cfg: PluginConfig, entries: seq<Entry>, s: Source, k: nat) returns (i: nat, a: nat, b: nat)
    requires ConfigOk(cfg) && PlanOk(cfg, entries) && k < |RoutesOf(s, entries)|
    ensures i < |entries| && a < |entries[i].hosts| && b < |entries[i].hosts|
    ensures entries[i].hosts[a].hostName == s.host
    ensures entries[i].hosts[b].hostName in s.daemons && s.daemons[entries[i].hosts[b].hostName] != s.ip
    ensures RoutesOf(s, entries)[k] ==
            Route(entries[i].hosts[b].podCidr, entries[i].hosts[b].hostIP, entries[i].hosts[a].interfaceName)
  {
    var p := Passed(s, entries, |entries|, 0)[k];
    i, b := p.entry, p.host;
    a := LookupIsInEntry(cfg, entries, s.host, i);
    LookupExact(cfg, entries, i, b);
  }

  // An address of a block whose host has no daemon, or the source's daemon
  // address, or is on a network the source is not on, matches no route.
  lemma UnroutedMatchesNone(cfg: PluginConfig, entries: seq<Entry>, s: Source, i: nat, b: nat, x: nat, k: nat)
    requires ConfigOk(cfg) && PlanOk(cfg, entries) && i < |entries| && b < |entries[i].hosts|
    requires var dest := entries[i].hosts[b].hostName;
      || dest !in s.daemons || s.daemons[dest] == s.ip
      || forall a :: 0 <= a < |entries[i].hosts| ==> entries[i].hosts[a].hostName != s.host
    requires entries[i].hosts[b].podCidr.len <= 32 && In(x, entries[i].hosts[b].podCidr)
    requires k < |RoutesOf(s, entries)|
    ensures RoutesOf(s, entries)[k].subnet.len <= 32 && !Contains(RoutesOf(s, entries)[k].subnet, x)
  {
    var p := Passed(s, entries, |entries|, 0)[k];
    RouteMatches(cfg, entries, s, p, i, b, x);
    if p == Position(i, b) { var a := LookupIsInEntry(cfg, entries, s.host, i); }
  }
}
