// Small plans, as inputs on which a property fails.
module Samples {
  import opened Powers
  import opened Blocks
  import opened Compute
  import opened Sorting
  import opened Plan

  // A network with two interface indexes and room for two hosts on each.
  ghost predicate Small(cfg: PluginConfig)
  {
    ConfigOk(cfg) && cfg.interfaceBlock == 1 && cfg.hostBlock == 1 && cfg.masterNets == [] && cfg.excludes == []
  }

  lemma SmallNet() returns (cfg: PluginConfig)
    ensures Small(cfg)
  {
    cfg := PluginConfig("net", Cidr(0, 24), [], 1, 1, []);
    assert 0 % Pow2(8) == 0;
  }

  ghost predicate FreshRecord(h: HostInfo)
  {
    h.interfaceName == "" && h.hostIP == "" && h.ipPool.Some?
  }

  lemma SmallEntry(cfg: PluginConfig, net: string, i: nat, names: seq<string>) returns (e: Entry)
    requires Small(cfg) && i < 2 && |names| <= 2 && NoDuplicates(names)
    ensures EntryOk(cfg, e) && e.netAddress == net && e.interfaceIndex == i
    ensures |e.hosts| == |names| && forall k :: 0 <= k < |names| ==> e.hosts[k].hostName == names[k] && FreshRecord(e.hosts[k])
  {
    assert Pow2(1) == 2;
    var vlan := Block(cfg.subnet, 1, i);
    var host := (k: int) requires 0 <= k < |names| =>
      HostInfo(k, names[k], "", "", Block(vlan, 1, k), Some(PoolName(cfg.name, Block(vlan, 1, k))));
    e := Entry(net, i, vlan, seq(|names|, host));
  }

  lemma TwoEntries(cfg: PluginConfig, a: Entry, b: Entry)
    requires ConfigOk(cfg) && EntryOk(cfg, a) && EntryOk(cfg, b)
    requires a.interfaceIndex != b.interfaceIndex && a.netAddress != b.netAddress
    ensures PlanOk(cfg, [a, b])
  {
    var entries := [a, b];
    assert entries[0] == a && entries[1] == b;
  }

  // Two entries of that network, "a" and "b", with the given hosts.
  lemma SmallPlan(first: seq<string>, second: seq<string>) returns (cfg: PluginConfig, a: Entry, b: Entry)
    requires |first| <= 2 && NoDuplicates(first) && |second| <= 2 && NoDuplicates(second)
    ensures Small(cfg) && PlanOk(cfg, [a, b])
    ensures a.netAddress == "a" && |a.hosts| == |first|
    ensures forall k :: 0 <= k < |first| ==> a.hosts[k].hostName == first[k] && FreshRecord(a.hosts[k])
    ensures b.netAddress == "b" && |b.hosts| == |second|
    ensures forall k :: 0 <= k < |second| ==> b.hosts[k].hostName == second[k] && FreshRecord(b.hosts[k])
  {
    cfg := SmallNet();
    a := SmallEntry(cfg, "a", 0, first);
    b := SmallEntry(cfg, "b", 1, second);
    TwoEntries(cfg, a, b);
  }
}
