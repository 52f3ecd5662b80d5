// The address plan of one network: the CIDR resource (api/v1/cidr_types.go) and
// what has to hold of it.
module Plan {
  import opened Powers
  import opened Blocks
  import opened Compute
  import opened Excludes

  // GetIPPoolName: the network's name and the pod CIDR, joined.
  datatype PoolName = PoolName(def: string, cidr: Cidr)

  datatype PluginConfig = PluginConfig(
    name: string,
    subnet: Cidr,
    masterNets: seq<string>,
    hostBlock: nat,
    interfaceBlock: nat,
    excludes: seq<Cidr>)

  datatype HostInfo = HostInfo(
    hostIndex: nat,
    hostName: string,
    interfaceName: string,
    hostIP: string,
    podCidr: Cidr,
    ipPool: Option<PoolName>)

  datatype Entry = Entry(
    netAddress: string,
    interfaceIndex: nat,
    vlanCidr: Cidr,
    hosts: seq<HostInfo>)

  // What a usable configuration is: the interface and host bits fit the address,
  // and hosts get blocks of their own.
  ghost predicate ConfigOk(cfg: PluginConfig)
  {
    && Canonical(cfg.subnet)
    && cfg.subnet.len + cfg.interfaceBlock + cfg.hostBlock <= 32
    && cfg.hostBlock > 0
    && AllCanonical(cfg.excludes)
  }

  ghost predicate HostOk(cfg: PluginConfig, vlan: Cidr, h: HostInfo)
    requires ConfigOk(cfg) && vlan.len == cfg.subnet.len + cfg.interfaceBlock
  {
    && h.hostIndex < Pow2(cfg.hostBlock)
    && h.podCidr == Block(vlan, cfg.hostBlock, h.hostIndex)
    && !Tabu(vlan, cfg.hostBlock, h.hostIndex, cfg.excludes)
  }

  // At most one record per host and per host index.
  ghost predicate HostsDistinct(hosts: seq<HostInfo>)
  {
    forall i, j :: 0 <= i < j < |hosts| ==>
      hosts[i].hostName != hosts[j].hostName && hosts[i].hostIndex != hosts[j].hostIndex
  }

  ghost predicate VlanOk(cfg: PluginConfig, e: Entry)
    requires ConfigOk(cfg)
  {
    && e.interfaceIndex < Pow2(cfg.interfaceBlock)
    && e.vlanCidr == Block(cfg.subnet, cfg.interfaceBlock, e.interfaceIndex)
    && !Tabu(cfg.subnet, cfg.interfaceBlock, e.interfaceIndex, cfg.excludes)
  }

  ghost predicate EntryOk(cfg: PluginConfig, e: Entry)
    requires ConfigOk(cfg)
  {
    && VlanOk(cfg, e)
    && HostsDistinct(e.hosts)
    && forall i :: 0 <= i < |e.hosts| ==> HostOk(cfg, e.vlanCidr, e.hosts[i])
  }

  // The invariant of a stored plan. Two entries of the same network address can
  // only come from a repeated master network, before any host was added.
  ghost predicate PlanOk(cfg: PluginConfig, entries: seq<Entry>)
    requires ConfigOk(cfg)
  {
    && (forall i :: 0 <= i < |entries| ==> EntryOk(cfg, entries[i]))
    && (forall i, j :: 0 <= i < j < |entries| ==> entries[i].interfaceIndex != entries[j].interfaceIndex)
    && (forall i, j :: 0 <= i < j < |entries| && entries[i].netAddress == entries[j].netAddress ==>
          entries[i].hosts == [] && entries[j].hosts == [])
  }

  // The same while entries are held in a map by network address.
  ghost predicate MapOk(cfg: PluginConfig, m: map<string, Entry>)
    requires ConfigOk(cfg)
  {
    && (forall k :: k in m ==> m[k].netAddress == k && EntryOk(cfg, m[k]))
    && (forall k, l :: k in m && l in m && k != l ==> m[k].interfaceIndex != m[l].interfaceIndex)
  }

  // ---------- What the invariant buys ----------

  // Every VLAN block lies in the subnet, every pod block in its VLAN block, and
  // any two pod blocks of the network are disjoint.
  ghost predicate PodBlocksSeparate(cfg: PluginConfig, entries: seq<Entry>)
    requires ConfigOk(cfg)
  {
    && (forall i :: 0 <= i < |entries| ==>
          Canonical(entries[i].vlanCidr) && Inside(entries[i].vlanCidr, cfg.subnet))
    && (forall i, a :: 0 <= i < |entries| && 0 <= a < |entries[i].hosts| ==>
          Canonical(entries[i].hosts[a].podCidr) && Inside(entries[i].hosts[a].podCidr, entries[i].vlanCidr))
    && (forall i, a, j, b ::
          0 <= i < |entries| && 0 <= a < |entries[i].hosts| && 0 <= j < |entries| && 0 <= b < |entries[j].hosts| &&
          (i != j || a != b) ==>
            Disjoint(entries[i].hosts[a].podCidr, entries[j].hosts[b].podCidr))
  }

  lemma EntryBlocks(cfg: PluginConfig, e: Entry)
    requires ConfigOk(cfg) && EntryOk(cfg, e)
    ensures Canonical(e.vlanCidr) && Inside(e.vlanCidr, cfg.subnet)
    ensures forall a :: 0 <= a < |e.hosts| ==> Canonical(e.hosts[a].podCidr) && Inside(e.hosts[a].podCidr, e.vlanCidr)
  {
    BlockInside(cfg.subnet, cfg.interfaceBlock, e.interfaceIndex);
    forall a | 0 <= a < |e.hosts| ensures Canonical(e.hosts[a].podCidr) && Inside(e.hosts[a].podCidr, e.vlanCidr) {
      BlockInside(e.vlanCidr, cfg.hostBlock, e.hosts[a].hostIndex);
    }
  }

  lemma PodsOfOneEntry(cfg: PluginConfig, e: Entry, a: nat, b: nat)
    requires ConfigOk(cfg) && EntryOk(cfg, e) && a < |e.hosts| && b < |e.hosts| && a != b
    ensures e.hosts[a].podCidr.len <= 32 && e.hosts[b].podCidr.len <= 32
    ensures Disjoint(e.hosts[a].podCidr, e.hosts[b].podCidr)
  {
    if a < b { assert e.hosts[a].hostIndex != e.hosts[b].hostIndex; }
    else { assert e.hosts[b].hostIndex != e.hosts[a].hostIndex; }
    BlocksDisjoint(e.vlanCidr, cfg.hostBlock, e.hosts[a].hostIndex, e.hosts[b].hostIndex);
  }

  lemma PodsOfTwoEntries(cfg: PluginConfig, e: Entry, a: nat, f: Entry, b: nat)
    requires ConfigOk(cfg) && EntryOk(cfg, e) && EntryOk(cfg, f) && e.interfaceIndex != f.interfaceIndex
    requires a < |e.hosts| && b < |f.hosts|
    ensures e.hosts[a].podCidr.len <= 32 && f.hosts[b].podCidr.len <= 32
    ensures Disjoint(e.hosts[a].podCidr, f.hosts[b].podCidr)
  {
    EntryBlocks(cfg, e);
    EntryBlocks(cfg, f);
    BlocksDisjoint(cfg.subnet, cfg.interfaceBlock, e.interfaceIndex, f.interfaceIndex);
    assert Inside(e.hosts[a].podCidr, e.vlanCidr) && Inside(f.hosts[b].podCidr, f.vlanCidr);
  }

  lemma PlanSeparates(cfg: PluginConfig, entries: seq<Entry>)
    requires ConfigOk(cfg) && PlanOk(cfg, entries)
    ensures PodBlocksSeparate(cfg, entries)
  {
    forall i | 0 <= i < |entries|
      ensures Canonical(entries[i].vlanCidr) && Inside(entries[i].vlanCidr, cfg.subnet)
      ensures forall a :: 0 <= a < |entries[i].hosts| ==>
                Canonical(entries[i].hosts[a].podCidr) && Inside(entries[i].hosts[a].podCidr, entries[i].vlanCidr)
    {
      EntryBlocks(cfg, entries[i]);
    }
    forall i, a, j, b |
      0 <= i < |entries| && 0 <= a < |entries[i].hosts| && 0 <= j < |entries| && 0 <= b < |entries[j].hosts| &&
      (i != j || a != b)
      ensures Disjoint(entries[i].hosts[a].podCidr, entries[j].hosts[b].podCidr)
    {
      if i == j {
        PodsOfOneEntry(cfg, entries[i], a, b);
      } else {
        assert if i < j then entries[i].interfaceIndex != entries[j].interfaceIndex
               else entries[j].interfaceIndex != entries[i].interfaceIndex;
        PodsOfTwoEntries(cfg, entries[i], a, entries[j], b);
      }
    }
  }
}
