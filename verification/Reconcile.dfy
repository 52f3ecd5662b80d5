// UpdateEntries (controllers/cidr_handler.go): the step from a stored plan, a
// snapshot of the host interfaces and the answers to the node look-ups to the
// next plan. Map iteration orders are explicit arguments.
module Reconcile {
  import opened Blocks
  import opened Compute
  import opened Excludes
  import opened Sorting
  import opened Plan
  import opened Indexing

  datatype Iface = Iface(netAddress: string, interfaceName: string, hostIP: string)
  datatype HostInterface = HostInterface(hostName: string, ifaces: seq<Iface>)
  type Snapshot = map<string, HostInterface>

  // Whether the look-up for host h of entry e finds the node gone or terminated.
  type Lookup = (nat, nat) -> bool

  // ---------- First pass: which hosts stay ----------

  predicate OnNet(hif: HostInterface, net: string)
  {
    exists i :: 0 <= i < |hif.ifaces| && hif.ifaces[i].netAddress == net
  }

  datatype Retained = Retained(kept: seq<HostInfo>, died: set<string>, changed: bool)

  function Retain(snap: Snapshot, gone: Lookup, e: nat, net: string, hosts: seq<HostInfo>, start: Retained): Retained
  {
    if hosts == [] then start
    else
      var n, h := |hosts| - 1, hosts[|hosts| - 1];
      var r := Retain(snap, gone, e, net, hosts[..n], start);
      if h.hostName in snap then
        if OnNet(snap[h.hostName], net) then r.(kept := r.kept + [h]) else r
      else if h.hostName in r.died then r.(changed := true)
      else if gone(e, n) then r.(died := r.died + {h.hostName})
      else r.(kept := r.kept + [h])
  }

  datatype Kept = Kept(entries: map<string, Entry>, died: set<string>, changed: bool)

  function KeepEntry(snap: Snapshot, gone: Lookup, e: nat, entry: Entry, w: Kept): Kept
  {
    var r := Retain(snap, gone, e, entry.netAddress, entry.hosts, Retained([], w.died, w.changed));
    Kept(if entry.hosts == [] || r.kept != [] then w.entries[entry.netAddress := entry.(hosts := r.kept)] else w.entries,
         r.died,
         r.changed || |entry.hosts| != |r.kept| || r.died != {})
  }

  function KeepEntries(snap: Snapshot, gone: Lookup, entries: seq<Entry>, changed: bool): Kept
  {
    if entries == [] then Kept(map[], {}, changed)
    else
      var n := |entries| - 1;
      KeepEntry(snap, gone, n, entries[n], KeepEntries(snap, gone, entries[..n], changed))
  }

  // ---------- Second pass: every interface of every host ----------

  datatype Visit = Visit(hostName: string, iface: Iface)

  function IfaceVisits(hif: HostInterface): (s: seq<Visit>)
    ensures |s| == |hif.ifaces| && forall i :: 0 <= i < |s| ==> s[i] == Visit(hif.hostName, hif.ifaces[i])
  {
    seq(|hif.ifaces|, i requires 0 <= i < |hif.ifaces| => Visit(hif.hostName, hif.ifaces[i]))
  }

  function Visits(snap: Snapshot, order: seq<string>): seq<Visit>
    requires forall i :: 0 <= i < |order| ==> order[i] in snap
  {
    if order == [] then []
    else Visits(snap, order[..|order| - 1]) + IfaceVisits(snap[order[|order| - 1]])
  }

  // The first record of a host, or -1.
  function HostPos(hosts: seq<HostInfo>, hostName: string): (p: int)
    ensures -1 <= p < |hosts|
    ensures p == -1 ==> forall i :: 0 <= i < |hosts| ==> hosts[i].hostName != hostName
    ensures p >= 0 ==> hosts[p].hostName == hostName && forall i :: 0 <= i < p ==> hosts[i].hostName != hostName
  {
    if hosts == [] then -1
    else
      var p := HostPos(hosts[..|hosts| - 1], hostName);
      if p >= 0 then p else if hosts[|hosts| - 1].hostName == hostName then |hosts| - 1 else -1
  }

  function ByIndex(hosts: seq<HostInfo>): (r: seq<HostInfo>)
    ensures multiset(r) == multiset(hosts) && |r| == |hosts|
    ensures forall i, j :: 0 <= i < j < |r| ==> r[i].hostIndex <= r[j].hostIndex
  {
    SortBySorted((h: HostInfo) => h.hostIndex, hosts);
    SortBy((h: HostInfo) => h.hostIndex, hosts)
  }

  // The entry with the host added on a fresh index, unless there is none.
  function TryAdd(cfg: PluginConfig, entry: Entry, v: Visit): Option<Entry>
    requires entry.vlanCidr.len + cfg.hostBlock <= 32 && Prefixes(cfg.excludes)
  {
    var i := ChooseHostIndex(entry.hosts, entry.vlanCidr, cfg.hostBlock, cfg.excludes);
    if i.None? then None
    else
      var pod := Block(entry.vlanCidr, cfg.hostBlock, i.value);
      var h := HostInfo(i.value, v.hostName, v.iface.interfaceName, v.iface.hostIP, pod, Some(PoolName(cfg.name, pod)));
      Some(entry.(hosts := ByIndex(entry.hosts + [h])))
  }

  // The record of a host already in the entry, brought up to date.
  function Refreshed(cfg: PluginConfig, h: HostInfo, pod: Cidr, v: Visit): HostInfo
  {
    h.(podCidr := pod, interfaceName := v.iface.interfaceName, hostIP := v.iface.hostIP,
       ipPool := if h.ipPool.None? then Some(PoolName(cfg.name, pod)) else h.ipPool)
  }

  // Recompute marks the two branches that drop a host's index and pick another.
  datatype Work = Work(entries: map<string, Entry>, changed: bool) | Recompute(net: string, hostName: string)

  predicate Fits(cfg: PluginConfig)
  {
    cfg.subnet.len + cfg.interfaceBlock + cfg.hostBlock <= 32 && Prefixes(cfg.excludes)
  }

  // Every VLAN block has the length the configuration gives it.
  predicate VlanLengths(cfg: PluginConfig, m: map<string, Entry>)
  {
    forall k :: k in m ==> m[k].vlanCidr.len == cfg.subnet.len + cfg.interfaceBlock
  }

  predicate Watched(cfg: PluginConfig, v: Visit)
  {
    cfg.masterNets == [] || v.iface.netAddress in cfg.masterNets
  }

  function VisitEntry(cfg: PluginConfig, m: map<string, Entry>, changed: bool, entry: Entry, v: Visit): Work
    requires Fits(cfg) && entry.vlanCidr.len == cfg.subnet.len + cfg.interfaceBlock
  {
    var net, p := v.iface.netAddress, HostPos(entry.hosts, v.hostName);
    if p == -1 then
      var added := TryAdd(cfg, entry, v);
      if added.Some? then Work(m[net := added.value], true) else Work(m[net := entry], false)
    else
      var h := entry.hosts[p];
      var pod := BlockAt(entry.vlanCidr, cfg.hostBlock, h.hostIndex);
      if pod.None? || Tabu(entry.vlanCidr, cfg.hostBlock, h.hostIndex, SortAddress(cfg.excludes)) then
        Recompute(net, v.hostName)
      else
        var h' := Refreshed(cfg, h, pod.value, v);
        Work(m[net := entry.(hosts := entry.hosts[p := h'])], changed || h' != h)
  }

  function VisitOne(cfg: PluginConfig, w: Work, v: Visit): (r: Work)
    requires Fits(cfg) && (w.Work? ==> VlanLengths(cfg, w.entries))
    ensures r.Work? ==> VlanLengths(cfg, r.entries)
  {
    if w.Recompute? || !Watched(cfg, v) then w
    else
      var entry := InterfaceEntry(cfg, w.entries, v.iface.netAddress);
      if entry.None? then w else VisitEntry(cfg, w.entries, w.changed, entry.value, v)
  }

  function VisitAll(cfg: PluginConfig, w: Work, visits: seq<Visit>): (r: Work)
    requires Fits(cfg) && (w.Work? ==> VlanLengths(cfg, w.entries))
    ensures r.Work? ==> VlanLengths(cfg, r.entries)
  {
    if visits == [] then w
    else VisitOne(cfg, VisitAll(cfg, w, visits[..|visits| - 1]), visits[|visits| - 1])
  }

  // ---------- Third pass: hosts found dead in any entry ----------

  function Alive(hosts: seq<HostInfo>, died: set<string>): seq<HostInfo>
  {
    if hosts == [] then []
    else
      Alive(hosts[..|hosts| - 1], died) +
      if hosts[|hosts| - 1].hostName in died then [] else [hosts[|hosts| - 1]]
  }

  // An entry left without hosts is kept as it is.
  function Bury(e: Entry, died: set<string>): Entry
  {
    var alive := Alive(e.hosts, died);
    if alive == [] then e else e.(hosts := alive)
  }

  function DropDied(m: map<string, Entry>, died: set<string>): map<string, Entry>
  {
    map k | k in m :: Bury(m[k], died)
  }

  // ---------- The whole step ----------

  datatype Input = Input(snap: Snapshot, gone: Lookup, order: seq<string>)

  // The order visits every host interface of the snapshot once.
  ghost predicate InputOk(input: Input)
  {
    && NoDuplicates(input.order)
    && forall k :: k in input.order <==> k in input.snap
  }

  ghost predicate StoredLengths(cfg: PluginConfig, entries: seq<Entry>)
  {
    forall i :: 0 <= i < |entries| ==> entries[i].vlanCidr.len == cfg.subnet.len + cfg.interfaceBlock
  }

  lemma {:induction false} KeepLengths(cfg: PluginConfig, snap: Snapshot, gone: Lookup, entries: seq<Entry>, changed: bool)
    requires StoredLengths(cfg, entries)
    ensures VlanLengths(cfg, KeepEntries(snap, gone, entries, changed).entries)
  {
    if entries != [] { KeepLengths(cfg, snap, gone, entries[..|entries| - 1], changed); }
  }

  ghost function Updated(cfg: PluginConfig, entries: seq<Entry>, input: Input, changed: bool): Work
    requires Fits(cfg) && InputOk(input) && StoredLengths(cfg, entries)
  {
    KeepLengths(cfg, input.snap, input.gone, entries, changed);
    var k := KeepEntries(input.snap, input.gone, entries, changed);
    var w := VisitAll(cfg, Work(k.entries, k.changed), Visits(input.snap, input.order));
    if w.Work? && k.died != {} then w.(entries := DropDied(w.entries, k.died)) else w
  }
}
