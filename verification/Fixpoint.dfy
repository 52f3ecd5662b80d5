// Running UpdateEntries again on its own result, with the same snapshot, leaves
// every entry as it is, whatever the map orders.
module Fixpoint {
  import opened Plan
  import opened Reconcile
  import opened ReconcileSafe
  import opened Runs
  import opened Settling
  import opened Membership

  function MapOf(entries: seq<Entry>): map<string, Entry>
  {
    if entries == [] then map[]
    else MapOf(entries[..|entries| - 1])[entries[|entries| - 1].netAddress := entries[|entries| - 1]]
  }

  lemma {:induction false} MapOfDistinct(entries: seq<Entry>)
    requires forall i, j :: 0 <= i < j < |entries| ==> entries[i].netAddress != entries[j].netAddress
    ensures forall i :: 0 <= i < |entries| ==>
              entries[i].netAddress in MapOf(entries) && MapOf(entries)[entries[i].netAddress] == entries[i]
    ensures forall k :: k in MapOf(entries) ==> exists i :: 0 <= i < |entries| && entries[i].netAddress == k
  {
    if entries != [] {
      var n := |entries| - 1;
      MapOfDistinct(entries[..n]);
      forall k | k in MapOf(entries) ensures exists i :: 0 <= i < |entries| && entries[i].netAddress == k {
        if k != entries[n].netAddress {
          var i :| 0 <= i < n && entries[..n][i].netAddress == k;
          assert entries[i].netAddress == k;
        }
      }
    }
  }

  lemma MapOfListing(m: map<string, Entry>, entries: seq<Entry>)
    requires Listing(m, entries) && forall k :: k in m ==> m[k].netAddress == k
    ensures MapOf(entries) == m
  {
    MapOfDistinct(entries);
    forall k | k in m ensures k in MapOf(entries) && MapOf(entries)[k] == m[k] {
      var i :| 0 <= i < |entries| && entries[i] == m[k];
    }
  }

  // ---------- A first pass that drops nothing ----------

  // A look-up or the snapshot takes a host off a network.
  ghost predicate Leaves(snap: Snapshot, gone: Lookup, entries: seq<Entry>, i: nat, a: nat)
    requires IsRecord(entries, i, a)
  {
    var name := entries[i].hosts[a].hostName;
    if name in snap then !OnNet(snap[name], entries[i].netAddress) else gone(i, a)
  }

  ghost predicate Drops(snap: Snapshot, gone: Lookup, entries: seq<Entry>)
  {
    exists i, a :: IsRecord(entries, i, a) && Leaves(snap, gone, entries, i, a)
  }

  lemma {:induction false} RetainAll(snap: Snapshot, gone: Lookup, e: nat, net: string, hosts: seq<HostInfo>, changed: bool)
    requires forall a :: 0 <= a < |hosts| ==>
               if hosts[a].hostName in snap then OnNet(snap[hosts[a].hostName], net) else !gone(e, a)
    ensures Retain(snap, gone, e, net, hosts, Retained([], {}, changed)) == Retained(hosts, {}, changed)
  {
    if hosts != [] {
      RetainAll(snap, gone, e, net, hosts[..|hosts| - 1], changed);
      assert hosts == hosts[..|hosts| - 1] + [hosts[|hosts| - 1]];
    }
  }

  lemma {:induction false} KeepAll(snap: Snapshot, gone: Lookup, entries: seq<Entry>, changed: bool)
    requires !Drops(snap, gone, entries)
    ensures KeepEntries(snap, gone, entries, changed) == Kept(MapOf(entries), {}, changed)
  {
    if entries != [] {
      var n := |entries| - 1;
      forall i, a | IsRecord(entries[..n], i, a) ensures !Leaves(snap, gone, entries[..n], i, a) {
        assert IsRecord(entries, i, a) && !Leaves(snap, gone, entries, i, a);
      }
      KeepAll(snap, gone, entries[..n], changed);
      forall a | 0 <= a < |entries[n].hosts|
        ensures var name := entries[n].hosts[a].hostName;
          if name in snap then OnNet(snap[name], entries[n].netAddress) else !gone(n, a)
      {
        assert IsRecord(entries, n, a) && !Leaves(snap, gone, entries, n, a);
      }
      RetainAll(snap, gone, n, entries[n].netAddress, entries[n].hosts, changed);
    }
  }

  lemma MapOfOk(cfg: PluginConfig, entries: seq<Entry>)
    requires ConfigOk(cfg) && PlanOk(cfg, entries)
    ensures MapOk(cfg, MapOf(entries))
  {
    KeepAll(map[], (e, h) => false, entries, false);
    FirstPassOk(cfg, map[], (e, h) => false, entries, false);
  }

  // ---------- The theorem ----------

  lemma StayingPlanIsKept(m: map<string, Entry>, snap: Snapshot, gone: Lookup, entries: seq<Entry>, dead: set<string>)
    requires AllStay(snap, dead, m) && Consistent(gone, entries, dead) && Listing(m, entries)
    requires forall k :: k in m ==> m[k].netAddress == k
    ensures KeepEntries(snap, gone, entries, false) == Kept(m, {}, false)
  {
    forall i, a | IsRecord(entries, i, a) ensures !Leaves(snap, gone, entries, i, a) {
      assert entries[i].hosts[a] in entries[i].hosts;
      assert HasRecord(m, entries[i].netAddress, entries[i].hosts[a].hostName);
    }
    KeepAll(snap, gone, entries, false);
    MapOfListing(m, entries);
  }

  // If look-ups agree on which nodes are dead, the entries an update leaves are a
  // fixpoint of the update: for every listing of the result and every order of the
  // second run, even if hosts were turned away for lack of indexes or have several
  // interfaces on one network.
  lemma UpdateIsIdempotent(cfg: PluginConfig, entries: seq<Entry>, first: Input, changed: bool, again: seq<Entry>, second: Input, dead: set<string>)
    requires ConfigOk(cfg) && PlanOk(cfg, entries) && StoredLengths(cfg, entries)
    requires InputOk(first) && InputOk(second) && second.snap == first.snap && KeyedByHost(first.snap)
    requires Consistent(first.gone, entries, dead) && Consistent(second.gone, again, dead)
    requires var w := Updated(cfg, entries, first, changed); w.Work? && Listing(w.entries, again)
    ensures PlanOk(cfg, again) && StoredLengths(cfg, again)
    ensures var m, w := Updated(cfg, entries, first, changed).entries, Updated(cfg, again, second, false);
      && w.Work? && w.entries == m && MapOk(cfg, m) && Settled(cfg, m, first.snap)
      && KeepEntries(first.snap, second.gone, again, false) == Kept(m, {}, false)
  {
    var p := ConsistentUpdate(cfg, entries, first, changed, dead);
    ListingOk(cfg, p.r, again);
    PlanLengths(cfg, again);
    StayingPlanIsKept(p.r, first.snap, second.gone, again, dead);
    SettledExactly(cfg, p.r, false, first.snap, second.order);
  }
}
