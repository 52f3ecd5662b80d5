// What DeallocateIP and CleanHangingAllocation leave of a pool
// (daemon/src/allocator), and that the addresses they take back are free again.
module Releasing {
  import opened Compute
  import opened Sorting
  import opened Daemon
  import opened DaemonGuard
  import opened DaemonRuns

  // ---------- Deallocation ----------

  // The list after is the list before without its element p.
  ghost predicate LacksOnly(before: seq<Allocation>, after: seq<Allocation>, p: nat)
    requires p < |before|
  {
    && |after| == |before| - 1
    && (forall k :: 0 <= k < p ==> after[k] == before[k])
    && (forall k :: p <= k < |after| ==> after[k] == before[k + 1])
  }

  // A deallocation removes exactly the first record of the pod.
  lemma DeallocateExactly(cfg: PoolConfig, asMeant: bool, st: State, pod: string, namespace: string, p: nat)
    requires PoolConfigOk(cfg) && p < |st.allocations|
    requires st.allocations[p].pod == pod && st.allocations[p].namespace == namespace
    requires forall k :: 0 <= k < p ==> st.allocations[k].pod != pod || st.allocations[k].namespace != namespace
    ensures LacksOnly(st.allocations, Apply(cfg, asMeant, st, Deallocate(pod, namespace)).allocations, p)
  {
    assert Match(st.allocations[p], pod, namespace);
    assert forall k :: 0 <= k < p ==> !Match(st.allocations[k], pod, namespace);
  }

  // A pod without a record changes no list.
  lemma DeallocateOfStranger(cfg: PoolConfig, asMeant: bool, st: State, pod: string, namespace: string)
    requires PoolConfigOk(cfg)
    requires forall k :: 0 <= k < |st.allocations| ==> st.allocations[k].pod != pod || st.allocations[k].namespace != namespace
    ensures Apply(cfg, asMeant, st, Deallocate(pod, namespace)).allocations == st.allocations
  {
    assert forall k :: 0 <= k < |st.allocations| ==> !Match(st.allocations[k], pod, namespace);
  }

  // The only record of its pod.
  ghost predicate OnlyRecord(allocations: seq<Allocation>, p: nat)
    requires p < |allocations|
  {
    forall k :: 0 <= k < |allocations| && k != p ==>
      allocations[k].pod != allocations[p].pod || allocations[k].namespace != allocations[p].namespace
  }

  lemma LackingFrees(cfg: PoolConfig, before: seq<Allocation>, after: seq<Allocation>, p: nat)
    requires PoolConfigOk(cfg) && PoolOk(cfg.pod, Ranges(cfg), before) && p < |before| && LacksOnly(before, after, p)
    ensures Sound(cfg.pod, Ranges(cfg), after, Some(before[p].index))
    ensures before[p].index !in Indexes(after, MaxIndex(cfg.pod), Ranges(cfg))
    ensures forall i :: i != before[p].index && i in IndexList(before) ==> i in IndexList(after)
  {
    var own, left := IndexList(before), IndexList(after);
    forall k | 0 <= k < |left| ensures left[k] != own[p] {
      if k < p { assert left[k] == own[k]; } else { assert left[k] == own[k + 1]; }
    }
    TakenExactly(cfg.pod, Ranges(cfg), after, own[p]);
    forall i | i != own[p] && i in own ensures i in left {
      var k :| 0 <= k < |own| && own[k] == i;
      if k < p { assert left[k] == i; } else { assert left[k - 1] == i; }
    }
  }

  // A pod with one record has none afterwards; its index is usable again, and all
  // the others stay taken.
  lemma DeallocatedIsFree(cfg: PoolConfig, asMeant: bool, st: State, p: nat)
    requires PoolConfigOk(cfg) && PoolOk(cfg.pod, Ranges(cfg), st.allocations)
    requires p < |st.allocations| && OnlyRecord(st.allocations, p)
    ensures var a := st.allocations[p];
      var after := Apply(cfg, asMeant, st, Deallocate(a.pod, a.namespace)).allocations;
      && (forall k :: 0 <= k < |after| ==> after[k].pod != a.pod || after[k].namespace != a.namespace)
      && Sound(cfg.pod, Ranges(cfg), after, Some(a.index))
      && a.index !in Indexes(after, MaxIndex(cfg.pod), Ranges(cfg))
      && forall i :: i != a.index && i in IndexList(st.allocations) ==> i in IndexList(after)
  {
    var a := st.allocations[p];
    DeallocateExactly(cfg, asMeant, st, a.pod, a.namespace, p);
    LackingFrees(cfg, st.allocations, Apply(cfg, asMeant, st, Deallocate(a.pod, a.namespace)).allocations, p);
  }

  // In a full pool the next allocation gets just the index that was given back.
  lemma FullPoolReuses(cfg: PoolConfig, asMeant: bool, st: State, p: nat)
    requires PoolConfigOk(cfg) && Clear(Ranges(cfg), MaxIndex(cfg.pod))
    requires PoolOk(cfg.pod, Ranges(cfg), st.allocations) && Full(cfg.pod, Ranges(cfg), st.allocations)
    requires p < |st.allocations| && OnlyRecord(st.allocations, p)
    ensures var a := st.allocations[p];
      Pick(cfg, Apply(cfg, asMeant, st, Deallocate(a.pod, a.namespace)).allocations, 1) == Some(a.index)
  {
    var a := st.allocations[p];
    var after := Apply(cfg, asMeant, st, Deallocate(a.pod, a.namespace)).allocations;
    DeallocatedIsFree(cfg, asMeant, st, p);
    WithoutSelects(st.allocations, a.pod, a.namespace);
    SelectionPoolOk(cfg.pod, Ranges(cfg), st.allocations, after);
    ExcludeRangesFormed(cfg.pod, cfg.excludes);
    NoAddressMeansFull(cfg.pod, Ranges(cfg), after);
    PickedSound(cfg, after, 1);
  }

  // ---------- Clean-up ----------

  // The positions of the records of existing pods, in order.
  ghost predicate LivePositions(before: seq<Allocation>, live: (string, string) -> bool, f: seq<nat>)
  {
    && StrictlyIncreasing(f)
    && (forall j :: 0 <= j < |f| ==> f[j] < |before| && live(before[f[j]].pod, before[f[j]].namespace))
    && (forall k: nat :: k < |before| && live(before[k].pod, before[k].namespace) ==> k in f)
  }

  lemma {:induction false} SurvivingExactly(before: seq<Allocation>, live: (string, string) -> bool) returns (f: seq<nat>)
    ensures LivePositions(before, live, f) && AreAt(Surviving(before, live), before, f)
  {
    f := [];
    if before != [] {
      var n := |before| - 1;
      f := SurvivingExactly(before[..n], live);
      AreAtExtend(Surviving(before[..n], live), before, f);
      if live(before[n].pod, before[n].namespace) { f := LivePositionsExtend(before, live, f); }
    }
  }

  // The list holds the elements at the positions, one by one.
  ghost predicate AreAt(s: seq<Allocation>, before: seq<Allocation>, f: seq<nat>)
  {
    |s| == |f| && forall j :: 0 <= j < |f| ==> f[j] < |before| && s[j] == before[f[j]]
  }

  lemma AreAtExtend(s: seq<Allocation>, before: seq<Allocation>, f: seq<nat>)
    requires before != [] && AreAt(s, before[..|before| - 1], f)
    ensures AreAt(s, before, f) && AreAt(s + [before[|before| - 1]], before, f + [|before| - 1])
  {
  }

  lemma LivePositionsExtend(before: seq<Allocation>, live: (string, string) -> bool, f: seq<nat>) returns (g: seq<nat>)
    requires before != [] && LivePositions(before[..|before| - 1], live, f)
    requires var a := before[|before| - 1]; live(a.pod, a.namespace)
    ensures g == f + [|before| - 1] && LivePositions(before, live, g)
  {
    var n := |before| - 1;
    g := f + [n];
    forall k: nat | k < |before| && live(before[k].pod, before[k].namespace) ensures k in g {
      if k < n { assert before[..n][k] == before[k] && k in f; } else { assert g[|f|] == n; }
    }
    forall j | 0 <= j < |g| ensures g[j] < |before| && live(before[g[j]].pod, before[g[j]].namespace) {
      if j < |f| { assert before[..n][f[j]] == before[f[j]]; }
    }
  }

  // A clean-up keeps exactly the records of existing pods, each as often as
  // before and in the same order.
  lemma CleanExactly(cfg: PoolConfig, asMeant: bool, st: State, live: (string, string) -> bool) returns (f: seq<nat>)
    requires PoolConfigOk(cfg)
    ensures LivePositions(st.allocations, live, f)
    ensures var after := Apply(cfg, asMeant, st, Clean(live)).allocations;
      && AreAt(after, st.allocations, f)
      && forall a :: a in after <==> a in st.allocations && live(a.pod, a.namespace)
  {
    var before, after := st.allocations, Apply(cfg, asMeant, st, Clean(live)).allocations;
    f := SurvivingExactly(before, live);
    forall a ensures a in after <==> a in before && live(a.pod, a.namespace) {
      if a in before && live(a.pod, a.namespace) { SurvivingKeeps(before, live, a); }
      if a in after {
        var j :| 0 <= j < |after| && after[j] == a;
        assert before[f[j]] == a;
      }
    }
  }

  // So the index of a pod that is gone is usable again.
  lemma CleanedIsFree(cfg: PoolConfig, asMeant: bool, st: State, live: (string, string) -> bool, p: nat)
    requires PoolConfigOk(cfg) && PoolOk(cfg.pod, Ranges(cfg), st.allocations)
    requires p < |st.allocations| && !live(st.allocations[p].pod, st.allocations[p].namespace)
    ensures var i, after := st.allocations[p].index, Apply(cfg, asMeant, st, Clean(live)).allocations;
      && Sound(cfg.pod, Ranges(cfg), after, Some(i))
      && i !in Indexes(after, MaxIndex(cfg.pod), Ranges(cfg))
  {
    var before, after := st.allocations, Apply(cfg, asMeant, st, Clean(live)).allocations;
    var own, left := IndexList(before), IndexList(after);
    var f := CleanExactly(cfg, asMeant, st, live);
    forall j | 0 <= j < |left| ensures left[j] != own[p] {
      assert left[j] == own[f[j]] && f[j] != p;
      if f[j] < p { assert own[f[j]] != own[p]; } else { assert own[p] != own[f[j]]; }
    }
    TakenExactly(cfg.pod, Ranges(cfg), after, own[p]);
  }

  // ---------- Expiry ----------

  // Once its record of a deallocation has expired, a pod asks like a new one.
  lemma ExpiredStartsOver(cfg: PoolConfig, st: State, pod: string, namespace: string, expired: set<string>)
    requires PoolConfigOk(cfg) && pod in expired && LastTaken(cfg, st.allocations) + 1 < MaxIndex(cfg.pod)
    ensures LastTaken(cfg, st.allocations) >= 0
    ensures var i, after := LastTaken(cfg, st.allocations) + 1, Apply(cfg, false, st, Allocate(pod, namespace, expired));
      && after.allocations == st.allocations + [Given(cfg, pod, namespace, i)]
      && forall q :: q in after.history <==> q in st.history && q !in expired
  {
    var flushed := State(st.allocations, st.history - expired);
    NoneAboveLastTaken(cfg, st.allocations, LastTaken(cfg, st.allocations) + 1);
    ExpiryFlushes(cfg, st, pod, namespace, expired);
    AttemptAppends(cfg, flushed, pod, namespace, LastTaken(cfg, st.allocations) + 1);
  }

  lemma ExpiryFlushes(cfg: PoolConfig, st: State, pod: string, namespace: string, expired: set<string>)
    requires PoolConfigOk(cfg)
    ensures Apply(cfg, false, st, Allocate(pod, namespace, expired)) ==
            Apply(cfg, false, State(st.allocations, st.history - expired), Allocate(pod, namespace, {}))
  {
    NothingExpires(st.history - expired);
  }

  lemma NothingExpires(history: map<string, nat>)
    ensures history - {} == history
  {
  }
}
