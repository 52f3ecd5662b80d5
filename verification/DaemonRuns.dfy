// The allocator's steps on one pool (AllocateIP, DeallocateIP,
// CleanHangingAllocation and the retry history) and their runs.
module DaemonRuns {
  import opened Powers
  import opened Blocks
  import opened Compute
  import opened Sorting
  import opened Gaps
  import opened Daemon
  import opened DaemonGuard

  // ---------- Placing a new allocation ----------

  // The last position whose index exceeds i, or -1.
  function LastLarger(allocations: seq<Allocation>, i: int): (t: int)
    ensures -1 <= t < |allocations|
    ensures t >= 0 ==> allocations[t].index > i
    ensures forall k :: t < k < |allocations| ==> allocations[k].index <= i
  {
    if allocations == [] then -1
    else
      var n := |allocations| - 1;
      if allocations[n].index > i then n else LastLarger(allocations[..n], i)
  }

  // The insertion applyNewAllocations is meant to make.
  function Inserted(allocations: seq<Allocation>, a: Allocation): seq<Allocation>
  {
    var t := LastLarger(allocations, a.index);
    if t == -1 then allocations + [a] else allocations[..t] + [a] + allocations[t..]
  }

  // The one it makes: the element at the position is overwritten before it is
  // copied.
  function Placed(allocations: seq<Allocation>, a: Allocation): seq<Allocation>
  {
    var t := LastLarger(allocations, a.index);
    if t == -1 then allocations + [a] else allocations[..t] + [a, a] + allocations[t + 1..]
  }

  lemma PlacedIsInsertedExactly(allocations: seq<Allocation>, a: Allocation)
    ensures Placed(allocations, a) == Inserted(allocations, a) <==>
            forall k :: 0 <= k < |allocations| ==> allocations[k].index <= a.index
  {
    var t := LastLarger(allocations, a.index);
    if t >= 0 {
      assert Placed(allocations, a)[t + 1] == a;
      assert Inserted(allocations, a)[t + 1] == allocations[t];
    }
  }

  lemma InsertedDistinct(allocations: seq<Allocation>, at: nat, a: Allocation)
    requires at <= |allocations| && NoDuplicates(IndexList(allocations)) && a.index !in IndexList(allocations)
    ensures NoDuplicates(IndexList(allocations[..at] + [a] + allocations[at..]))
  {
    var r, own := allocations[..at] + [a] + allocations[at..], IndexList(allocations);
    forall i, j | 0 <= i < j < |r| ensures IndexList(r)[i] != IndexList(r)[j] {
      var i', j' := if i < at then i else i - 1, if j < at then j else j - 1;
      if i == at {
        assert r[j] == allocations[j'] && own[j'] in own;
      } else if j == at {
        assert r[i] == allocations[i'] && own[i'] in own;
      } else {
        assert r[i] == allocations[i'] && r[j] == allocations[j'] && own[i'] != own[j'];
      }
    }
  }

  lemma InsertedOk(pod: Cidr, ranges: seq<Range>, allocations: seq<Allocation>, a: Allocation)
    requires pod.len <= 32 && PoolOk(pod, ranges, allocations)
    requires Sound(pod, ranges, allocations, Some(a.index)) && a.address == pod.base + a.index
    ensures PoolOk(pod, ranges, Inserted(allocations, a))
  {
    var t := LastLarger(allocations, a.index);
    var at := if t == -1 then |allocations| else t;
    var r := allocations[..at] + [a] + allocations[at..];
    assert Inserted(allocations, a) == r;
    InsertedDistinct(allocations, at, a);
    forall k | 0 <= k < |r|
      ensures 1 <= r[k].index < MaxIndex(pod) && !Excluded(ranges, r[k].index) && r[k].address == pod.base + r[k].index
    {
      if k != at { assert r[k] == allocations[if k < at then k else k - 1]; }
    }
  }

  // As written, a larger index in the pool costs the allocation that holds it its
  // record, and stores the new one twice.
  lemma PlacedLosesARecord(pod: Cidr, ranges: seq<Range>, allocations: seq<Allocation>, a: Allocation)
    requires pod.len <= 32 && PoolOk(pod, ranges, allocations)
    requires Sound(pod, ranges, allocations, Some(a.index)) && LastLarger(allocations, a.index) >= 0
    ensures allocations[LastLarger(allocations, a.index)] !in Placed(allocations, a)
    ensures !PoolOk(pod, ranges, Placed(allocations, a))
  {
    var t := LastLarger(allocations, a.index);
    var r, own := Placed(allocations, a), IndexList(allocations);
    assert IndexList(r)[t] == IndexList(r)[t + 1];
    forall k | 0 <= k < |r| ensures r[k] != allocations[t] {
      if k < t {
        assert own[k] != own[t];
      } else if k > t + 1 {
        assert r[k] == allocations[k - 1] && own[t] != own[k - 1];
      }
    }
  }

  // ---------- Steps ----------

  datatype PoolConfig = PoolConfig(pod: Cidr, excludes: seq<Cidr>)

  // What the pools handed over by the controller satisfy: each exclude lies in
  // the pod block.
  ghost predicate PoolConfigOk(cfg: PoolConfig)
  {
    && Canonical(cfg.pod)
    && forall k :: 0 <= k < |cfg.excludes| ==> Canonical(cfg.excludes[k]) && Inside(cfg.excludes[k], cfg.pod)
  }

  function Ranges(cfg: PoolConfig): seq<Range>
    requires forall k :: 0 <= k < |cfg.excludes| ==> cfg.excludes[k].len <= 32
  {
    ExcludeRanges(cfg.pod, cfg.excludes)
  }

  datatype State = State(allocations: seq<Allocation>, history: map<string, nat>)

  datatype Step =
    | Allocate(pod: string, namespace: string, expired: set<string>)
    | Deallocate(pod: string, namespace: string)
    | Clean(live: (string, string) -> bool)

  lemma {:induction false} ExcludeRangesFormed(pod: Cidr, excludes: seq<Cidr>)
    requires forall k :: 0 <= k < |excludes| ==> excludes[k].len <= 32
    ensures RangesFormed(ExcludeRanges(pod, excludes))
  {
    if excludes != [] { ExcludeRangesFormed(pod, excludes[..|excludes| - 1]); }
  }

  lemma NextIndexIsNatural(indexes: seq<int>, offset: nat, maxIndex: int)
    requires forall x :: x in indexes ==> x >= 0
    ensures var r := NextIndex(indexes, offset, maxIndex); r.Some? ==> r.value >= 0
  {
    DaemonIsStartOne(indexes, 0);
    SearchResult(indexes, 0, 1);
    assert |indexes| > 0 ==> indexes[|indexes| - 1] in indexes;
  }

  function Pick(cfg: PoolConfig, allocations: seq<Allocation>, offset: nat): (r: Option<nat>)
    requires cfg.pod.len <= 32 && forall k :: 0 <= k < |cfg.excludes| ==> cfg.excludes[k].len <= 32
    ensures r == NextIndex(Indexes(allocations, MaxIndex(cfg.pod), Ranges(cfg)), offset, MaxIndex(cfg.pod))
  {
    var indexes := Indexes(allocations, MaxIndex(cfg.pod), Ranges(cfg));
    assert forall x :: x in indexes ==> x >= 0 by { IndexesNatural(cfg, allocations); }
    NextIndexIsNatural(indexes, offset, MaxIndex(cfg.pod));
    var i := NextIndex(indexes, offset, MaxIndex(cfg.pod));
    if i.None? then None else Some(i.value)
  }

  lemma IndexesNatural(cfg: PoolConfig, allocations: seq<Allocation>)
    requires cfg.pod.len <= 32 && forall k :: 0 <= k < |cfg.excludes| ==> cfg.excludes[k].len <= 32
    ensures forall x :: x in Indexes(allocations, MaxIndex(cfg.pod), Ranges(cfg)) ==> x >= 0
  {
    ExcludeRangesFormed(cfg.pod, cfg.excludes);
    forall x | x in Indexes(allocations, MaxIndex(cfg.pod), Ranges(cfg)) ensures x >= 0 {
      TakenExactly(cfg.pod, Ranges(cfg), allocations, x);
      if x in IndexList(allocations) {
        var k :| 0 <= k < |allocations| && IndexList(allocations)[k] == x;
      }
    }
  }

  // The retry offset: one more than at the last attempt, if the pod released an
  // address recently.
  function Attempt(history: map<string, nat>, pod: string): nat
  {
    if pod in history then history[pod] + 1 else 1
  }

  function Recorded(history: map<string, nat>, pod: string): map<string, nat>
  {
    if pod in history then history[pod := history[pod] + 1] else history
  }

  function Match(a: Allocation, pod: string, namespace: string): bool
  {
    a.pod == pod && a.namespace == namespace
  }

  // The position of a pod's first allocation, or -1.
  function FirstMatch(allocations: seq<Allocation>, pod: string, namespace: string): (p: int)
    ensures -1 <= p < |allocations|
    ensures p >= 0 ==> Match(allocations[p], pod, namespace)
    ensures forall k :: 0 <= k < (if p >= 0 then p else |allocations|) ==> !Match(allocations[k], pod, namespace)
  {
    if allocations == [] then -1
    else
      var n := |allocations| - 1;
      var p := FirstMatch(allocations[..n], pod, namespace);
      if p >= 0 then p else if Match(allocations[n], pod, namespace) then n else -1
  }

  // The first allocation of a pod removed.
  function Without(allocations: seq<Allocation>, pod: string, namespace: string): seq<Allocation>
  {
    var p := FirstMatch(allocations, pod, namespace);
    if p == -1 then allocations else allocations[..p] + allocations[p + 1..]
  }

  function Surviving(allocations: seq<Allocation>, live: (string, string) -> bool): seq<Allocation>
  {
    if allocations == [] then []
    else
      Surviving(allocations[..|allocations| - 1], live) +
      var a := allocations[|allocations| - 1]; if live(a.pod, a.namespace) then [a] else []
  }

  // The allocation made for an index.
  function Given(cfg: PoolConfig, pod: string, namespace: string, i: nat): Allocation
  {
    Allocation(pod, namespace, i, AddressByIndex(cfg.pod, i))
  }

  // asMeant chooses between the intended insertion and the one in the code.
  function Apply(cfg: PoolConfig, asMeant: bool, st: State, step: Step): State
    requires cfg.pod.len <= 32 && forall k :: 0 <= k < |cfg.excludes| ==> cfg.excludes[k].len <= 32
  {
    match step
    case Allocate(pod, namespace, expired) =>
      var history := st.history - expired;
      var i := Pick(cfg, st.allocations, Attempt(history, pod));
      if i.None? then State(st.allocations, Recorded(history, pod))
      else
        var a := Given(cfg, pod, namespace, i.value);
        State(if asMeant then Inserted(st.allocations, a) else Placed(st.allocations, a), Recorded(history, pod))
    case Deallocate(pod, namespace) =>
      State(Without(st.allocations, pod, namespace), if pod in st.history then st.history else st.history[pod := 1])
    case Clean(live) =>
      State(Surviving(st.allocations, live), st.history)
  }

  function Run(cfg: PoolConfig, asMeant: bool, st: State, steps: seq<Step>): State
    requires cfg.pod.len <= 32 && forall k :: 0 <= k < |cfg.excludes| ==> cfg.excludes[k].len <= 32
  {
    if steps == [] then st
    else Apply(cfg, asMeant, Run(cfg, asMeant, st, steps[..|steps| - 1]), steps[|steps| - 1])
  }

  // ---------- Every step keeps the pool ----------

  // A selection of the allocations in order.
  ghost predicate Selection(s: seq<Allocation>, allocations: seq<Allocation>)
  {
    && (forall a :: a in s ==> a in allocations)
    && (NoDuplicates(IndexList(allocations)) ==> NoDuplicates(IndexList(s)))
  }

  lemma SelectionPoolOk(pod: Cidr, ranges: seq<Range>, allocations: seq<Allocation>, s: seq<Allocation>)
    requires pod.len <= 32 && PoolOk(pod, ranges, allocations) && Selection(s, allocations)
    ensures PoolOk(pod, ranges, s)
  {
    forall k | 0 <= k < |s|
      ensures 1 <= s[k].index < MaxIndex(pod) && !Excluded(ranges, s[k].index) && s[k].address == pod.base + s[k].index
    {
      assert s[k] in allocations;
    }
  }

  lemma RemovedDistinct(s: seq<int>, p: nat)
    requires p < |s| && NoDuplicates(s)
    ensures NoDuplicates(s[..p] + s[p + 1..])
  {
    var r := s[..p] + s[p + 1..];
    forall i, j | 0 <= i < j < |r| ensures r[i] != r[j] {
      assert r[i] == s[if i < p then i else i + 1] && r[j] == s[if j < p then j else j + 1];
    }
  }

  lemma WithoutSelects(allocations: seq<Allocation>, pod: string, namespace: string)
    ensures Selection(Without(allocations, pod, namespace), allocations)
  {
    var p := FirstMatch(allocations, pod, namespace);
    if p >= 0 {
      var r, own := allocations[..p] + allocations[p + 1..], IndexList(allocations);
      assert IndexList(r) == own[..p] + own[p + 1..];
      if NoDuplicates(own) { RemovedDistinct(own, p); }
    }
  }

  lemma {:induction false} SurvivingSelects(allocations: seq<Allocation>, live: (string, string) -> bool)
    ensures Selection(Surviving(allocations, live), allocations)
  {
    if allocations != [] {
      var n := |allocations| - 1;
      var init := allocations[..n];
      SurvivingSelects(init, live);
      var r := Surviving(init, live);
      if NoDuplicates(IndexList(allocations)) {
        assert forall k :: 0 <= k < n ==> IndexList(init)[k] == IndexList(allocations)[k];
        forall k | 0 <= k < |r| ensures r[k].index != allocations[n].index {
          assert r[k] in init;
          var j :| 0 <= j < n && init[j] == r[k];
          assert IndexList(allocations)[j] == r[k].index && IndexList(allocations)[n] == allocations[n].index;
        }
      }
    }
  }

  lemma PickedSound(cfg: PoolConfig, allocations: seq<Allocation>, offset: nat)
    requires PoolConfigOk(cfg) && offset >= 1 && PoolOk(cfg.pod, Ranges(cfg), allocations)
    requires Clear(Ranges(cfg), MaxIndex(cfg.pod))
    ensures var i := Pick(cfg, allocations, offset);
      i.Some? ==>
        && Sound(cfg.pod, Ranges(cfg), allocations, Some(i.value))
        && AddressByIndex(cfg.pod, i.value) == cfg.pod.base + i.value
  {
    ExcludeRangesFormed(cfg.pod, cfg.excludes);
    ChoiceSound(cfg.pod, Ranges(cfg), allocations, offset);
    var i := Pick(cfg, allocations, offset);
    if i.Some? { AddressIsSum(cfg.pod, i.value); }
  }

  // Whether a step is an allocation that has to go before an existing one.
  ghost predicate Overtakes(cfg: PoolConfig, st: State, step: Step)
    requires PoolConfigOk(cfg)
  {
    step.Allocate? &&
    var i := Pick(cfg, st.allocations, Attempt(st.history - step.expired, step.pod));
    i.Some? && exists k :: 0 <= k < |st.allocations| && st.allocations[k].index > i.value
  }

  // With the intended insertion every step keeps the pool; as written, exactly
  // the steps that do not overtake an allocation do.
  lemma StepKeepsPool(cfg: PoolConfig, st: State, step: Step)
    requires PoolConfigOk(cfg) && PoolOk(cfg.pod, Ranges(cfg), st.allocations) && Clear(Ranges(cfg), MaxIndex(cfg.pod))
    ensures PoolOk(cfg.pod, Ranges(cfg), Apply(cfg, true, st, step).allocations)
    ensures PoolOk(cfg.pod, Ranges(cfg), Apply(cfg, false, st, step).allocations) <==> !Overtakes(cfg, st, step)
    ensures !Overtakes(cfg, st, step) ==> Apply(cfg, false, st, step) == Apply(cfg, true, st, step)
  {
    match step
    case Allocate(pod, namespace, expired) =>
      var offset := Attempt(st.history - expired, pod);
      var i := Pick(cfg, st.allocations, offset);
      PickedSound(cfg, st.allocations, offset);
      if i.Some? {
        var a := Given(cfg, pod, namespace, i.value);
        InsertedOk(cfg.pod, Ranges(cfg), st.allocations, a);
        PlacedIsInsertedExactly(st.allocations, a);
        if LastLarger(st.allocations, a.index) >= 0 {
          PlacedLosesARecord(cfg.pod, Ranges(cfg), st.allocations, a);
        }
      }
    case Deallocate(pod, namespace) =>
      WithoutSelects(st.allocations, pod, namespace);
      SelectionPoolOk(cfg.pod, Ranges(cfg), st.allocations, Without(st.allocations, pod, namespace));
    case Clean(live) =>
      SurvivingSelects(st.allocations, live);
      SelectionPoolOk(cfg.pod, Ranges(cfg), st.allocations, Surviving(st.allocations, live));
  }

  // ---------- What a step does to a record ----------

  // Whether a step gives back the address of a record's pod.
  ghost predicate Releases(step: Step, a: Allocation)
  {
    || (step.Deallocate? && Match(a, step.pod, step.namespace))
    || (step.Clean? && !step.live(a.pod, a.namespace))
  }

  lemma WithoutKeeps(allocations: seq<Allocation>, pod: string, namespace: string, a: Allocation)
    requires a in allocations && !Match(a, pod, namespace)
    ensures a in Without(allocations, pod, namespace)
  {
    var p := FirstMatch(allocations, pod, namespace);
    if p >= 0 { OtherStays(allocations, p, a); }
  }

  lemma {:induction false} SurvivingKeeps(allocations: seq<Allocation>, live: (string, string) -> bool, a: Allocation)
    requires a in allocations && live(a.pod, a.namespace)
    ensures a in Surviving(allocations, live)
  {
    if a in allocations[..|allocations| - 1] {
      SurvivingKeeps(allocations[..|allocations| - 1], live, a);
    } else {
      assert a == allocations[|allocations| - 1];
    }
  }

  // With the intended insertion, a record stays until a step releases it.
  lemma StepKeepsRecord(cfg: PoolConfig, st: State, step: Step, a: Allocation)
    requires PoolConfigOk(cfg) && a in st.allocations && !Releases(step, a)
    ensures a in Apply(cfg, true, st, step).allocations
  {
    match step
    case Allocate(pod, namespace, expired) =>
    case Deallocate(pod, namespace) => WithoutKeeps(st.allocations, pod, namespace, a);
    case Clean(live) => SurvivingKeeps(st.allocations, live, a);
  }

  // An insertion that keeps the pool was of a free index in range.
  lemma InsertedOkIsSound(pod: Cidr, ranges: seq<Range>, allocations: seq<Allocation>, a: Allocation)
    requires pod.len <= 32 && PoolOk(pod, ranges, Inserted(allocations, a))
    ensures Sound(pod, ranges, allocations, Some(a.index))
  {
    var t := LastLarger(allocations, a.index);
    var at, r := if t == -1 then |allocations| else t, Inserted(allocations, a);
    assert r[at] == a;
    forall k | 0 <= k < |allocations| ensures allocations[k].index != a.index {
      var k' := if k < at then k else k + 1;
      assert r[k'] == allocations[k];
      assert IndexList(r)[k'] != IndexList(r)[at];
    }
  }

  // ---------- Runs ----------

  lemma {:induction false} RunKeepsPool(cfg: PoolConfig, st: State, steps: seq<Step>)
    requires PoolConfigOk(cfg) && PoolOk(cfg.pod, Ranges(cfg), st.allocations) && Clear(Ranges(cfg), MaxIndex(cfg.pod))
    ensures PoolOk(cfg.pod, Ranges(cfg), Run(cfg, true, st, steps).allocations)
  {
    if steps != [] {
      RunKeepsPool(cfg, st, steps[..|steps| - 1]);
      StepKeepsPool(cfg, Run(cfg, true, st, steps[..|steps| - 1]), steps[|steps| - 1]);
    }
  }

  // A run of the code as written that never overtakes.
  ghost predicate InOrder(cfg: PoolConfig, st: State, steps: seq<Step>)
    requires PoolConfigOk(cfg)
  {
    steps == [] ||
    var init := steps[..|steps| - 1];
    InOrder(cfg, st, init) && !Overtakes(cfg, Run(cfg, false, st, init), steps[|steps| - 1])
  }

  // A run of the code as written that keeps the pool at every point.
  ghost predicate AlwaysOk(cfg: PoolConfig, st: State, steps: seq<Step>)
    requires PoolConfigOk(cfg)
  {
    && PoolOk(cfg.pod, Ranges(cfg), Run(cfg, false, st, steps).allocations)
    && (steps == [] || AlwaysOk(cfg, st, steps[..|steps| - 1]))
  }

  // These are the same runs, and they are the intended ones.
  lemma {:induction false} WrittenRunKeepsPoolExactly(cfg: PoolConfig, st: State, steps: seq<Step>)
    requires PoolConfigOk(cfg) && PoolOk(cfg.pod, Ranges(cfg), st.allocations) && Clear(Ranges(cfg), MaxIndex(cfg.pod))
    ensures AlwaysOk(cfg, st, steps) <==> InOrder(cfg, st, steps)
    ensures InOrder(cfg, st, steps) ==> Run(cfg, false, st, steps) == Run(cfg, true, st, steps)
  {
    if steps != [] {
      var init := steps[..|steps| - 1];
      WrittenRunKeepsPoolExactly(cfg, st, init);
      if AlwaysOk(cfg, st, init) { StepKeepsPool(cfg, Run(cfg, false, st, init), steps[|steps| - 1]); }
    }
  }

  const SMALL_POOL: PoolConfig := PoolConfig(Cidr(0, 29), [])

  lemma SmallPool()
    ensures PoolConfigOk(SMALL_POOL) && Ranges(SMALL_POOL) == [] && MaxIndex(SMALL_POOL.pod) == 6
    ensures forall i: nat :: i < 8 ==> AddressByIndex(SMALL_POOL.pod, i) == i
  {
    assert Pow2(3) == 8;
    forall i: nat | i < 8 ensures AddressByIndex(SMALL_POOL.pod, i) == i {
      AddressIsSum(SMALL_POOL.pod, i);
    }
  }

  lemma SortedEnds(own: seq<int>, top: int, low: int)
    requires top in own && forall x :: x in own ==> low <= x <= top
    ensures var s := SortInts(own); |s| == |own| > 0 && s[|s| - 1] == top && low <= s[0]
  {
    var s := SortInts(own);
    assert top in s && s[0] in s && s[|s| - 1] in s;
  }

  lemma PickInSmallPool(allocations: seq<Allocation>, top: nat, low: nat)
    requires exists k :: 0 <= k < |allocations| && allocations[k].index == top
    requires forall k :: 0 <= k < |allocations| ==> low <= allocations[k].index <= top
    ensures top + 1 < 6 ==> Pick(SMALL_POOL, allocations, 1) == Some(top + 1)
    ensures top + 1 >= 6 && low > 1 && |allocations| != top ==> Pick(SMALL_POOL, allocations, 1) == Some(1)
  {
    SmallPool();
    var own := IndexList(allocations);
    var k :| 0 <= k < |allocations| && allocations[k].index == top;
    assert own[k] == top;
    assert own + [] == own;
    SortedEnds(own, top, low);
  }

  // Indexes 1 and 2 are taken, 3 to 5 are free, and the fourth attempt of a pod
  // finds no address.
  lemma FreeIndexIsNotFound(a: Allocation, b: Allocation)
    requires a.index == a.address == 1 && b.index == b.address == 2
    ensures PoolOk(SMALL_POOL.pod, Ranges(SMALL_POOL), [a, b]) && Sound(SMALL_POOL.pod, Ranges(SMALL_POOL), [a, b], Some(3))
    ensures Pick(SMALL_POOL, [a, b], 4) == None
  {
    SmallPool();
    var own := IndexList([a, b]);
    assert own == [1, 2] && own + [] == own;
    SortedStays(own);
    NoAddressExactly(SMALL_POOL.pod, [], [a, b], 4);
  }

  lemma OvertakingStep(d: Allocation, e: Allocation, f: Allocation)
    requires d.index == 4 && e.index == 5 && f == Given(SMALL_POOL, "f", "ns", 1)
    ensures Apply(SMALL_POOL, false, State([d, e], map[]), Allocate("f", "ns", {})) == State([d, f, f], map[])
  {
    var st := State([d, e], map[]);
    assert st.allocations[1].index == 5;
    PickInSmallPool(st.allocations, 5, 4);
    OvertakenPlace(d, e, f);
    assert st.history - {} == st.history;
  }

  lemma ReusingStep(d: Allocation, f: Allocation, g: Allocation)
    requires d.index == 4 && f.index == 1 && g == Given(SMALL_POOL, "g", "ns", 5)
    ensures PoolConfigOk(SMALL_POOL)
    ensures Apply(SMALL_POOL, false, State([d, f, f], map[]), Allocate("g", "ns", {})) == State([d, f, f, g], map[])
  {
    SmallPool();
    var st := State([d, f, f], map[]);
    assert st.allocations[0].index == 4;
    PickInSmallPool(st.allocations, 4, 1);
    AllocateAppends(SMALL_POOL, st, "g", "ns", 5);
  }

  lemma TwoInSmallPool(d: Allocation, e: Allocation)
    requires d.index == d.address == 4 && e.index == e.address == 5
    ensures PoolConfigOk(SMALL_POOL) && PoolOk(SMALL_POOL.pod, Ranges(SMALL_POOL), [d, e])
    ensures AddressByIndex(SMALL_POOL.pod, 5) == 5
  {
    SmallPool();
  }

  // An overtaking step as written: f takes index 1 before d and e, e's record is
  // lost although e was never deallocated, and g is then given e's address.
  lemma LiveAddressIsReused(d: Allocation, e: Allocation, f: Allocation, g: Allocation)
    requires d.index == d.address == 4 && e.index == e.address == 5
    requires f == Given(SMALL_POOL, "f", "ns", 1) && g == Given(SMALL_POOL, "g", "ns", 5)
    ensures PoolConfigOk(SMALL_POOL) && PoolOk(SMALL_POOL.pod, Ranges(SMALL_POOL), [d, e]) && g.address == e.address
    ensures Apply(SMALL_POOL, false, State([d, e], map[]), Allocate("f", "ns", {})) == State([d, f, f], map[])
    ensures Apply(SMALL_POOL, false, State([d, f, f], map[]), Allocate("g", "ns", {})) == State([d, f, f, g], map[])
  {
    TwoInSmallPool(d, e);
    OvertakingStep(d, e, f);
    ReusingStep(d, f, g);
  }

  lemma OvertakenPlace(d: Allocation, e: Allocation, f: Allocation)
    requires d.index == 4 && e.index == 5 && f.index == 1
    ensures Placed([d, e], f) == [d, f, f] && LastLarger([d, f, f], 5) == -1
  {
    assert LastLarger([d, e], 1) == 1;
  }

  // ---------- A run that ranges that are not clear make unsafe ----------

  // A pool whose network address is excluded, and nothing else.
  function NoNetworkAddress(pod: Cidr): PoolConfig
  {
    PoolConfig(pod, [Cidr(pod.base, 32)])
  }

  function Many(n: nat): (s: seq<Step>)
    ensures |s| == n && forall k :: 0 <= k < n ==> s[k] == Allocate("p", "ns", {})
  {
    seq(n, _ => Allocate("p", "ns", {}))
  }

  function Filled(pod: Cidr, n: nat): (s: seq<Allocation>)
    ensures |s| == n && forall k :: 0 <= k < n ==> s[k] == Given(NoNetworkAddress(pod), "p", "ns", k + 1)
  {
    seq(n, k requires 0 <= k < n => Given(NoNetworkAddress(pod), "p", "ns", k + 1))
  }

  lemma SizeOne(pod: Cidr)
    requires Canonical(pod) && pod.len <= 30
    ensures PoolConfigOk(NoNetworkAddress(pod)) && MaxIndex(pod) >= 2 && Pow2(0) == 1
  {
    Pow2Mono(2, 32 - pod.len);
    assert Pow2(2) == 4;
  }

  lemma RangeOfOne(pod: Cidr)
    requires Canonical(pod) && pod.len <= 30
    ensures PoolConfigOk(NoNetworkAddress(pod)) && Ranges(NoNetworkAddress(pod)) == [Range(0, 0)]
    ensures RangeIndexes([Range(0, 0)], MaxIndex(pod)) == [0]
  {
    SizeOne(pod);
    var excludes := [Cidr(pod.base, 32)];
    assert excludes[..0] == [];
    assert ExcludeRanges(pod, excludes) == ExcludeRanges(pod, []) + [Range(0, 0)];
    assert [Range(0, 0)][..0] == [];
    assert UpTo(0, 0) == UpTo(0, -1) + [0];
  }

  // With the indexes up to n taken, 0 among them, the next is n + 1, or at the end
  // 1 again.
  lemma NextAfterFilled(own: seq<int>, n: nat, max: int)
    requires |own| == n + 1 && 0 in own && n in own && forall x :: x in own ==> 0 <= x <= n
    ensures NextIndex(SortInts(own), 1, max) == Some(if n + 1 < max then n + 1 else 1)
  {
    SortedEnds(own, n, 0);
    var s := SortInts(own);
    assert 0 in s;
    assert s[0] == 0;
  }

  lemma PickWhenFilled(pod: Cidr, n: nat)
    requires Canonical(pod) && pod.len <= 30
    ensures PoolConfigOk(NoNetworkAddress(pod))
    ensures Pick(NoNetworkAddress(pod), Filled(pod, n), 1) == Some(if n + 1 < MaxIndex(pod) then n + 1 else 1)
  {
    RangeOfOne(pod);
    var own := IndexList(Filled(pod, n)) + [0];
    assert own[n] == 0 && (n > 0 ==> own[n - 1] == n);
    NextAfterFilled(own, n, MaxIndex(pod));
  }

  // An allocation that nothing exceeds is appended.
  lemma AppendsToFilled(cfg: PoolConfig, allocations: seq<Allocation>, i: nat)
    requires PoolConfigOk(cfg) && Pick(cfg, allocations, 1) == Some(i)
    requires forall k :: 0 <= k < |allocations| ==> allocations[k].index <= i
    ensures Apply(cfg, true, State(allocations, map[]), Allocate("p", "ns", {})) ==
            State(allocations + [Given(cfg, "p", "ns", i)], map[])
  {
    AllocateAppends(cfg, State(allocations, map[]), "p", "ns", i);
  }

  lemma FilledExtends(pod: Cidr, n: nat)
    ensures Filled(pod, n + 1) == Filled(pod, n) + [Given(NoNetworkAddress(pod), "p", "ns", n + 1)]
  {
  }

  lemma FilledFurther(pod: Cidr, n: nat)
    requires Canonical(pod) && pod.len <= 30 && n + 1 < MaxIndex(pod)
    ensures PoolConfigOk(NoNetworkAddress(pod))
    ensures Apply(NoNetworkAddress(pod), true, State(Filled(pod, n), map[]), Allocate("p", "ns", {})) == State(Filled(pod, n + 1), map[])
  {
    PickWhenFilled(pod, n);
    AppendsToFilled(NoNetworkAddress(pod), Filled(pod, n), n + 1);
    FilledExtends(pod, n);
  }

  lemma {:induction false} FilledByRun(pod: Cidr, n: nat)
    requires Canonical(pod) && pod.len <= 30 && n < MaxIndex(pod)
    ensures PoolConfigOk(NoNetworkAddress(pod))
    ensures Run(NoNetworkAddress(pod), true, State([], map[]), Many(n)) == State(Filled(pod, n), map[])
  {
    SizeOne(pod);
    if n > 0 {
      FilledByRun(pod, n - 1);
      FilledFurther(pod, n - 1);
      assert Many(n)[..n - 1] == Many(n - 1);
    }
  }

  lemma FilledTooFar(pod: Cidr, n: nat)
    requires Canonical(pod) && pod.len <= 30 && n == MaxIndex(pod) - 1
    ensures PoolConfigOk(NoNetworkAddress(pod))
    ensures var cfg := NoNetworkAddress(pod);
      !PoolOk(pod, Ranges(cfg), Apply(cfg, true, State(Filled(pod, n), map[]), Allocate("p", "ns", {})).allocations)
  {
    var cfg, allocations := NoNetworkAddress(pod), Filled(pod, n);
    SizeOne(pod);
    PickWhenFilled(pod, n);
    var history: map<string, nat> := map[];
    assert history - {} == history;
    assert IndexList(allocations)[0] == 1;
    if PoolOk(pod, Ranges(cfg), Inserted(allocations, Given(cfg, "p", "ns", 1))) {
      InsertedOkIsSound(pod, Ranges(cfg), allocations, Given(cfg, "p", "ns", 1));
    }
  }

  // Allocating as often as the pool has usable addresses, and once more, hands out
  // its first usable address twice.
  lemma NetworkAddressExcluded(pod: Cidr)
    requires Canonical(pod) && pod.len <= 30
    ensures PoolConfigOk(NoNetworkAddress(pod)) && MaxIndex(pod) >= 0
    ensures !PoolOk(pod, Ranges(NoNetworkAddress(pod)), Run(NoNetworkAddress(pod), true, State([], map[]), Many(MaxIndex(pod))).allocations)
  {
    SizeOne(pod);
    var n := MaxIndex(pod) - 1;
    FilledByRun(pod, n);
    FilledTooFar(pod, n);
    assert Many(n + 1)[..n] == Many(n);
  }

  // ---------- No address twice ----------

  // The allocations of a pool have distinct addresses, all inside the pod block
  // and outside every exclude.
  lemma PoolAddresses(cfg: PoolConfig, allocations: seq<Allocation>, k: nat)
    requires PoolConfigOk(cfg) && PoolOk(cfg.pod, Ranges(cfg), allocations) && k < |allocations|
    ensures In(allocations[k].address, cfg.pod)
    ensures forall j :: 0 <= j < |cfg.excludes| ==> !In(allocations[k].address, cfg.excludes[j])
    ensures forall l :: 0 <= l < |allocations| && l != k ==> allocations[l].address != allocations[k].address
  {
    RangesAreExcludes(cfg.pod, cfg.excludes, allocations[k].index);
    forall l | 0 <= l < |allocations| && l != k ensures allocations[l].address != allocations[k].address {
      assert IndexList(allocations)[l] != IndexList(allocations)[k] by {
        if l < k { assert IndexList(allocations)[l] != IndexList(allocations)[k]; }
        else { assert IndexList(allocations)[k] != IndexList(allocations)[l]; }
      }
    }
  }

  // ---------- Retry spreading ----------

  // The largest taken index, or 0.
  function LastTaken(cfg: PoolConfig, allocations: seq<Allocation>): int
    requires cfg.pod.len <= 32 && forall k :: 0 <= k < |cfg.excludes| ==> cfg.excludes[k].len <= 32
  {
    var s := Indexes(allocations, MaxIndex(cfg.pod), Ranges(cfg));
    if |s| > 0 then s[|s| - 1] else 0
  }

  // A pod gives its address back and asks again, its record not expiring.
  function Again(cfg: PoolConfig, st: State, pod: string, namespace: string): State
    requires cfg.pod.len <= 32 && (forall k :: 0 <= k < |cfg.excludes| ==> cfg.excludes[k].len <= 32)
  {
    Apply(cfg, false, Apply(cfg, false, st, Deallocate(pod, namespace)), Allocate(pod, namespace, {}))
  }

  // The states after each of a series of allocations of one pod, with a
  // deallocation between any two.
  ghost predicate IsRetrySeries(cfg: PoolConfig, st: State, pod: string, namespace: string, series: seq<State>)
    requires cfg.pod.len <= 32 && (forall k :: 0 <= k < |cfg.excludes| ==> cfg.excludes[k].len <= 32)
  {
    && (series != [] ==> series[0] == Apply(cfg, false, st, Allocate(pod, namespace, {})))
    && forall n :: 1 <= n < |series| ==> series[n] == Again(cfg, series[n - 1], pod, namespace)
  }

  lemma WithoutAppended(allocations: seq<Allocation>, a: Allocation)
    requires forall k :: 0 <= k < |allocations| ==> !Match(allocations[k], a.pod, a.namespace)
    ensures Without(allocations + [a], a.pod, a.namespace) == allocations
  {
    var s := allocations + [a];
    var p := FirstMatch(s, a.pod, a.namespace);
    assert s[|allocations|] == a;
    assert p == |allocations|;
    assert s[..p] + s[p + 1..] == allocations;
  }

  lemma NoneAboveLastTaken(cfg: PoolConfig, allocations: seq<Allocation>, i: int)
    requires PoolConfigOk(cfg) && i > LastTaken(cfg, allocations)
    ensures LastTaken(cfg, allocations) >= 0 && LastLarger(allocations, i) == -1
  {
    var s := Indexes(allocations, MaxIndex(cfg.pod), Ranges(cfg));
    IndexesNatural(cfg, allocations);
    assert |s| > 0 ==> s[|s| - 1] in s;
    forall k | 0 <= k < |allocations| ensures allocations[k].index <= i {
      TakenExactly(cfg.pod, Ranges(cfg), allocations, IndexList(allocations)[k]);
    }
  }

  lemma PickAboveLastTaken(cfg: PoolConfig, allocations: seq<Allocation>, offset: nat)
    requires PoolConfigOk(cfg) && LastTaken(cfg, allocations) + offset < MaxIndex(cfg.pod) && offset >= 1
    ensures LastTaken(cfg, allocations) >= 0
    ensures Pick(cfg, allocations, offset) == Some(LastTaken(cfg, allocations) + offset)
  {
    NoneAboveLastTaken(cfg, allocations, LastTaken(cfg, allocations) + offset);
  }

  // An allocation can only overtake another when the last taken index and the
  // offset lead past the end of the pool.
  lemma OvertakesOnlyAtTheEnd(cfg: PoolConfig, st: State, step: Step)
    requires PoolConfigOk(cfg) && Overtakes(cfg, st, step)
    ensures LastTaken(cfg, st.allocations) + Attempt(st.history - step.expired, step.pod) >= MaxIndex(cfg.pod)
  {
    var offset := Attempt(st.history - step.expired, step.pod);
    if LastTaken(cfg, st.allocations) + offset < MaxIndex(cfg.pod) {
      PickAboveLastTaken(cfg, st.allocations, offset);
      NoneAboveLastTaken(cfg, st.allocations, LastTaken(cfg, st.allocations) + offset);
      assert false;
    }
  }

  lemma AllocateAppends(cfg: PoolConfig, st: State, pod: string, namespace: string, i: nat)
    requires PoolConfigOk(cfg)
    requires Pick(cfg, st.allocations, Attempt(st.history, pod)) == Some(i) && LastLarger(st.allocations, i) == -1
    ensures Apply(cfg, false, st, Allocate(pod, namespace, {})) ==
            State(st.allocations + [Given(cfg, pod, namespace, i)], Recorded(st.history, pod))
    ensures Apply(cfg, true, st, Allocate(pod, namespace, {})) == Apply(cfg, false, st, Allocate(pod, namespace, {}))
  {
    assert st.history - {} == st.history;
  }

  // An attempt that stays in range takes its own distance from the last index.
  lemma AttemptAppends(cfg: PoolConfig, st: State, pod: string, namespace: string, i: nat)
    requires PoolConfigOk(cfg)
    requires i == LastTaken(cfg, st.allocations) + Attempt(st.history, pod) && i < MaxIndex(cfg.pod)
    ensures Apply(cfg, false, st, Allocate(pod, namespace, {})) ==
            State(st.allocations + [Given(cfg, pod, namespace, i)], Recorded(st.history, pod))
  {
    PickAboveLastTaken(cfg, st.allocations, Attempt(st.history, pod));
    NoneAboveLastTaken(cfg, st.allocations, i);
    AllocateAppends(cfg, st, pod, namespace, i);
  }

  lemma AttemptTaken(cfg: PoolConfig, st: State, pod: string, namespace: string, after: State, i: nat)
    requires PoolConfigOk(cfg)
    requires i == LastTaken(cfg, st.allocations) + Attempt(st.history, pod) && i < MaxIndex(cfg.pod)
    requires after == State(st.allocations + [Given(cfg, pod, namespace, i)], Recorded(st.history, pod))
    ensures Apply(cfg, false, st, Allocate(pod, namespace, {})) == after
  {
    AttemptAppends(cfg, st, pod, namespace, i);
  }

  // The state after the n-th attempt of a pod, with the last taken index last.
  function Attempted(cfg: PoolConfig, st: State, pod: string, namespace: string, last: nat, n: nat): State
  {
    State(st.allocations + [Given(cfg, pod, namespace, last + n)], if n == 1 then st.history else st.history[pod := n])
  }

  lemma FreedAgain(cfg: PoolConfig, st: State, pod: string, namespace: string, last: nat, n: nat)
    requires PoolConfigOk(cfg) && n >= 1 && pod !in st.history
    requires forall k :: 0 <= k < |st.allocations| ==> !Match(st.allocations[k], pod, namespace)
    ensures Apply(cfg, false, Attempted(cfg, st, pod, namespace, last, n), Deallocate(pod, namespace)) ==
            State(st.allocations, st.history[pod := n])
  {
    WithoutAppended(st.allocations, Given(cfg, pod, namespace, last + n));
  }

  lemma AttemptedNext(cfg: PoolConfig, st: State, pod: string, namespace: string, last: nat, n: nat)
    requires n >= 1
    ensures var history := st.history[pod := n];
      && Attempt(history, pod) == n + 1
      && State(st.allocations + [Given(cfg, pod, namespace, last + n + 1)], Recorded(history, pod)) ==
         Attempted(cfg, st, pod, namespace, last, n + 1)
  {
    assert st.history[pod := n][pod := n + 1] == st.history[pod := n + 1];
  }

  lemma AllocatedAgain(cfg: PoolConfig, st: State, pod: string, namespace: string, last: nat, n: nat)
    requires PoolConfigOk(cfg) && n >= 1
    requires last == LastTaken(cfg, st.allocations) && last + n + 1 < MaxIndex(cfg.pod)
    ensures Apply(cfg, false, State(st.allocations, st.history[pod := n]), Allocate(pod, namespace, {})) ==
            Attempted(cfg, st, pod, namespace, last, n + 1)
  {
    var again := State(st.allocations, st.history[pod := n]);
    AttemptedNext(cfg, st, pod, namespace, last, n);
    AttemptTaken(cfg, again, pod, namespace, Attempted(cfg, st, pod, namespace, last, n + 1), last + n + 1);
  }

  lemma AgainAttempts(cfg: PoolConfig, st: State, pod: string, namespace: string, last: nat, n: nat)
    requires PoolConfigOk(cfg) && n >= 1 && pod !in st.history
    requires forall k :: 0 <= k < |st.allocations| ==> !Match(st.allocations[k], pod, namespace)
    requires last == LastTaken(cfg, st.allocations) && last + n + 1 < MaxIndex(cfg.pod)
    ensures Again(cfg, Attempted(cfg, st, pod, namespace, last, n), pod, namespace) ==
            Attempted(cfg, st, pod, namespace, last, n + 1)
  {
    FreedAgain(cfg, st, pod, namespace, last, n);
    AllocatedAgain(cfg, st, pod, namespace, last, n);
  }

  lemma AttemptedFirst(cfg: PoolConfig, st: State, pod: string, namespace: string, last: nat)
    requires pod !in st.history
    ensures Attempt(st.history, pod) == 1
    ensures State(st.allocations + [Given(cfg, pod, namespace, last + 1)], Recorded(st.history, pod)) ==
            Attempted(cfg, st, pod, namespace, last, 1)
  {
  }

  lemma FirstAttempt(cfg: PoolConfig, st: State, pod: string, namespace: string, last: nat)
    requires PoolConfigOk(cfg) && pod !in st.history
    requires last == LastTaken(cfg, st.allocations) && last + 1 < MaxIndex(cfg.pod)
    ensures Apply(cfg, false, st, Allocate(pod, namespace, {})) == Attempted(cfg, st, pod, namespace, last, 1)
  {
    AttemptedFirst(cfg, st, pod, namespace, last);
    AttemptTaken(cfg, st, pod, namespace, Attempted(cfg, st, pod, namespace, last, 1), last + 1);
  }

  // A pod that keeps failing and retrying on an otherwise unchanged pool gets a
  // new address each time: attempt n is n above the last taken index.
  lemma {:induction false} RetriesSpread(cfg: PoolConfig, st: State, pod: string, namespace: string, last: nat, series: seq<State>, n: nat)
    requires PoolConfigOk(cfg) && pod !in st.history && IsRetrySeries(cfg, st, pod, namespace, series)
    requires forall k :: 0 <= k < |st.allocations| ==> !Match(st.allocations[k], pod, namespace)
    requires last == LastTaken(cfg, st.allocations) && 1 <= n <= |series| && last + n < MaxIndex(cfg.pod)
    ensures series[n - 1] == Attempted(cfg, st, pod, namespace, last, n)
  {
    if n == 1 {
      FirstAttempt(cfg, st, pod, namespace, last);
    } else {
      RetriesSpread(cfg, st, pod, namespace, last, series, n - 1);
      AgainAttempts(cfg, st, pod, namespace, last, n - 1);
      assert series[n - 1] == Again(cfg, series[n - 2], pod, namespace);
    }
  }
}
