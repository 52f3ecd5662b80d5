# Address management of multi-nic-cni

A Dafny model of the IPv4 address management of multi-nic-cni, with proofs.

The controller splits a network's subnet into one VLAN block per interface network
and each VLAN block into one pod block per host. It keeps that plan up to date as
hosts, interfaces and nodes come and go. Each pod block becomes an IP pool. The daemon
on the host allocates single addresses from the pool, around the excluded CIDRs that
the controller has handed to it. Routes between hosts are generated from the plan.

An address is a number below 2^32 and a CIDR is a base and a prefix length. The
computation of blocks and addresses is modelled on the four bytes and on the binary
digits that the code works with. Go map ranges become explicit orders; node look-ups,
running pods, API outcomes and expiry become inputs. Loops and in-place updates are
methods, classes and arrays, each proved against a function; the properties are
lemmas about those functions and about whole runs.

| module | about |
|---|---|
| `Powers`, `Sorting` | arithmetic of powers of two; stable sorting |
| `Blocks` | CIDRs, nesting, splitting into equal parts |
| `Compute`, `Addresses` | `internal/compute`: bytes, masks, digits, addresses and offsets |
| `Excludes` | the tabu test, and which excludes a pool receives |
| `Gaps` | the divide-and-conquer search for a gap, both copies |
| `Plan`, `NewPlan`, `Indexing` | the plan, its invariant, its creation, choosing indexes |
| `Reconcile`, `Updating` | `UpdateEntries` as a function, and its loops proved equal to it |
| `ReconcileSafe`, `Runs`, `Stability` | what updates keep, over single steps and over runs |
| `Settling`, `Membership`, `Fixpoint` | who stays in the plan, and why a second update leaves it as it is |
| `Coverage`, `Placement`, `Records` | who gets into the plan, on which indexes, with what record |
| `Reporting`, `Repeating` | when an update is reported as a change, and when a repeated one is |
| `Samples` | the small plans that failures are shown on |
| `Daemon`, `DaemonGuard`, `DaemonRuns`, `Slices`, `Allocator` | the allocator of one pool |
| `Releasing`, `Capacity` | what goes back to a pool, and how much a pool holds |
| `Pools` | what the controller hands to the daemons |
| `Network` | the whole: plan updates, daemon steps and resyncs interleaved |
| `Routes`, `Resync`, `Queue` | routes of a host, resync with running pods, the update queue |

## Where the code does less than it should

The code is modelled as it is. Each of these is proved, with the exact condition under
which the intended property holds.

- The allocator's gap search is sound for every state of a pool if and only if the
  pool's exclude ranges do not overlap below the last index and leave index 0 alone
  (`DaemonGuard.ChoiceSoundExactlyWhenClear`, in terms of addresses
  `Pools.ClearExactly`, for a whole network `Network.KeptExactlyWhenClear`). Otherwise
  a full pool makes it hand out a taken or reserved index. The condition is exact for
  steps from every pool in order, not for runs that start with empty pools: with 8
  addresses and the ranges 4 to 5 and 4 to 4, index 3 is never handed out, so such a run
  stays sound (which is not proved here). Excluding just the network address is a family on which a run from the
  empty pool goes wrong (`DaemonRuns.NetworkAddressExcluded`).
- Storing an allocation before one with a larger index overwrites that one's record. A
  step or a run keeps the pool if and only if it never does that
  (`DaemonRuns.StepKeepsPool`, `DaemonRuns.WrittenRunKeepsPoolExactly`), and it can do
  that only when the last taken index plus the offset leads past the end
  (`DaemonRuns.OvertakesOnlyAtTheEnd`); `DaemonRuns.LiveAddressIsReused` is an input on
  which a live address is given away.
- With a retry offset above 1 the allocator can report no address while some are free
  (`DaemonGuard.NoAddressExactly` says when; `DaemonRuns.FreeIndexIsNotFound` is an
  input). With offset 1 it reports none exactly for full pools, if and only if the
  ranges are clear (`DaemonGuard.NoAddressMeansFullExactlyWhenClear`).
- `UpdateEntries` forgets that the plan changed when a later host finds no index, and an
  unreported plan is not stored. `Reporting.LostExactly` says exactly when an update is
  lost; `Reporting.UpdateCanBeLost` is an input.
- A host with two interfaces on one network is reported as a change at every update,
  although the plan stays as it is. `Repeating.RepeatReportsExactly` and
  `Repeating.FlipsExactly` say exactly when; `Repeating.PlanIsReportedForEver` is an input.
- A host found dead stays in the plan if an earlier look-up in the same update still found
  its node and the entry holds nobody else. `Membership.KeptExactly` says exactly who
  stays; `Membership.DeadHostStays` is an input. If look-ups agree this does not happen
  (`Membership.ConsistentlyKept`).
- A pool left over from an earlier plan is patched at every resync if a pod runs in its
  block, because its records are not filed. `Resync.ResyncIsIdempotent` says exactly when;
  `Resync.LeftoverPoolIsReportedAgain` is the family of inputs.
- `NewCIDR` never returns if there are fewer free interface indexes than master networks
  and the last index is not tabu (`NewPlan.NewCidrOutcome`;
  `NewPlan.NewCidrCanRunForEver` is an input).
- The worker of the update queue adds tickets to its own queue. A run stops it for good if
  and only if it does so on a full queue at some point (`Queue.StoppedExactly`). If writers
  add at most m tickets per round, that is excluded for all runs if and only if m plus the
  number of CIDRs does not exceed the capacity (`Queue.NeverBlocksExactly`).

The recompute branches of `UpdateEntries`, which give a host a new index, are never
taken while the configuration stays the same (`Runs.RunSafe`).

## Model

| member | source | states |
|---|---|---|
| Compute.AddrToValue | internal/compute/util.go:37-46 | the loop computes the base-256 value of the bytes |
| Compute.ValueToAddr | internal/compute/util.go:48-55 | the loop computes the four low-order base-256 digits, also of values beyond 32 bits |
| Compute.FromToBytes | internal/compute/util.go:37-55 | decoding an encoded value gives the value back, below 256^n |
| Compute.ToFromBytes | internal/compute/util.go:37-55 | encoding a decoded address gives the bytes back, and the value fits |
| Compute.MaskIndex | internal/compute/util.go:28-35 | the position of a byte among the mask bytes, or -1 exactly when it is none |
| Compute.AppendMask | internal/compute/compute.go:19-39 | from the mask of length p, the mask of length min(32, p + block) |
| Compute.ParseFormat | internal/compute/compute.go:43-95 | parsing the binary digits of a number gives the number |
| Compute.LineValue | internal/compute/compute.go:43-95 | the padded digits laid behind p mask bits have the value i * 2^(32-p-b); digits that run past the end are cut off |
| Compute.AddAddress | internal/compute/compute.go:43-95 | on any base: fails on a value that needs more than `block` bits; otherwise the digit-wise loop adds the bytes of the block's offset without carry, and fails exactly if that changes a masked bit; on a masked base it always succeeds and the sum is that of the numbers |
| Compute.ComputeNet | internal/compute/compute.go:145-162 | the same for the start address cut to the longer mask, host bits or not; on a masked start it succeeds exactly on indexes below 2^b, with start + index * 2^(32-p-b) |
| Compute.ComputeBlock | internal/compute/compute.go:145-169 | on a canonical CIDR, index i below 2^b yields part i of 2^b equal parts, and a larger index is an error |
| Blocks.NestedOrDisjoint | internal/compute/compute.go:98-115 | of two canonical CIDRs the longer lies in the shorter or they share no address |
| Blocks.BlockInside | internal/compute/compute.go:145-169 | every part of a canonical CIDR is canonical and lies in it |
| Blocks.BlocksDisjoint | internal/compute/compute.go:145-169 | different indexes give disjoint blocks |
| Blocks.BlocksTile | internal/compute/compute.go:145-169 | every address of the CIDR is in exactly one of its blocks |
| Addresses.GetIndexInRange | internal/compute/compute.go:173-194 | the byte-wise loop computes containment and the distance from the network address |
| Addresses.RoundTrip | internal/compute/compute.go:173-194 | index to address (the daemon) and back (the controller) is the identity, and so is address to index and back; an address outside yields (false, -1) |
| Excludes.CheckIfTabuIndex | internal/compute/compute.go:98-115 | the loop decides the tabu test, also for an index that has no block, where it looks at address zero |
| Excludes.TabuIffCovered | internal/compute/compute.go:98-115 | an index is tabu exactly when one exclude covers its whole block |
| Excludes.SortAddress | internal/compute/util.go:67-77 | the same excludes, ordered by address |
| Excludes.TabuOrderFree | controllers/cidr_handler.go:472-473 | the recheck on the sorted excludes agrees with the test on the original list at assignment |
| Excludes.ExtractMatchExcludes | controllers/ippool_handler.go:148-179 | the loop selects the matching excludes in order |
| Excludes.MatchingExactly | controllers/ippool_handler.go:148-179 | a pool receives exactly the excludes that lie strictly inside its block, each as often as it is listed |
| Excludes.ExcludeMissesOrIsHandedOver | controllers/ippool_handler.go:148-179 | an exclude that did not make an index tabu misses the block or is handed to its pool |
| Gaps.SearchResult | internal/compute/compute.go:118-140 | what the search returns on any list, sorted or not: -1 exactly if the last element is where a full list would end, otherwise a position where the list leaves the full sequence |
| Gaps.FindsLeastMissing | internal/compute/compute.go:118-140 | on a strictly increasing list from the first candidate on: the least missing index, or -1 exactly when there is no gap |
| Gaps.DaemonIsStartOne | daemon/src/allocator/allocator.go:96-120 | the daemon's copy of the search is the controller's with start index 1, on every list |
| Plan.PlanSeparates | controllers/cidr_handler.go:371-526 | the plan's invariant puts every VLAN block in the subnet, every pod block in its VLAN block, and makes all pod blocks of the network disjoint |
| Indexing.AddNewHost | controllers/cidr_handler.go:811-854 | the search ends and returns the least free index above those in use or, if none, the least free one, with its block; none exactly when there is none |
| Indexing.ChooseHostIndexExact | controllers/cidr_handler.go:811-854 | the chosen index is in range, unused and not tabu, and there is none exactly when every index is used or tabu |
| Indexing.ChosenIndex | controllers/cidr_handler.go:811-854 | by the indexes in use and the tabu test alone: the least free index above all those in use if there is one, otherwise the least free one |
| Indexing.CandidateIsRight | controllers/cidr_handler.go:821-836 | a candidate of the loop was not tried before, and if it is free it is the index to choose, though the list mixes used and failed indexes |
| Indexing.RepeatedIndexNeverEnds | controllers/cidr_handler.go:821-854 | with an index in use twice, which no plan has, the search can run for ever |
| Indexing.GetInterfaceEntry | controllers/cidr_handler.go:857-914 | the network's entry, or a new one on the least interface index that is neither used nor tabu, or none if there is no such index |
| Indexing.InterfaceEntryExactly | controllers/cidr_handler.go:857-914 | by the entries' indexes and the tabu test alone: a new entry is empty, on the least index that no entry has and no exclude covers, and there is none only if there is no such index |
| NewPlan.NewCIDR | controllers/cidr_handler.go:277-324 | where it returns: the first plan if the free indexes suffice, otherwise the error |
| NewPlan.NewCidrOutcome | controllers/cidr_handler.go:277-324 | for every configuration: with enough free indexes master k gets the k-th smallest; with too few, an error exactly if the last index is tabu, and otherwise it is still searching after any number of turns |
| NewPlan.NewCidrCanRunForEver | controllers/cidr_handler.go:289-307 | a configuration on which it never returns |
| NewPlan.FirstPlanOk | controllers/cidr_handler.go:277-324 | the first plan satisfies the plan's invariant |
| NewPlan.FirstPlanExactly | controllers/cidr_handler.go:277-324 | entry k is for master k, on the least free interface index above that of entry k - 1 |
| NewPlan.EnoughExactly | controllers/cidr_handler.go:277-324 | the free indexes suffice exactly when as many indexes are not covered by an exclude as there are masters |
| Updating.RetainHosts | controllers/cidr_handler.go:382-407 | the loop over the hosts of one entry in the first pass |
| Updating.KeepHosts | controllers/cidr_handler.go:377-412 | the first pass: kept entries, hosts found dead, and the change flag |
| Updating.GetHostIndex | controllers/cidr_handler.go:968-975 | the position of a host's first record, or -1 |
| Updating.TryAddNewHost | controllers/cidr_handler.go:917-941 | the entry with the host on a fresh index in index order, or unchanged if there is none |
| Updating.VisitInterface | controllers/cidr_handler.go:440-502 | one interface of one host, on a plan in order; the two recompute branches are proved dead |
| Updating.VisitSnapshot | controllers/cidr_handler.go:432-503 | the nested loops over hosts and interfaces, in the given map order |
| Updating.DropDiedHosts | controllers/cidr_handler.go:505-521 | the third pass drops the hosts found dead, but leaves an entry alone that would become empty |
| Updating.UpdateEntries | controllers/cidr_handler.go:371-526 | the three passes compute the update function and keep the invariant |
| ReconcileSafe.FirstPassOk | controllers/cidr_handler.go:377-412 | dropping hosts and merging entries by network keeps the invariant |
| ReconcileSafe.VisitOk | controllers/cidr_handler.go:440-502 | a visit never reaches a recompute branch and keeps the invariant |
| ReconcileSafe.UpdateOk | controllers/cidr_handler.go:371-526 | the same for a whole update, from every plan in order, under every snapshot, look-up answer and map order |
| Runs.RunKeepsPlanOk | controllers/cidr_handler.go:529-607 | every plan of every run, from `NewCIDR` through any updates stored or not, satisfies the invariant |
| Runs.RunSafe | controllers/cidr_handler.go:371-526 | at every point of every run pod blocks are nested and disjoint, and the next update recomputes no index |
| Stability.UpdateAgrees | controllers/cidr_handler.go:453-500 | a host on a network before and after an update has the same host index, pod block, interface index and VLAN block |
| Stability.StableWhilePresent | controllers/cidr_handler.go:453-500 | the same over any stretch of any run in which the host stays on the network |
| Membership.DiedExactly | controllers/cidr_handler.go:377-412 | the hosts found dead are exactly those outside the snapshot for which some look-up finds no node |
| Membership.KeptExactly | controllers/cidr_handler.go:371-526 | for any look-up answers, a host is still on a network after an update exactly when its record survived the first pass, and if it was found dead elsewhere, the third pass would empty the entry and so spares it |
| Membership.DeadHostStays | controllers/cidr_handler.go:505-521 | a plan and look-up answers for which a host found dead stays in the plan |
| Membership.ConsistentlyKept | controllers/cidr_handler.go:371-526 | if look-ups agree: exactly the hosts that the snapshot shows on the network, or does not show at all and whose node exists |
| Membership.NothingToDrop | controllers/cidr_handler.go:505-521 | the third pass is the identity if no host found dead has a record left |
| Settling.VisitQuiets | controllers/cidr_handler.go:440-502 | after a visit, the same visit would neither open an entry nor add a host |
| Settling.VisitPreservesQuiet | controllers/cidr_handler.go:440-502 | no later visit undoes that |
| Settling.QuietPassRefreshes | controllers/cidr_handler.go:432-503 | a pass of such visits gives each record the interface its host shows last, and changes nothing else |
| Settling.PassSettles | controllers/cidr_handler.go:432-503 | after the second pass nothing in the snapshot opens an entry or adds a host, and every record shows the last interface of its host on the network |
| Settling.SettledExactly | controllers/cidr_handler.go:432-503 | the second pass leaves the entries as they are exactly when that holds already, for every order of the hosts |
| Coverage.AddedOnlyIfShown | controllers/cidr_handler.go:432-503 | a network or record that is new in the result is shown by the snapshot, and on a master network if those are given |
| Coverage.ShownIsServed | controllers/cidr_handler.go:432-503 | conversely an interface shown on such a network gives its host a record there, unless every interface index is used or tabu, or every host index of the network is used, tabu or was held by a host found dead |
| Coverage.NetworkStaysExactly | controllers/cidr_handler.go:408-412 | a network keeps its entry if that was empty or one of its records survives, and otherwise only a host shown on it brings it back |
| Coverage.NetworkIndexIsLowest | controllers/cidr_handler.go:857-914 | after an update a network is on its old interface index, or on one below which every other is used or tabu |
| Coverage.RunStaysOnMasters | controllers/cidr_handler.go:424-443 | with master networks given, no plan of any run has an entry for another network |
| Placement.NewHostIsPlaced | controllers/cidr_handler.go:821-836 | a host that is new on a network is below a host that stays only if every index above all those in use before and after is tabu |
| Placement.RunPlacesAbove | controllers/cidr_handler.go:821-836 | the same of any two successive plans of any run |
| Records.ShownIsCurrent | controllers/cidr_handler.go:476-493 | a record of a host in the snapshot has the name and the address of the host's last interface on the network |
| Records.ShownIsNamed | controllers/cidr_handler.go:488-493 | and the name of the pool of its own block, also if it had none |
| Records.UpdateTidies | controllers/cidr_handler.go:917-941 | an update keeps the records of every entry in the order of their indexes, with the right pool names |
| Records.RunIsTidy | controllers/cidr_handler.go:917-941 | so in every plan of every run |
| Fixpoint.UpdateIsIdempotent | controllers/cidr_handler.go:371-526 | updating the result again with the same snapshot leaves every entry as it is, in any order, even if hosts were turned away, found dead or have several interfaces on a network |
| Reporting.VisitReports | controllers/cidr_handler.go:440-502 | what one visit does to the flag and to the entries, by its branch guards: it alters a record or adds a host, opens an empty entry, or turns a host away |
| Reporting.ReportedExactly | controllers/cidr_handler.go:432-503 | after the second pass a change is reported exactly when some alteration is followed by no host turned away |
| Reporting.FirstPassReports | controllers/cidr_handler.go:377-412 | the first pass reports a change exactly when it drops a record |
| Reporting.UnchangedExactly | controllers/cidr_handler.go:371-526 | an update leaves the plan as it is exactly when no record is dropped and the plan is settled for the snapshot |
| Reporting.LostExactly | controllers/cidr_handler.go:540-582 | an update changes the plan without reporting it exactly when a record is dropped or the plan is not settled, and every drop and every alteration is followed by a host turned away |
| Reporting.LostNeedsRejection | controllers/cidr_handler.go:540-582 | if no host is turned away, no update is lost |
| Reporting.RejectionHidesUpdate | controllers/cidr_handler.go:456-457 | the family of inputs on which a rejected host clears the flag of an earlier change |
| Reporting.UpdateCanBeLost | controllers/cidr_handler.go:456-457 | a configuration, plan and snapshot for which an update changes the plan and reports nothing |
| Repeating.RepeatReportsExactly | controllers/cidr_handler.go:371-526 | a second update with the same snapshot yields the same entries, reported as a change exactly when some visit shows another interface than the one shown before it and no host is turned away after it |
| Repeating.FlipsExactly | controllers/cidr_handler.go:476-493 | there is such a visit exactly when a host on the plan has two different interfaces on one network, in any order |
| Repeating.PlanIsReportedForEver | controllers/cidr_handler.go:476-493 | a plan and a snapshot for which every update changes nothing and reports a change |
| Daemon.GetExcludeRanges | daemon/src/allocator/allocator.go:168-193 | the loop computes the index range of each exclude |
| Daemon.RangesAreExcludes | daemon/src/allocator/allocator.go:168-193 | an index is in a range exactly when its address is in an exclude |
| Daemon.GenerateAllocateIndexes | daemon/src/allocator/allocator.go:195-208 | the nested loops compute the sorted list of taken indexes |
| DaemonGuard.TakenExactly | daemon/src/allocator/allocator.go:195-208 | the list holds exactly the allocated and the excluded indexes up to the maximum |
| Daemon.AddressIsSum | daemon/src/allocator/allocator.go:156-160 | within the pool an index's address is the pool's base plus the index and lies in the pool |
| Daemon.AllocateIndex | daemon/src/allocator/allocator.go:290-333 | the choice for one pool: the last taken index plus the offset, or the gap search beyond the end |
| DaemonGuard.FastPathSound | daemon/src/allocator/allocator.go:302-311 | last plus offset is free and in range, whatever the excludes |
| DaemonGuard.ChoiceSoundExactlyWhenClear | daemon/src/allocator/allocator.go:296-317 | the choice is free and in range for every pool state and offset if and only if the exclude ranges are clear |
| DaemonGuard.FullPoolMisleads | daemon/src/allocator/allocator.go:312-317 | for ranges that are not clear, a pool in order on which the choice is wrong |
| DaemonGuard.NoAddressExactly | daemon/src/allocator/allocator.go:296-317 | for every pool, no address is handed out exactly when the last taken index is the number of taken indexes, counted with repeats, and the offset leads past the end; with clear ranges that is: the taken indexes run from 1 without a gap |
| DaemonGuard.NoAddressMeansFull | daemon/src/allocator/allocator.go:296-317 | with offset 1 and clear ranges, exactly when every usable index is allocated or excluded |
| DaemonGuard.NoAddressMeansFullExactlyWhenClear | daemon/src/allocator/allocator.go:296-317 | that holds of every pool in order if and only if the ranges are clear |
| DaemonRuns.FreeIndexIsNotFound | daemon/src/allocator/allocator.go:302-317 | a pool with a free index in which an allocation with offset 4 finds none |
| Slices.InsertAt | daemon/src/allocator/allocator.go:352-353 | on the backing array, the two appends yield the new record twice and lose the one at the place of insertion |
| Slices.ApplyNewAllocation | daemon/src/allocator/allocator.go:343-354 | the search for the place and the insertion, as written, on any backing array |
| Slices.RemoveFirst | daemon/src/allocator/allocator.go:436-438 | the in-place removal is the list without the pod's first record |
| DaemonRuns.PlacedIsInsertedExactly | daemon/src/allocator/allocator.go:343-354 | the insertion as written is a list insertion exactly when no index in the pool is larger |
| DaemonRuns.PlacedLosesARecord | daemon/src/allocator/allocator.go:343-354 | otherwise the record at that place is gone and the pool is out of order |
| DaemonRuns.StepKeepsPool | daemon/src/allocator/allocator.go:210-472 | every step with the intended insertion keeps the pool; a step as written does so exactly when it overtakes no allocation, and then they are the same step |
| DaemonRuns.StepKeepsRecord | daemon/src/allocator/allocator.go:376-472 | with the intended insertion a record stays until its own pod is deallocated or found gone |
| DaemonRuns.RunKeepsPool | daemon/src/allocator/allocator.go:210-472 | over every run of allocate, deallocate and clean steps, indexes are distinct, usable and not excluded, and addresses are base plus index |
| DaemonRuns.WrittenRunKeepsPoolExactly | daemon/src/allocator/allocator.go:210-472 | a run of the code as written keeps the pool at every point if and only if it never overtakes, and then it is the intended run |
| DaemonRuns.OvertakesOnlyAtTheEnd | daemon/src/allocator/allocator.go:302-354 | a step overtakes an allocation only if the last taken index plus its offset leads past the end |
| DaemonRuns.LiveAddressIsReused | daemon/src/allocator/allocator.go:343-354 | two allocations after which two pods hold one address |
| DaemonRuns.NetworkAddressExcluded | daemon/src/allocator/allocator.go:296-317 | in any pool that excludes just its network address, allocating until past the end puts the pool out of order, even with the intended insertion |
| DaemonRuns.PoolAddresses | daemon/src/allocator/allocator.go:248-370 | the addresses of a pool in order are distinct, in the pod block and in no exclude of the pool |
| DaemonRuns.RetriesSpread | daemon/src/allocator/allocator.go:217-224 | a pod that fails and retries on an otherwise unchanged pool gets the indexes last+1, last+2, and so on |
| Releasing.DeallocateExactly | daemon/src/allocator/allocator.go:436-438 | a deallocation makes the list one shorter: it lacks exactly the pod's first record, with the others in order |
| Releasing.DeallocateOfStranger | daemon/src/allocator/allocator.go:404-472 | a pod without a record leaves the list as it is |
| Releasing.DeallocatedIsFree | daemon/src/allocator/allocator.go:404-472 | a pod with one record has none afterwards, its index is usable and no longer taken, and all others stay taken |
| Releasing.FullPoolReuses | daemon/src/allocator/allocator.go:296-317 | after a deallocation in a full pool the next pod gets just that index |
| Releasing.CleanExactly | daemon/src/allocator/allocator.go:386-400 | a clean-up keeps exactly the records whose pods exist, each as often as before and in the same order |
| Releasing.CleanedIsFree | daemon/src/allocator/allocator.go:386-400 | the index of every pod that is gone is usable and no longer taken |
| Releasing.ExpiredStartsOver | daemon/src/allocator/allocator.go:474-481 | once its record has expired, a pod asks with offset 1 again |
| Capacity.PoolServesItsRoom | daemon/src/allocator/allocator.go:296-317 | whatever pods ask, an empty pool of prefix length p without excludes serves the first 2^(32-p) - 3, with the addresses from base + 1 on in turn, and none after |
| Capacity.NoneLeftExactly | daemon/src/allocator/allocator.go:296-317 | any such pool in order holds at most that many allocations, and reports no address exactly when it holds that many |
| Allocator.PoolAllocator.FlushExpiredHistory | daemon/src/allocator/allocator.go:474-481 | exactly the expired records leave the history |
| Allocator.PoolAllocator.RetryOffset | daemon/src/allocator/allocator.go:217-224 | the number of the attempt, counted up in the history |
| Allocator.PoolAllocator.AllocateIP | daemon/src/allocator/allocator.go:210-370 | the new state is the allocation step of the code as written; the address answered is that of the chosen index and is recorded for the pod, or none and the list is unchanged |
| Allocator.PoolAllocator.DeallocateIP | daemon/src/allocator/allocator.go:404-472 | the new state is the deallocation step: first record gone, history entry made if there was none |
| Allocator.PoolAllocator.CleanHangingAllocation | daemon/src/allocator/allocator.go:376-402 | the new state is the clean step: exactly the records of existing pods remain, in order |
| Pools.EveryExcludeIsHandled | controllers/ippool_handler.go:129-179 | for every host of every plan of a run and every exclude: it misses the pod block, or lies strictly inside and is given to the pool |
| Pools.ClearExactly | daemon/src/allocator/allocator.go:168-193 | exclude ranges are clear exactly when no pool address below the last is in two excludes and the first is in none |
| Network.PodBlocksDisjoint | controllers/cidr_handler.go:811-854 | any two blocks a configuration can give to hosts are the same or disjoint, assigned now or not |
| Network.ReplanKeepsNetwork | controllers/cidr_handler.go:529-607 | an update of the plan, with the clean-up and update of the pools that follows it, keeps the invariant of plan and pools, whatever API calls fail |
| Network.ResyncKeepsNetwork | controllers/cidr_handler.go:698-757 | a resync of all pools keeps that invariant, whichever pools are filed, if the running pods hold usable addresses |
| Network.RunKeepsNetwork | controllers/cidr_handler.go:529-607 | plan updates, daemon steps on all pools and resyncs, interleaved in any way from `NewCIDR` on, keep that invariant, if running pods hold addresses allocated earlier in the run; for the insertion as meant, and as written where it never overtakes |
| Network.RunIsSafe | controllers/ippool_handler.go:86-227 | at every point of such a run pod blocks are separate, and every allocated address lies in its block, in no exclude of the network, and is allocated once in the whole network, also while pools outlive the plan they were made for |
| Network.KeptExactlyWhenClear | daemon/src/allocator/allocator.go:296-317 | every event keeps the invariant from every state that has it if and only if the excludes of every pool are clear; resyncs with running pods on usable addresses |
| Network.ReservedWhileLive | controllers/cidr_handler.go:640-661 | while its host stays on the network, its pod is not released and resyncs find it running, an allocation stays in the pool of the host's block through every update, daemon step and resync, and no other allocation has its address |
| Routes.GetHostInterfaceIndexMap | controllers/cidr_handler.go:978-991 | the nested maps give the last record of a host on an interface index |
| Routes.LookupExact | controllers/cidr_handler.go:978-991 | in a plan in order that is the host's only record there |
| Routes.CollectRoutes | controllers/route_handler.go:51-76 | the nested loops collect one route per reachable record, in order |
| Routes.Forwards | controllers/route_handler.go:42-76 | an address in another host's pod block on a shared network matches exactly one route, with that host's address on the network as next hop and the source's interface on it as device |
| Routes.OwnBlocksStayLocal | controllers/route_handler.go:42-76 | no route matches an address of the source's own pod blocks |
| Routes.RouteIsReachable | controllers/route_handler.go:51-76 | every route is to a record whose host has a daemon with another address, on an entry that has a record of the source, with that record's interface as device |
| Routes.UnroutedMatchesNone | controllers/route_handler.go:51-76 | no route matches an address of a block whose host has no daemon, has the source's daemon address, or is on a network without a record of the source |
| Resync.Books.TakeOne | controllers/cidr_handler.go:668-689 | one address moves from the maps to the pool if the pool holds it, and otherwise nothing changes |
| Resync.Books.GetSyncAllocations | controllers/cidr_handler.go:663-694 | ranging over a map while deleting from it visits every address once; result, both maps and the change flag are given exactly |
| Resync.SyncPools | controllers/cidr_handler.go:739-750 | the loop over the pools chains these steps, each on what the one before left, and reports which pools changed |
| Resync.ResyncConserves | controllers/cidr_handler.go:698-757 | every running pod's address ends up in the one pool that holds it, once, as its stored record or a new one at its offset; or in the remainder and in no pool |
| Resync.RunningPodIsRecorded | controllers/cidr_handler.go:668-689 | each record a pool takes is of a running address in its block and names the pod that runs there; its index is the stored one if that pod held the address before, otherwise the offset |
| Resync.StoredLeftExactly | controllers/cidr_handler.go:675-683 | a stored record is used up exactly when its own pod runs on its address in the block of some pool |
| Resync.UnchangedIsInLine | controllers/cidr_handler.go:663-694 | a pool reported as unchanged already stores exactly the result, if the stored records in its block are its own |
| Resync.StoredAreOwn | controllers/cidr_handler.go:714-729 | a filed record in a pool's block is the pool's own and the pool is filed, if pools store addresses of their own blocks |
| Resync.ResyncBringsInLine | controllers/cidr_handler.go:739-750 | patching only the pools reported as changed leaves every pool, filed or not, with exactly what it took |
| Resync.ResyncIsIdempotent | controllers/cidr_handler.go:698-757 | a second resync of the same pods takes what the pools store, in any order, and reports a pool as changed exactly when it is not filed and a pod runs in its block |
| Resync.LeftoverPoolIsReportedAgain | controllers/cidr_handler.go:739-750 | for every unfiled pool with a running pod, a first and a second resync that reports it again |
| Queue.RunKeepsCovered | controllers/cidr_handler.go:335-358 | in every interleaving, every requested write is covered by a snapshot taken, a ticket waiting or the worker's current round |
| Queue.NoLostUpdate | controllers/cidr_handler.go:335-358 | when the worker waits on an empty queue, the last snapshot of every CIDR includes every write whose ticket was added |
| Queue.UpdateSeesAllWrites | controllers/cidr_handler.go:371-374 | from an update of a CIDR on, it has seen every write made before, whether its ticket was added or not |
| Queue.WorkerMovesExactly | controllers/cidr_handler.go:335-358 | the worker can take a step exactly when it neither waits on an empty queue nor has to add a ticket to a full one |
| Queue.FullQueueStopsWorker | controllers/cidr_handler.go:596-598 | once it has to add a ticket to a full queue it never moves again, and no CIDR sees a later write |
| Queue.StoppedExactly | controllers/cidr_handler.go:335-358 | a run leaves the worker without a step in every continuation exactly if it has met a full queue in that way |
| Queue.LightNeverBlocks | controllers/cidr_handler.go:335-358 | it does not, if in each round writers add at most m tickets and m plus the number of CIDRs fits the queue |
| Queue.HeavierBlocks | controllers/cidr_handler.go:335-358 | for every larger m, a run with at most m such tickets per round that blocks it |
| Queue.NeverBlocksExactly | controllers/cidr_handler.go:335-358 | so all runs with at most m tickets per round are free of blocking if and only if m plus the number of CIDRs fits |

## Left out

- Text: parsing and printing of addresses, CIDRs and pool names. CIDRs are pairs, pool names are pairs of network and pod CIDR; parse errors do not occur.
- Excludes without a length, and subnets or excludes with host bits set, beyond `Compute.ComputeNet`.
- The mode without a subnet, where host networks become the blocks, and a host block of zero beyond the first branch of `addNewHost`: blocks are not disjoint there by design.
- A configuration that changes during a run: the recompute branches, which only such a change can reach, and the slice they share with the loop are not modelled.
- Indexing.AddNewHost: requires that no host index is in use twice, as in every plan of a run (`Runs.RunSafe`); `Indexing.RepeatedIndexNeverEnds` is why.
- NewPlan.NewCIDR: the method requires that the loop ends; `NewPlan.NewCidrOutcome` covers all configurations on the loop as a step machine.
- Indexing.GetInterfaceEntry: requires that no interface index is in use twice, as in every plan of a run, and a subnet.
- Updating.TryAddNewHost: for entries of plans in order only.
- Updating.VisitInterface: for plans in order only. Others, which a changed configuration can leave behind, reach the recompute branches.
- Updating.VisitSnapshot: for plans in order only, likewise.
- Updating.UpdateEntries: for stored plans in order only, likewise; every plan of a run with one configuration is in order (`Runs.RunKeepsPlanOk`).
- Fixpoint.UpdateIsIdempotent: assumes that the look-ups of both updates agree on which nodes are gone. `Membership.KeptExactly` covers look-ups that do not agree.
- DaemonGuard.NoAddressMeansFull: for clear ranges; `DaemonGuard.NoAddressMeansFullExactlyWhenClear` shows that it fails for all others.
- Network.RunKeepsNetwork: a resync is one step, so pools do not change between its reading and its writing, and the pods it finds hold addresses that were allocated in the run.
- Integers beyond 64 bits and negative indexes; numbers are unbounded here, addresses are cut to four bytes as in the code.
- The update loops copy entries and hosts as values; sharing of slices between a stored plan and its update is not modelled. Sharing is modelled where the allocator depends on it, in `Slices`.
- Matching of interface names and of virtual to physical functions: the model takes the pool of one interface. A request for several interfaces is several daemon steps in `Network`.
- Wall-clock expiry (given as a set of pods), API failures in the daemon (a step then does not happen) and lock release.
- `checkPoolValidity`, which only logs, and deletion of CIDRs. Pools may be deleted with the block they belong to; pods that still run then are not modelled.
- Queue.NoLostUpdate: takes the set of CIDRs as fixed and the configuration as ready; closing the queue is not modelled.
- The result flags of adding routes, deleting routes, kernel routing tables and files.
- Kubernetes clients and reconcilers, HTTP, the CNI binaries, NIC selection and status: input and output, or easy members.
