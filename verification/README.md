# fleetos-agent in Dafny

The node agent keeps several stores that must agree with each other and changes them step by
step while calls it depends on fail. This project models six of its parts and proves what
holds of them over every run.

- **Workload resources** (`IpAllocator`, `Workloads`, `Manager`, `Faults`, `WorkloadManagers`,
  `Reconciler`): /30 pairs, source-identity entries, guard interfaces, attestation records,
  MicroVM handles and probe runners follow the pods through boots that fail at any stage and
  evictions. `Faults` is about runs in which releases fail too.
- **Kernel tables** (`KernelTables`, `PolicySync`, `RouteSync`): full-state frames are diffed
  by key against a userspace mirror, written to kernel maps, and only then recorded. Any
  write may fail; removing an absent key fails; a full table refuses a new key.
- **Control client** (`Watch`, `ChannelCache`, `Retry`): the version filter of the watches
  across reconnects, the channel cache shared by any number of tasks, and the retry loop.
- **Probes and pods** (`Probes`, `PodLifecycle`): probe counters against outcome histories,
  restarts, events and eviction.
- **Sealed key store** (`SealedStore`): three encodings with fallbacks, against a plain map
  from label to bytes.
- **Replay watermark** (`Watermark`): sequences per (target, SVID version) in a byte-keyed
  store.

`Base` holds fixed-width integers and little-endian encoding, `Pods` the pod record.
`dafny verify dfyconfig.toml` checks everything.

## How it is modelled

Each stateful part is a specification on values (a state datatype, one function per
operation, runs as sequences of states) and, where the source updates fields in place, a
class whose methods are proved equal to those functions. Calls into other programs (runtimes,
eBPF, TPM, TLS, storage) are inputs that say whether the call succeeds; random bytes, hash-set
order and time are inputs too. Parsers, fingerprints and ciphers are function-valued
parameters; where a law is needed (an inverse, a key length) it is a named predicate with a
proof that it can be met. A kernel write fails for want of room or of the key it removes, and
otherwise by a budget: the write after that many others fails, so that a fault can fall on any
write of a frame.

Where a comment or a natural reading of the source promises more than the code does, the code
is followed, a lemma gives an input or a run that fails, and another says exactly when the
property holds:

| property | fails in | holds exactly as in |
|---|---|---|
| an applied frame's values are in the kernel | `KeptValueStays` | `RefreshedIff` |
| a frame is applied once writes succeed again | `LostKeyBlocks` | `PolicySync.AppliedIff`, `RouteSync.AppliedIff` |
| a running pod's readiness gates hold | `RunsUngated`, `RunsDisconnected` | `RunningGatesIff` |
| a finished startup probe stays done | `StartupRegresses` | `StartupStaysDoneIff` |
| the gate is open while MicroVMs run | `FailedBootClosesGate`, `EvictionClosesGate` | `GateAfterFailedBootIff`, `GateAfterEvictionIff`; over runs `RunGateIff` |
| the client does not lock up | `CrossingReachable` | `StuckIff`; over runs `CrossedIff` |
| at most five redirects are followed | `BoundsAttained` | `HopsBounded` (six) |
| the watch backoff fits 64 bits | `RefusalsCount` (58 refusals) | `BackoffFitsIff` |
| a /30 has one user when singles and pairs mix | `MixingSharesABlock` | `ExclusiveStepIff` |
| an evicted pod's /30 is returned | `PairNeverReturned` | `EvictionReturnsPairIff` |
| a failed boot leaves no identity behind | `IdentityStays` | `FailedBootIdentitiesIff` |
| a failed boot leaves its id's /30s as they were | `RollbackTakesPair` | `FailedBootPairsIff` |
| an eviction keeps the accounts exact | `PodLeft`, `IdentityLeft` | `EvictAccountedIff` |
| a boot keeps the accounts exact | `ListedTwice` (a frame that lists a workload twice) | `BootAccountedIff` |
| returning a /30 leaves the others alone | `ReleaseCollides` | `ReleaseIsolatedIff` |

## Model

| member | source | states |
|---|---|---|
| `IpAllocator.New` | src/workloads/mod.rs:697-724 | a parsed CIDR is accepted exactly for prefixes 8 to 28 outside 240.0.0.0/4; the base is aligned, contains the address, and the whole range ends below 240.0.0.0 |
| `IpAllocator.MixedRunSafe` | src/workloads/mod.rs:697-823 | over every mixed run of single and pair operations: free and held are disjoint, what is granted next was held by nobody, addresses lie strictly between network and broadcast and below 240.0.0.0, offsets stay far from 32-bit overflow |
| `IpAllocator.PairedAllocate` | src/workloads/mod.rs:765-800 | a pair request keeps every opened /30 wholly free or wholly one pod's; the requester gains exactly the granted block and nobody else gains or loses one; exactly that block is no longer grantable; a refused request changes nothing |
| `IpAllocator.PairedRelease` | src/workloads/mod.rs:803-811 | returning a pair keeps the same, takes the pod's blocks from it alone and makes exactly them grantable again |
| `IpAllocator.PairedCount` | src/workloads/mod.rs:765-811 | free and held offsets together are two for each block ever opened |
| `IpAllocator.RefusedIffFull` | src/workloads/mod.rs:786-795 | a pair is refused exactly when all hostCount / 4 blocks are held |
| `IpAllocator.PairGranted` | src/workloads/mod.rs:766-799 | the pair granted is the lowest one free if any is, else the first boundary not yet passed; none is when that pair would reach the broadcast address |
| `IpAllocator.OneGranted` | src/workloads/mod.rs:726-743 | a single address is a free one if any is, else the next offset; none exactly when nothing is free and the next offset is the broadcast address |
| `IpAllocator.OneReturned` | src/workloads/mod.rs:744-753 | a return moves exactly the offsets under that id from held to free |
| `IpAllocator.PairRunExclusive` | src/workloads/mod.rs:765-811 | over every run of pair requests and returns by ids not ending in ":gw": each block has at most one owner, the count identity, and refusal exactly when full |
| `IpAllocator.ReleaseIsolatedIff` | src/workloads/mod.rs:803-811 | a return leaves all other pods' pairs alone exactly when no id collides with a gateway label |
| `IpAllocator.ReleaseCollides` | src/workloads/mod.rs:765-811 | a run from a configured /24 in which returning the pair of "a" takes the pair of "a:gw" apart |
| `IpAllocator.ExclusiveStepIff` | src/workloads/mod.rs:726-811 | with singles and pairs mixed, a step keeps /30s exclusive exactly when the block it is about to grant from is clear; returns always do |
| `IpAllocator.MixingSharesABlock` | src/workloads/mod.rs:697-800 | a run from a configured /24 that hands out a single address inside another pod's /30 |
| `IpAllocator.NodeIpAllocator.Configure` | src/workloads/mod.rs:697-724 | the object starts in the specified state or reports the specified refusal |
| `IpAllocator.NodeIpAllocator.Allocate` | src/workloads/mod.rs:726-743 | hands out an address nobody held, from the free set first; refused only when nothing is free and the range is used up, and then unchanged |
| `IpAllocator.NodeIpAllocator.Release` | src/workloads/mod.rs:744-753 | exactly the offsets under that id become free |
| `IpAllocator.NodeIpAllocator.AllocateP2pPair` | src/workloads/mod.rs:765-817 | sorted search for a reusable pair, else the next boundary: the least reusable pair or the next aligned block, as specified |
| `IpAllocator.NodeIpAllocator.ReleaseP2pPair` | src/workloads/mod.rs:803-822 | exactly the offsets under the id and its gateway label become free |
| `Workloads.InterfaceInjective` | src/workloads/mod.rs:449-470 | TAP names of different CIDs differ |
| `Workloads.DecimalReads` | src/workloads/mod.rs:461-462 | a TAP is named "vmtap" and the CID in decimal without leading zeros |
| `Workloads.BootSucceedsIff` | src/workloads/mod.rs:280-560 | a boot succeeds exactly when its spec is whole, mounts and role are accepted, a pair is left, registration works and every step of its runtime does |
| `Workloads.BootTakesCidIff` | src/workloads/mod.rs:449-462 | a boot uses up a CID, successful or not, exactly when a MicroVM gets past its pair, registration and mounts |
| `Workloads.BootedStores` | src/workloads/mod.rs:342-415 | every store after a successful boot: handle, pair, source IP, identity, MicroVM, measurement, interface, gate and probe runner |
| `Workloads.BootedContext` | src/workloads/mod.rs:519-543 | an attested MicroVM's context carries the granted workload address and its gateway |
| `Workloads.EvictedStores` | src/workloads/mod.rs:562-632 | every store after an eviction, also when stopping fails: then only the probe runner and the MicroVM's adapter are gone |
| `Workloads.TakeAndReturn` | src/workloads/mod.rs:765-811 | allocating a pair and returning it restores ownership and the set of grantable blocks |
| `Workloads.FailedBootRestores` | src/workloads/mod.rs:280-415 | on any node, for an id that holds nothing: a boot that fails at any stage leaves held offsets, source IPs, attestation records, interfaces, handles, runners and pods exactly as before and the same blocks grantable, and the identity map too exactly when what it registered is put back |
| `Workloads.BootAccounted` | src/workloads/mod.rs:280-560 | with a registry wired, a boot of a new id without ":gw" suffix, however it ends short of a failed unregistering, keeps all accounts exact; success adds exactly that pod, and every other keeps its address |
| `Workloads.EvictedPods` | src/workloads/mod.rs:562-632 | the pod leaves the table exactly when stopping and scratch removal succeed, else it stays terminating |
| `Workloads.EvictAccounted` | src/workloads/mod.rs:562-632 | an eviction whose releases succeed takes the pod out of every store; every other pod keeps its record and its address |
| `Workloads.EvictAccountedIff` | src/workloads/mod.rs:562-632 | from exact accounts, an eviction keeps them exact exactly when stopping, unregistering and scratch removal all succeed |
| `Workloads.AccountsAgree` | src/workloads/mod.rs:280-632 | what exact accounts mean: pairs, source IPs and identities are exactly the live pods', each identity its own pod's; handles, attestation records and interfaces are exactly the live MicroVMs' |
| `Reconciler.Missing` | src/workloads/reconciler.rs:47-58 | exactly the frame's specs whose workload has no active pod |
| `Reconciler.Reconcile` | src/workloads/reconciler.rs:39-72 | boots the missing specs in frame order and evicts each active pod whose workload is not desired, once |
| `Manager.BootAccountedIff` | src/workloads/mod.rs:280-560 | from exact accounts, with a registry wired, a boot that can unregister keeps them exact exactly when its id is not in the table or it does not get as far as a pair |
| `Manager.FrameReconciled` | src/workloads/mod.rs:204-225 | after a frame whose evictions succeed and whose boots each keep the accounts (`BootAccountedIff`), exactly the desired workloads that ran or booted run, kept pods keep record and address, accounts are exact, new CIDs are unused |
| `Manager.ReconcileAgain` | src/workloads/mod.rs:204-225 | the same frame again evicts nothing and boots exactly the specs whose boot failed; with none failed it is a fixed point: reconciling it again returns the same node |
| `Manager.RunAccounted` | src/workloads/mod.rs:204-632 | over every run of such frames and in-place pod updates, boots failing anywhere, the accounts are exact |
| `Manager.NamedRunAccounted` | src/workloads/mod.rs:204-632 | frames of distinct workloads under pod ids one-to-one with them and free of ":gw" are such frames throughout every run, so the accounts are exact in all of them |
| `Manager.LifecycleObserves` | src/workloads/probe_loop.rs:99-157 | whatever a probe tick, a policy sync or a route update does to a live pod is an in-place update of these runs |
| `Manager.BootedRecord` | src/workloads/mod.rs:387-404 | the record a boot leaves is the spec's own under this boot's handle and fingerprint, booting, started, with no gate, verdict or restart: the state every lifecycle run starts from |
| `Manager.FailedBootIdentitiesIff` | src/workloads/mod.rs:342-385 | on any node, a failed boot leaves the identity map as it was exactly when it registered nothing or what it registered is put back |
| `Manager.FailedBootPairsIff` | src/workloads/mod.rs:374-385 | a failed boot leaves ownership of /30s as it was exactly when its id held none before or it did not get as far as a pair |
| `Manager.EvictionReturnsPairIff` | src/workloads/mod.rs:608-630 | boot then evict returns the /30 exactly when a registry is wired |
| `Manager.GateAfterEvictionIff` | src/ebpf/net_guard_adapter.rs:62-77 | the gate stays open for the remaining MicroVMs exactly when none remains, stopping the evicted one failed, or the closing write failed |
| `Manager.GateAfterFailedBootIff` | src/workloads/mod.rs:449-497 | an open gate stays open through a failed boot exactly when the boot did not get to arm or the closing write failed |
| `Manager.GateAfterBoot` | src/workloads/mod.rs:449-497 | a successful boot leaves the gate as it was, or opens it for a MicroVM |
| `Faults.RunSound` | src/workloads/mod.rs:280-632 | over every run of boots of ids without ":gw" suffix and of evictions, in any wiring and with any of their calls failing: every opened /30 is wholly free or wholly one pod's, and no store mentions the next CID |
| `Faults.CidsNeverRepeat` | src/workloads/microvm.rs:21-33 | over every run, in any wiring, under any ids and whatever fails: a MicroVM that comes up gets a CID that no store mentions before, and every later one gets a larger CID |
| `Faults.RunGateIff` | src/ebpf/net_guard_adapter.rs:46-77 | over every run the gate is open at the end exactly when a boot opened it (it came up, or failed after arming and the closing write failed) and no failed boot or eviction has closed it since |
| `Faults.FailedBootInRun` | src/workloads/mod.rs:280-415 | in every run of `RunSound`, a failed boot of an id that holds nothing restores every store but the identity map, and that one exactly when what it registered is put back |
| `Faults.RunSettled` | src/workloads/mod.rs:280-632 | in every run of `RunSound` whose unregistering succeeds and whose ids are booted only while they hold nothing, whatever else fails: registered addresses are held by the pod on record, so every failed boot restores the identity map |
| `Faults.FrameIsMoves` | src/workloads/mod.rs:204-225 | reconciling a frame is such a run: its evictions, then the boots of its missing specs |
| `Faults.StuckEvictionIff` | src/workloads/mod.rs:562-632 | an evicted pod stays in the table exactly when stopping it or removing its scratch failed, and then is terminating |
| `Faults.StuckForGood` | src/workloads/reconciler.rs:39-72 | over every run of frames, a pod left terminating is evicted by no later frame and stays as it is until a frame desires its id again |
| `Faults.SecondPair` | src/workloads/mod.rs:280-385 | booting its id again after a stop that failed gives the id a second /30 beside the first |
| `Faults.FailedBootClosesGate` | src/workloads/mod.rs:484-494 | a run in which a failed third boot leaves two running MicroVMs behind a closed gate |
| `Faults.EvictionClosesGate` | src/ebpf/net_guard_adapter.rs:62-77 | a run in which an eviction leaves two running MicroVMs behind a closed gate |
| `Faults.PairNeverReturned` | src/workloads/mod.rs:612-625 | a run without a registry in which an evicted pod's /30 stays held |
| `Faults.IdentityStays` | src/workloads/mod.rs:376-383 | a run in which a failed boot leaves its identity entry behind |
| `Faults.ListedTwice` | src/workloads/reconciler.rs:39-72 | a frame that lists a workload twice, with every call succeeding, leaves accounts that do not agree |
| `Faults.RollbackTakesPair` | src/workloads/mod.rs:374-385 | a run in which the failed boot of an id takes the /30 of its pod that is still in the table |
| `WorkloadManagers.VsockCidAllocator.Allocate` | src/workloads/microvm.rs:28-32 | CIDs from 3 upwards, one by one |
| `WorkloadManagers.VmNetGuardAdapter.Arm` | src/ebpf/net_guard_adapter.rs:47-60 | a guard is added and the gate opened only when attaching succeeds |
| `WorkloadManagers.VmNetGuardAdapter.Disarm` | src/ebpf/net_guard_adapter.rs:62-77 | the guard goes even when closing the gate fails |
| `WorkloadManagers.VmNetGuardAdapter.Register` | src/ebpf/net_guard_adapter.rs:80-87 | a written entry is the fingerprint, a failed write changes nothing |
| `WorkloadManagers.VmNetGuardAdapter.Unregister` | src/ebpf/net_guard_adapter.rs:88-91 | removing an absent entry is an error |
| `WorkloadManagers.ValidateMicrovmMounts` | src/workloads/microvm.rs:53-66 | accepts exactly mounts without a host path |
| `WorkloadManagers.WorkloadManager.BootMicrovm` | src/workloads/mod.rs:449-497 | arm, boot, roll back on failure: the specified node for every failure pattern |
| `WorkloadManagers.WorkloadManager.BootPod` | src/workloads/mod.rs:280-415 | call by call the same as the transaction `Boot`, store by store as in `BootSucceedsIff`, `BootedStores`, `BootedRecord` and `FailedBootRestores` |
| `WorkloadManagers.WorkloadManager.EvictPod` | src/workloads/mod.rs:562-632 | call by call the same as the transaction `Evict` |
| `WorkloadManagers.WorkloadManager.Reconcile` | src/workloads/mod.rs:204-225 | evictions, then boots, each failure skipped: the same as `ReconcileFrame` for the order the pod table gives |
| `KernelTables.SyncTable` | src/wiring.rs:278-314 | any frame on any table and mirror, stopped anywhere: only obsolete keys are gone, only wanted keys are new, kept values stay; it completes exactly when budget and room suffice and every obsolete key is there |
| `KernelTables.InStepFrame` | src/wiring.rs:284-314 | from a table in step, every intermediate key set lies between old ∩ desired and old ∪ desired, and the frame completes exactly when old ∪ desired fits |
| `KernelTables.ResidueAfterStop` | src/wiring.rs:278-318 | a stop among the insertions, of itself or for want of room, then a completed frame with keys D, leaves exactly D plus the partial insertions not in D |
| `KernelTables.DriftAfterFrame` | src/policy/sync.rs:129-174 | with keys lost from a table, a frame completes exactly when it lists them all, and they stay lost; unmirrored keys become tracked only when listed |
| `KernelTables.LostStayLost` | src/wiring.rs:278-314 | no write of a frame, wherever it stops, brings back a key that the mirror has and the table lost |
| `KernelTables.RefreshedIff` | src/policy/sync.rs:143-149 | a completed frame shows its own values exactly when every kept key had its new value already |
| `KernelTables.KernelMap.InsertAll` | src/wiring.rs:284-291 | insertions in order up to the first error |
| `KernelTables.KernelMap.RemoveAll` | src/wiring.rs:294-298 | removals in order up to the first error |
| `KernelTables.ObsoleteKeys` | src/policy/sync.rs:162-171 | each mirrored key no entry names, once |
| `KernelTables.RecordKeys` | src/policy/sync.rs:188-199 | recording a frame's mutations turns the mirror into the frame's keys |
| `PolicySync.StoppedFrame` | src/wiring.rs:263-318 | a failed write leaves mirror and version alone, and each table differs from its mirror only by keys the frame adds or drops |
| `PolicySync.OutcomeIff` | src/wiring.rs:263-330 | stale exactly when not newer, rejected exactly when newer and not compiled, neither changing anything; applied, the version is the frame's and the mirrors are the keys of its exact and of its wildcard entries |
| `PolicySync.RowsIff` | src/policy/sync.rs:129-174 | exact entries make the rows of one table and wildcard entries those of the other, entries without a key none |
| `PolicySync.PolicyOrigin` | src/wiring.rs:263-330 | over every run from start-up, failed frames included: what a table holds for a key is what some frame's entry of that kind carries for it |
| `PolicySync.AppliedIff` | src/wiring.rs:263-330 | from any state, a newer compiled frame is applied exactly when the lock is had, no write fails of itself, both tables have room, and the frame lists every mirrored key a table has lost |
| `PolicySync.InStepReceivesIff` | src/ebpf/maps.rs:50-54 | in step, the tables can take a frame exactly when old and desired keys fit together |
| `PolicySync.RunSynced` | src/policy/sync.rs:129-201 | over every run without a failed write, in both tables kernel keys, mirror keys and the last applied frame's keys coincide, each value the last compiled in the frame that most recently introduced its key |
| `PolicySync.KeptValueStays` | src/policy/sync.rs:143-149 | an applied frame whose new value for a kept key never reaches the kernel |
| `PolicySync.GapRun` | src/wiring.rs:263-330 | from any drift between kernel and mirror, over every run without a failed write: lost keys stay lost, extra keys are tracked exactly once listed |
| `PolicySync.ExtraFromFailed` | src/wiring.rs:263-330 | over every run from start-up, failed frames included: a key that only the kernel has was listed by a frame that failed in its writes and by no frame applied since |
| `PolicySync.LostFromFailed` | src/wiring.rs:263-330 | and a key that only the mirror has was being dropped by a frame that failed in its writes |
| `PolicySync.StopThenRun` | src/wiring.rs:263-330 | after a stop in the exact insertions, of itself or for want of room, and any run without a failed write, POLICY_EXACT holds the mirrored keys plus the partial insertions never listed since; POLICY_WILDCARD is exact |
| `PolicySync.StopInWildcardThenRun` | src/wiring.rs:263-330 | after a stop in the wildcard insertions: the same for POLICY_WILDCARD, while POLICY_EXACT has lost exactly what that frame dropped and keeps of what it added the keys never listed since |
| `PolicySync.LostForever` | src/wiring.rs:263-330 | over every run, failed frames included: a key once lost stays lost, and no frame is applied from then on unless it lists it |
| `PolicySync.LostKeyBlocks` | src/wiring.rs:294-314 | a run in which one failed removal makes a later frame fail although its writes would all go through |
| `PolicySync.PolicySyncState.ComputeSyncMutations` | src/policy/sync.rs:129-174 | insertions are the unmirrored rows in frame order, removals the mirrored keys without a row, per table |
| `PolicySync.PolicySyncState.ApplyMutations` | src/policy/sync.rs:183-201 | the mirror becomes the frame's keys, the version the frame's |
| `PolicySync.PolicySyncState.SyncPolicy` | src/wiring.rs:263-330 | guard, compile, exact then wildcard writes, record last: the same as `Sync` for every failure pattern |
| `RouteSync.MutationsByTable` | src/routes/table.rs:94-182 | the interleaved mutation list is, for each table, that table's own key diff |
| `RouteSync.WrittenByTable` | src/routes/table.rs:219-254 | writing it comes to writing each table alone up to some point, and completes exactly when the budget suffices and each table alone would |
| `RouteSync.WritesPrefix` | src/routes/table.rs:219-254 | writing carries out the first so many mutations and no other, and stops at one that fails or that no write is let through for |
| `RouteSync.AdditionsInOrder` | src/routes/table.rs:98-163 | entries are added in frame order, for each the route before the local workload, and only what is not mirrored |
| `RouteSync.RemovalsLast` | src/routes/table.rs:166-182 | nothing is added after a removal, and no route is removed after a local workload |
| `RouteSync.ResolvesIff` | src/routes/table.rs:98-157 | an entry that parses gets the fingerprint of its destination in its role, that of its target without a role, and the frame's version, under the host-order dummy IP; it is local exactly when its target is this node |
| `RouteSync.RejectedIff` | src/routes/table.rs:98-127 | a newer frame is turned away exactly when in some entry the destination, the target or a role that is not empty does not parse; then nothing changes; the version is the frame's once applied and stays until then |
| `RouteSync.FrameKeys` | src/routes/table.rs:129-164 | the desired keys are the host-order image of the dummy IPs, the local ones the fingerprints of destinations targeted at this node, repeats counted once |
| `RouteSync.FrameWithin` | src/routes/table.rs:219-254 | at every stopping point both tables lie between old ∩ desired and old ∪ desired, kept values stay, and a failed write leaves mirror and version alone |
| `RouteSync.AppliedIff` | src/routes/table.rs:219-254 | from any state, applied exactly when the lock is had, no write fails of itself, both tables have room, and the frame lists every mirrored key a table has lost |
| `RouteSync.InStepReceivesIff` | src/ebpf/maps.rs:50-54 | in step, the tables can take a frame exactly when old and desired keys fit together |
| `RouteSync.RunSynced` | src/routes/table.rs:79-254 | over every run without a failed write, kernel, mirror and last applied frame agree in both tables, each route carrying fingerprints and version of the frame that introduced it |
| `RouteSync.RouteOrigin` | src/routes/table.rs:98-254 | over every run from start-up, failed updates included: a route in the kernel carries the destination and target fingerprints and the version some frame's entry has for its address, and a local workload is the destination of an entry that targets this node |
| `RouteSync.LostForever` | src/routes/table.rs:219-254 | over every run, failed frames included: a key once lost stays lost, and no frame is applied from then on unless it lists it |
| `RouteSync.GapRun` | src/routes/table.rs:219-254 | from any drift between kernel and mirrors, over every run without a failed write: lost keys stay lost, extra keys are tracked exactly once listed, in both tables |
| `RouteSync.ExtraFromFailed` | src/routes/table.rs:219-254 | over every run from start-up, failed updates included: a key of either table that only the kernel has was listed by an update that failed in its writes and by no update applied since |
| `RouteSync.LostFromFailed` | src/routes/table.rs:219-254 | and a key that only the mirror has was being dropped by an update that failed in its writes |
| `RouteSync.ApplyMutationsToMaps` | src/routes/table.rs:219-254 | mutations one by one up to the first error |
| `RouteSync.RouteSyncState.ProcessRouteUpdate` | src/routes/table.rs:79-185 | stale, unparsable, or exactly the mutation list of `AdditionsInOrder` and `RemovalsLast` for the values of `ResolvesIff` |
| `RouteSync.RouteSyncState.ApplyMutationsToState` | src/routes/table.rs:191-213 | the mirror becomes the frame's keys |
| `RouteSync.RouteSyncState.SyncRoutes` | src/wiring.rs:155-198 | plan, write, record last: the same as `Sync`, of which `RouteOrigin`, `RejectedIff` and `AppliedIff` say what it comes to |
| `Watch.VersionedWatch.Drain` | src/client/watch.rs:50-58 | of one stream exactly the updates newer than everything before are passed on |
| `Watch.VersionedWatch.Follow` | src/client/watch.rs:25-103 | over every sequence of connects, closes, errors and redirects: the updates delivered are exactly the records of those received, each subscription asks from the newest version received before it, the counters are those of `CountsSince`, the client is sent exactly where counted redirects point, and the consumer hears of one error for each missing channel and each refusal given up |
| `Watch.RecordsIncrease` | src/client/watch.rs:53-56 | delivered versions strictly increase from above 0 |
| `Watch.RecordsComplete` | src/client/watch.rs:53-56 | an update newer than all before it is delivered |
| `Watch.HopsBounded` | src/client/watch.rs:62-70 | the hop count never exceeds six |
| `Watch.CountsSince` | src/client/watch.rs:45-101 | an accepted subscription resets both counters: they count the redirects, six at most, and the refusals given up since the last accepted stream, the redirect that ended it included |
| `Watch.NoMoreRedirects` | src/client/watch.rs:76-101 | after the sixth redirect every refusal is a failure until a subscription is accepted |
| `Watch.BackoffFitsIff` | src/client/watch.rs:86-88 | the doubled delay fits 64 bits exactly up to 57 failures in a row, and is 100 ms doubled once per failure, 5000 ms from the sixth |
| `Watch.RefusalsCount` | src/client/watch.rs:77-90 | k refusals in a row with a status that is not UNAVAILABLE count k failures and no redirect, so the delay no longer fits exactly from the 58th |
| `Watch.PolicyNeverStale` | src/wiring.rs:232-256 | no delivered update is stale to policy sync, whatever became of earlier ones |
| `Watch.RoutesNeverStale` | src/wiring.rs:134-198 | the same for route sync |
| `Watch.NewestPolicyInKernel` | src/wiring.rs:225-258 | watch and sync together: when updates compile and writes succeed, both policy tables hold exactly the keys of the newest update ever received |
| `ChannelCache.GoodStep` | src/client/mod.rs:66-121 | every lock-level step of any task keeps the lock, generation and address invariants |
| `ChannelCache.CertificateOfCache` | src/client/mod.rs:70-103 | in every reachable state a cached channel was built with the certificate of the last generation seen |
| `ChannelCache.CertificateHandedOut` | src/client/mod.rs:70-84 | a channel taken from the cache carries the certificate current at that moment |
| `ChannelCache.CertificateBuilt` | src/client/mod.rs:86-104 | a built channel carries the address and certificate that were current when the task read the target |
| `ChannelCache.CacheStepIff` | src/client/mod.rs:66-121 | a built channel is cached and dropped only by a get_channel that sees a newer SVID or by a retarget that has changed the target; target, generation seen and SVID change only by their own steps |
| `ChannelCache.HandedOutIff` | src/client/mod.rs:70-84 | a get_channel hands out the cached channel without building exactly when there is one and no newer SVID |
| `ChannelCache.CachedUntilDropped` | src/client/mod.rs:66-121 | over every run a cached channel stays the same until a step drops it |
| `ChannelCache.RetargetTakesHold` | src/client/mod.rs:66-121 | once a retarget has returned, every get_channel that starts later hands out a channel for its address or for one set later |
| `ChannelCache.StuckIff` | src/client/mod.rs:66-121 | no task can move exactly when all are finished or a get_channel and a retarget hold each other's lock |
| `ChannelCache.CrossingStepIff` | src/client/mod.rs:66-121 | a step crosses the locks exactly when a get_channel finds nothing to hand out while a retarget holds the target, or a retarget takes the target for a new address while a get_channel awaits it |
| `ChannelCache.CrossedIff` | src/client/mod.rs:66-121 | over every run the locks are crossed at the end exactly when some step crossed them |
| `ChannelCache.CrossedForever` | src/client/mod.rs:66-121 | from then on no channel is handed out and no retarget ends |
| `ChannelCache.CrossingReachable` | src/client/mod.rs:67-118 | a run of two tasks that gets there |
| `ChannelCache.ControlPlaneClient.GetChannel` | src/client/mod.rs:66-105 | undisturbed, the channel is for the current target and certificate and rebuilt only when missing or rotated |
| `ChannelCache.ControlPlaneClient.Retarget` | src/client/mod.rs:113-121 | a changed target drops the channel, the same one keeps it |
| `Retry.CapNeverBinds` | src/client/retry.rs:40-77 | a retry waits 100 ms doubled once per redirect, at most 3200 ms, so the cap never applies |
| `Retry.ClassifyIff` | src/client/retry.rs:40-77 | final exactly past the fifth redirect or when not UNAVAILABLE; redirected at once exactly when a leader that is not blank is named; else retried after 100 ms doubled per redirect |
| `Retry.TrimTakes` | src/client/retry.rs:46-58 | the redirect target is the leader hint without the blanks and tabs at its ends |
| `Retry.Call` | src/client/unary.rs:20-61 | against any server: the attempts before the last are exactly the recoverable ones, the result is decided by the last, targets and sleep are theirs, and at most 10 attempts, 6 redirects and 9600 ms |
| `Retry.CallBounds` | src/client/unary.rs:25-60 | any recoverable prefix has at most 9 attempts, 6 redirects, 3 retries and 9600 ms |
| `Retry.BoundsAttained` | src/client/unary.rs:25-60 | one server meets all three bounds |
| `Probes.Verdicts` | src/workloads/probes/mod.rs:104-163 | for every history, liveness fails exactly when the last failure_threshold outcomes failed, readiness holds exactly when the last success_threshold succeeded, and phase agrees |
| `Probes.ProbeRunner.Probe` | src/workloads/probes/mod.rs:104-137 | with 32-bit counters that do not run over, the phase returned is the history's verdict |
| `Probes.ProbeRunner.IsLivePassing` | src/workloads/probes/mod.rs:155-157 | fails exactly when the last failure_threshold outcomes failed |
| `Probes.ProbeRunner.IsReadyPassing` | src/workloads/probes/mod.rs:161-163 | holds exactly when the last success_threshold outcomes succeeded |
| `Probes.SetVerdicts` | src/workloads/probes/mod.rs:211-259 | over every run of ticks, liveness and readiness of a set are the verdicts on the outcomes seen while startup was done |
| `Probes.ReportVerdicts` | src/workloads/probe_manager.rs:66-87 | over every run of ticks from fresh probes, by the outcomes alone: startup is done exactly when its last success_threshold outcomes passed; until then the report is live, ready and not failed, from then on live and ready are the verdicts, failed when either is missing, all-passing when both hold |
| `Probes.StartupStaysDoneIff` | src/workloads/probes/mod.rs:199-221 | a finished startup probe stays done throughout a run exactly when none of its due probes fails |
| `Probes.StartupRegresses` | src/workloads/probes/mod.rs:211-221 | from fresh probes: liveness fails and is reported, then one failed startup probe un-finishes startup and the tick reports live and ready |
| `Probes.ProbeSetRunner.RunProbes` | src/workloads/probes/mod.rs:211-259 | afterwards all probes pass exactly when startup is done and both reported values hold |
| `Probes.ProbeManager.RegisterPod` | src/workloads/probe_manager.rs:49-51 | the registration step of `SinceRegistration` |
| `Probes.ProbeManager.UnregisterPod` | src/workloads/probe_manager.rs:54-56 | the unregistration step of `SinceRegistration` |
| `Probes.ProbeManager.Tick` | src/workloads/probe_manager.rs:66-87 | every registered pod is ticked and reported exactly once, on its own samples: the tick step of `SinceRegistration` |
| `Probes.SinceRegistration` | src/workloads/probe_manager.rs:49-87 | over every run of registrations, unregistrations and ticks: a pod is probed exactly when the last request about it registered it, with the probes registered then ticked on its own samples since |
| `Probes.NeverRegistered` | src/workloads/probe_manager.rs:49-87 | a pod no request was about is not probed |
| `PodLifecycle.StartsMatchRestarts` | src/workloads/probe_loop.rs:99-157 | over every run with eviction anywhere: Started events equal restarts while booting and are one more while running; restarts never exceed the maximum |
| `PodLifecycle.EvictedForGood` | src/workloads/pod_manager.rs:189-203 | a terminating or stopped pod is moved by no tick and never starts, restarts or backs off |
| `PodLifecycle.NoEarlyFailure` | src/workloads/probe_loop.rs:114-129 | no ProbeFailed before the first all-passing tick |
| `PodLifecycle.FailuresSeparated` | src/workloads/probe_loop.rs:121-149 | a non-failing tick or a restart separates any two ProbeFailed events |
| `PodLifecycle.LastVerdicts` | src/workloads/probe_loop.rs:108-113 | over every run the stored live and ready verdicts are those of the last tick, also through restarts and back-offs, and false before the first |
| `PodLifecycle.RunningGatesIff` | src/wiring.rs:56-92 | over every run, a running pod is ready exactly when some policy sync has succeeded since its boot and the latest route update since its boot found it connected |
| `PodLifecycle.RunsUngated` | src/workloads/probe_loop.rs:132-136 | a run in which a pod runs with neither gate |
| `PodLifecycle.RunsDisconnected` | src/wiring.rs:72-79 | a run in which a ready pod goes on running when a route update disconnects it |
| `PodLifecycle.PodManager.ProcessProbeResult` | src/workloads/probe_loop.rs:99-157 | an unknown pod changes nothing; a known one takes the step of `LastVerdicts`, `StartsMatchRestarts` and `FailuresSeparated`, no other is touched |
| `PodLifecycle.PodManager.Evict` | src/workloads/pod_manager.rs:196-203 | eviction from any active state, nothing otherwise |
| `PodLifecycle.PodManager.MarkAllPolicyEnforced` | src/wiring.rs:86-91 | every pod takes the policy step, none is added or dropped |
| `PodLifecycle.PodManager.ReevaluateRouterConnected` | src/wiring.rs:56-81 | every pod takes the route step for its own identity |
| `PodLifecycle.PodManager.RouterConnected` | src/wiring.rs:66-79 | connected exactly when every route that names the pod as a source is routed, so also when none does |
| `SealedStore.Parse` | src/identity/keystore.rs:187-206 | any byte string is too short or is exactly its four pieces in order |
| `SealedStore.ParseLayoutIff` | src/identity/keystore.rs:154-166 | parsing inverts the layout exactly when the sealed key's length fits 32 bits |
| `SealedStore.StoreIsUpdate` | src/identity/keystore.rs:328-375 | a successful store records the bytes under the label, a failed one changes no value, other labels keep theirs |
| `SealedStore.StoreOutcome` | src/identity/keystore.rs:328-375 | exactly when a store succeeds and the bytes it writes: an envelope (prefix 3) for more than 64 bytes, falling back to software if any of its steps fails; a TPM blob (1) up to 64, falling back only if the TPM fails; else software (2), which alone touches the master key, and only to make one |
| `SealedStore.LoadIsLookup` | src/identity/keystore.rs:377-415 | a load whose endpoint, reads and TPM work is the plain map's answer; with failures that or an error, never other bytes; it changes nothing |
| `SealedStore.LoadOutcome` | src/identity/keystore.rs:377-415 | the exact result of a load, by how the value was sealed and what fails |
| `SealedStore.LoadOkIff` | src/identity/keystore.rs:377-415 | on any stored bytes: what is handed out is what the library opens the blob to, by its prefix; unknown prefixes, missing endpoints and short envelopes are each refused as such |
| `SealedStore.LoadWithoutEndpointIff` | src/identity/keystore.rs:390-413 | without a TPM endpoint, reads working, a value is read back exactly when it was software-sealed |
| `SealedStore.StoreRefinesMap` | src/identity/keystore.rs:114-416 | over every run of stores and loads with any pattern of TPM, cipher and storage failures, the keyspace stands for the map of last successful stores |
| `SealedStore.LoadAfterRun` | src/identity/keystore.rs:377-415 | a load at the end of any run, its reads and the TPM working, returns the last successfully stored bytes of its label, from a store with a TPM endpoint and, when no store of the run had one, from a store without |
| `SealedStore.SoftwareOnly` | src/identity/keystore.rs:328-375 | a store without an endpoint writes software-sealed values only |
| `SealedStore.TpmSealedStore.GetOrCreateMasterKey` | src/identity/keystore.rs:242-272 | a 64-byte key is reused, anything else replaced by a new one |
| `SealedStore.TpmSealedStore.EnvelopeSeal` | src/identity/keystore.rs:114-175 | stores prefix, length, sealed key, nonce and ciphertext, or nothing |
| `SealedStore.TpmSealedStore.Store` | src/identity/keystore.rs:328-375 | envelope or direct TPM sealing with the fallbacks, as in `StoreOutcome` |
| `SealedStore.TpmSealedStore.EnvelopeUnseal` | src/identity/keystore.rs:180-235 | no slice is out of range on any bytes; agrees with `Parse` |
| `SealedStore.TpmSealedStore.Load` | src/identity/keystore.rs:377-415 | by prefix, as in `LoadOutcome` and `LoadOkIff` |
| `Watermark.KeyInjective` | src/identity/sequences.rs:17-23 | different (target, version) pairs have different keys, whatever bytes targets contain |
| `Watermark.MarksAfter` | src/identity/sequences.rs:30-69 | a delivery is accepted exactly when storage works and it is above its pair's mark, raises that mark, and touches no other pair |
| `Watermark.DeliversIff` | src/secret/deliver.rs:49-88 | bytes are handed out exactly when the delivery is accepted, its key has 32 bytes and unsealing yields them; replay, bad key and failed unsealing each have their own cause |
| `Watermark.RecordRead` | src/identity/sequences.rs:40-52 | a record is read from its first eight bytes, and a shorter one counts as none |
| `Watermark.StoreRefinesMarks` | src/identity/sequences.rs:30-69 | over every run the byte-keyed store stands for a map from pair to last accepted sequence |
| `Watermark.AcceptedIff` | src/secret/deliver.rs:49-88 | over every run a delivery is accepted exactly when storage works and its sequence is above 0 and all accepted before for the same pair |
| `Watermark.AcceptedIncrease` | src/identity/sequences.rs:30-69 | accepted sequences of a pair strictly increase |
| `Watermark.SpentBeforeUnsealing` | src/secret/deliver.rs:58-79 | a sequence is spent even when the secret is malformed or cannot be unsealed |
| `Watermark.SequenceStore.CheckRecord` | src/identity/sequences.rs:30-69 | as `CheckAndRecord`, with short records read as none |
| `Watermark.SequenceStore.DeliverSecret` | src/secret/deliver.rs:49-88 | only an accepted secret with a 32-byte key that unseals is handed out, and its sequence has become the mark |

## Left out

- parse_cidr: the standard library's address and number parsing; the model starts from the parsed address and prefix.
- CidsNeverRepeat: holds for runs of fewer than 2^32 - 3 moves; beyond that the 32-bit counter may wrap and the claim is not made. `RunSound` and what builds on it have the same bound.
- RunAccounted: assumes a registry is wired, releases succeed, ids are free of ":gw", boots are clear in the sense of `BootAccountedIff`, and 3 plus the number of workloads the frames list stays below 2^32; `EvictionReturnsPairIff`, `FailedBootIdentitiesIff`, `EvictAccountedIff` and `BootAccountedIff` say what these are needed for, and `Faults` what holds without them.
- POD_NET_COUNTERS: the entry a boot adds for its address, which nothing removes (src/workloads/mod.rs:358-365), is in no store of the model.
- Retry.Call: `fetch_secret` stands for all unary calls; the join loops, which retry without bound, are not modelled.
- Follow: `watch_sag` stands for the three versioned watches; sleeping is not modelled, and the unversioned event watch is not.
- ProcessProbeResult: the restart policy is the constant Always the source returns; events are flags without their order of emission.
- ProbeManager: the runners of the table are values that each tick replaces, so sharing of a runner between pods is not captured.
- ControlPlaneClient: the class is the client used by one task; interleaving is in the step machine, in which a rotation of the SVID is one step and lock fairness plays no part.
- SealedStore: labels other than the software master key's; secrecy, and that a blob moved to another label does not open, are properties of the cipher and not modelled.
- Wiring effects beside the kernel tables and the pod gates: hosts-file content and the dummy-IP configuration of guests.
- gRPC, TLS, OTLP, containerd, Cloud Hypervisor and `ip` commands, eBPF loading and pinning, TPM and VSOCK protocols: calls that succeed or fail.
- Join flows, configuration loading, status and event export, delegated key refresh, volumes and image paths: call sequencing, field copying and formatting.
