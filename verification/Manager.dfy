/** Reconciling whole schedule frames (src/workloads/mod.rs, `WorkloadManager::reconcile`):
    what one frame does, and what every run of frames keeps. */
module Manager {
  import opened Base
  import opened Pods
  import opened IpAllocator
  import opened Workloads
  import opened Reconciler
  import PodLifecycle

  /** One schedule frame: the desired workloads, the order in which hash-map iteration
      happens to list the evictions, how each eviction turns out, and how each boot does, by
      its place in the list of boots. */
  datatype Frame = Frame(
    desired: seq<WorkloadSpec>,
    order: seq<string>,
    evictions: string -> EvictOutcome,
    boots: nat -> BootOutcome)

  function EvictAll(w: Wiring, n: Node, ids: seq<string>, f: string -> EvictOutcome): Node {
    if ids == [] then n
    else
      var last := |ids| - 1;
      Evict(w, EvictAll(w, n, ids[..last], f), ids[last], f(ids[last])).0
  }

  /** The node after booting each spec in turn, and the workloads whose boot succeeded. */
  ghost function BootAll(w: Wiring, n: Node, specs: seq<WorkloadSpec>,
                         f: nat -> BootOutcome): (r: (Node, set<string>))
    requires Safe(n.alloc)
    ensures Safe(r.0.alloc)
  {
    if specs == [] then (n, {})
    else
      var (m, booted) := BootAll(w, n, specs[..|specs| - 1], f);
      var spec := specs[|specs| - 1];
      var (m', r) := Boot(w, m, spec, f(|specs| - 1));
      (m', if r.Booted? then booted + {spec.workloadId} else booted)
  }

  lemma EvictSafe(w: Wiring, n: Node, id: string, f: EvictOutcome)
    requires Safe(n.alloc)
    ensures Safe(Evict(w, n, id, f).0.alloc)
  {
    SafeStep(n.alloc, ReturnPair(id));
  }

  lemma {:induction false} EvictAllSafe(w: Wiring, n: Node, ids: seq<string>, f: string -> EvictOutcome)
    requires Safe(n.alloc)
    ensures Safe(EvictAll(w, n, ids, f).alloc)
  {
    if ids != [] {
      var last := |ids| - 1;
      EvictAllSafe(w, n, ids[..last], f);
      EvictSafe(w, EvictAll(w, n, ids[..last], f), ids[last], f(ids[last]));
    }
  }

  /** Evict what the frame no longer lists, then boot what it newly lists. */
  ghost function ReconcileFrame(w: Wiring, n: Node, frame: Frame): (r: (Node, set<string>))
    requires Safe(n.alloc)
    ensures Safe(r.0.alloc)
  {
    EvictAllSafe(w, n, frame.order, frame.evictions);
    BootAll(w, EvictAll(w, n, frame.order, frame.evictions), Missing(frame.desired, RunningIds(n.pods)), frame.boots)
  }

  // ---------------------------------------------------------------- one frame

  /** Pod ids are one-to-one with workload ids and carry no gateway suffix. */
  ghost predicate Injective(name: string -> string) {
    forall a, b {:trigger name(a), name(b)} :: name(a) == name(b) ==> a == b
  }

  predicate NamedBy(name: string -> string, spec: WorkloadSpec) {
    spec.podSpec.Some? ==> PodId(spec) == name(spec.workloadId) && GwFree(PodId(spec))
  }

  ghost predicate PodsNamed(name: string -> string, pods: map<string, Pod>) {
    forall id | id in pods :: name(pods[id].workloadId) == id
  }

  predicate DistinctWorkloads(specs: seq<WorkloadSpec>) {
    forall i, j | 0 <= i < j < |specs| :: specs[i].workloadId != specs[j].workloadId
  }

  lemma {:induction false} EvictAllAccounted(w: Wiring, n: Node, ids: seq<string>, f: string -> EvictOutcome)
    requires Accounted(w, n) && w.registry && forall i | 0 <= i < |ids| :: ReleasesSucceed(f(ids[i]))
    ensures var m := EvictAll(w, n, ids, f);
            && Accounted(w, m) && m.nextCid == n.nextCid
            && m.pods == (map id | id in n.pods && id !in ids :: n.pods[id])
            && m.sourceIps == map id | id in n.sourceIps && id !in ids :: n.sourceIps[id]
  {
    hide Accounted, Evict;
    if ids == [] {
      assert n.pods == map id | id in n.pods && id !in ids :: n.pods[id];
      assert n.sourceIps == map id | id in n.sourceIps && id !in ids :: n.sourceIps[id];
    } else {
      var last := |ids| - 1;
      EvictAllAccounted(w, n, ids[..last], f);
      EvictAccounted(w, EvictAll(w, n, ids[..last], f), ids[last], f(ids[last]));
      assert forall id :: id in ids <==> id in ids[..last] || id == ids[last];
    }
  }

  lemma RunningIdsGain(pods: map<string, Pod>, id: string, pod: Pod)
    requires id !in pods && Active(pod)
    ensures RunningIds(pods[id := pod]) == RunningIds(pods) + {pod.workloadId}
  {
    var more := pods[id := pod];
    assert id in more && more[id] == pod;
    forall k | k in pods && Active(pods[k]) ensures pods[k].workloadId in RunningIds(more) {
      assert k in more && more[k] == pods[k];
    }
  }

  /** A workload that is not running has no pod under its name. */
  lemma NameIsUnused(w: Wiring, n: Node, name: string -> string, spec: WorkloadSpec)
    requires Accounted(w, n) && Injective(name) && PodsNamed(name, n.pods) && NamedBy(name, spec)
    requires spec.podSpec.Some? && spec.workloadId !in RunningIds(n.pods)
    ensures PodId(spec) !in n.pods
  {
    forall id | id in n.pods ensures id != PodId(spec) {
      assert Active(n.pods[id]) && n.pods[id].workloadId in RunningIds(n.pods);
      assert name(n.pods[id].workloadId) == id;
    }
  }

  lemma BootNewCid(w: Wiring, n: Node, spec: WorkloadSpec, f: BootOutcome)
    requires Safe(n.alloc)
    ensures Boot(w, n, spec, f).0.vms <= n.vms + {n.nextCid}
  {
    hide Safe, PairOffset, AllocatePair, ReleasePair;
  }

  /** A pod that keeps its record and its address. */
  ghost predicate Kept(n: Node, m: Node, id: string)
    requires id in n.pods
  {
    && id in m.pods && m.pods[id] == n.pods[id]
    && id in n.sourceIps && id in m.sourceIps && m.sourceIps[id] == n.sourceIps[id]
  }

  /** What a series of boots leaves: accounts in order, earlier pods as they were, exactly
      the successfully booted workloads added, every new CID never used before. */
  ghost predicate Boots(w: Wiring, n: Node, specs: seq<WorkloadSpec>, m: Node, booted: set<string>) {
    && Accounted(w, m)
    && n.nextCid <= m.nextCid <= n.nextCid + |specs|
    && booted <= DesiredIds(specs)
    && RunningIds(m.pods) == RunningIds(n.pods) + booted
    && (forall id | id in n.pods :: Kept(n, m, id))
    && (forall c | c in m.vms && c !in n.vms :: n.nextCid <= c < m.nextCid)
  }

  /** A boot that cannot upset the accounts: its pod id is not in the table, or it does not get
      as far as a pair. */
  ghost predicate Clear(w: Wiring, n: Node, spec: WorkloadSpec, f: BootOutcome) {
    || spec.podSpec.None? || PodId(spec) !in n.pods
    || Identity(w, spec, f).None? || PairOffset(n.alloc).None?
  }

  lemma BootOne(w: Wiring, n: Node, spec: WorkloadSpec, f: BootOutcome)
    requires Accounted(w, n) && w.registry && Clear(w, n, spec, f) && (spec.podSpec.Some? ==> GwFree(PodId(spec)))
    requires f.unregistered && n.nextCid + 1 < 0x1_0000_0000 && Safe(n.alloc)
    ensures var (m, r) := Boot(w, n, spec, f); Boots(w, n, [spec], m, if r.Booted? then {spec.workloadId} else {})
  {
    hide Accounted, Boot, Identity, Safe, RunningIds, BootedPod, Boots, GwFree, PairOffset;
    var (m, r) := Boot(w, n, spec, f);
    AddressedKeys(w, n);
    if spec.podSpec.Some? && PodId(spec) in n.pods {
      NoPair(w, n, spec, f);
      FailedOnce(w, n, n, spec);
    } else {
      BootAccounted(w, n, spec, f);
      BootNewCid(w, n, spec, f);
      if r.Booted? {
        BootedPodFacts(w, spec, f, r.handle);
        BootedWorkload(spec, Identity(w, spec, f).value, r.handle);
        BootedOnce(w, n, m, spec, BootedPod(spec, Identity(w, spec, f).value, r.handle));
      } else {
        FailedOnce(w, n, m, spec);
      }
    }
  }

  lemma NoPair(w: Wiring, n: Node, spec: WorkloadSpec, f: BootOutcome)
    requires Safe(n.alloc) && (Identity(w, spec, f).None? || PairOffset(n.alloc).None?)
    ensures Boot(w, n, spec, f) == (n, BootFailed) && Restored(n, n)
  {
    hide Safe, PairOffset, Identity;
  }

  lemma BootedOnce(w: Wiring, n: Node, m: Node, spec: WorkloadSpec, pod: Pod)
    requires Accounted(w, m) && spec.podSpec.Some?
    requires PodId(spec) !in n.pods && m.pods == n.pods[PodId(spec) := pod] && Active(pod) &&
              pod.workloadId == spec.workloadId
    requires n.nextCid <= m.nextCid <= n.nextCid + 1 && m.vms <= n.vms + {n.nextCid}
    requires n.sourceIps.Keys == n.pods.Keys && m.sourceIps - {PodId(spec)} == n.sourceIps - {PodId(spec)}
    ensures Boots(w, n, [spec], m, {spec.workloadId})
  {
    hide Accounted, RunningIds;
    CidsBelow(w, m);
    forall id | id in n.pods ensures Kept(n, m, id) {
      assert id in n.sourceIps - {PodId(spec)} && id in m.sourceIps - {PodId(spec)};
    }
    assert [spec][0] == spec && spec.workloadId in DesiredIds([spec]);
    RunningIdsGain(n.pods, PodId(spec), pod);
  }

  lemma FailedOnce(w: Wiring, n: Node, m: Node, spec: WorkloadSpec)
    requires Accounted(w, m) && Restored(n, m) && n.nextCid <= m.nextCid <= n.nextCid + 1
    requires n.sourceIps.Keys == n.pods.Keys
    ensures Boots(w, n, [spec], m, {})
  {
    hide Accounted, RunningIds;
  }

  lemma BootedWorkload(spec: WorkloadSpec, fp: Bytes, handle: u32)
    requires spec.podSpec.Some?
    ensures BootedPod(spec, fp, handle).workloadId == spec.workloadId
  {
  }

  lemma CidsBelow(w: Wiring, n: Node)
    requires Accounted(w, n)
    ensures forall c | c in n.vms :: c < n.nextCid
  {
  }

  /** Boots under ids without a gateway suffix, whose roll-back manages to unregister. */
  ghost predicate Bootable(specs: seq<WorkloadSpec>, f: nat -> BootOutcome) {
    forall i | 0 <= i < |specs| :: (specs[i].podSpec.Some? ==> GwFree(PodId(specs[i]))) && f(i).unregistered
  }

  /** Each boot in turn is clear on the node it meets. */
  ghost predicate AllClear(w: Wiring, n: Node, specs: seq<WorkloadSpec>, f: nat -> BootOutcome)
    requires Safe(n.alloc)
  {
    specs == [] || (
      var k := |specs| - 1;
      AllClear(w, n, specs[..k], f) && Clear(w, BootAll(w, n, specs[..k], f).0, specs[k], f(k)))
  }

  lemma {:induction false} BootAllAccounted(w: Wiring, n: Node, specs: seq<WorkloadSpec>, f: nat -> BootOutcome)
    requires Accounted(w, n) && Safe(n.alloc) && w.registry
    requires Bootable(specs, f) && AllClear(w, n, specs, f) && n.nextCid + |specs| < 0x1_0000_0000
    ensures var (m, booted) := BootAll(w, n, specs, f); Boots(w, n, specs, m, booted)
  {
    hide Accounted, Boot, Safe, RunningIds, DesiredIds, Clear, GwFree, BootAll, Boots;
    if specs == [] {
      NoneBooted(w, n, f);
    } else {
      var k := |specs| - 1;
      BootAllAccounted(w, n, specs[..k], f);
      BootLast(w, n, specs, f);
    }
  }

  lemma NoneBooted(w: Wiring, n: Node, f: nat -> BootOutcome)
    requires Accounted(w, n) && Safe(n.alloc)
    ensures Boots(w, n, [], BootAll(w, n, [], f).0, BootAll(w, n, [], f).1)
  {
    hide Accounted, RunningIds, Safe;
    NoBoots(w, n);
  }

  lemma NoBoots(w: Wiring, n: Node)
    requires Accounted(w, n)
    ensures Boots(w, n, [], n, {})
  {
    hide Accounted, RunningIds;
    AddressedKeys(w, n);
    assert RunningIds(n.pods) + {} == RunningIds(n.pods);
  }

  lemma BootAllUnfolds(w: Wiring, n: Node, specs: seq<WorkloadSpec>, f: nat -> BootOutcome)
    requires specs != [] && Safe(n.alloc)
    ensures var k := |specs| - 1;
            var (m, booted) := BootAll(w, n, specs[..k], f);
            var (m', r) := Boot(w, m, specs[k], f(k));
            BootAll(w, n, specs, f) == (m', booted + if r.Booted? then {specs[k].workloadId} else {})
  {
    hide Boot, Safe;
    var (m, booted) := BootAll(w, n, specs[..|specs| - 1], f);
    assert booted + {} == booted;
  }

  lemma BootLast(w: Wiring, n: Node, specs: seq<WorkloadSpec>, f: nat -> BootOutcome)
    requires specs != [] && Safe(n.alloc) && w.registry && Bootable(specs, f) && n.nextCid + |specs| < 0x1_0000_0000
    requires var (m, booted) := BootAll(w, n, specs[..|specs| - 1], f);
             Boots(w, n, specs[..|specs| - 1], m, booted) && Clear(w, m, specs[|specs| - 1], f(|specs| - 1))
    ensures var (m, booted) := BootAll(w, n, specs, f); Boots(w, n, specs, m, booted)
  {
    hide Accounted, Boot, BootAll, Safe, RunningIds, DesiredIds, Clear, GwFree;
    BootAllUnfolds(w, n, specs, f);
    var k := |specs| - 1;
    var (m, booted) := BootAll(w, n, specs[..k], f);
    BootOne(w, m, specs[k], f(k));
    var (m', r) := Boot(w, m, specs[k], f(k));
    BootsCompose(w, n, m, m', specs[..k], specs[k], booted, if r.Booted? then {specs[k].workloadId} else {});
    Snoc(specs);
  }

  lemma Snoc<T>(s: seq<T>)
    requires s != []
    ensures s[..|s| - 1] + [s[|s| - 1]] == s
  {
  }

  lemma LastIsNew(specs: seq<WorkloadSpec>, booted: set<string>)
    requires specs != [] && DistinctWorkloads(specs) && booted <= DesiredIds(specs[..|specs| - 1])
    ensures specs[|specs| - 1].workloadId !in booted
  {
    var init := specs[..|specs| - 1];
    forall i | 0 <= i < |init| ensures init[i].workloadId != specs[|specs| - 1].workloadId {
      assert init[i] == specs[i];
    }
  }

  lemma BootsCompose(w: Wiring, n: Node, m: Node, m': Node, init: seq<WorkloadSpec>, spec: WorkloadSpec, a: set<string>,
                     b: set<string>)
    requires Boots(w, n, init, m, a) && Boots(w, m, [spec], m', b)
    ensures Boots(w, n, init + [spec], m', a + b)
  {
    hide Accounted, RunningIds;
    forall x | x in a + b ensures x in DesiredIds(init + [spec]) {
      if x in a {
        var i :| 0 <= i < |init| && init[i].workloadId == x;
        assert (init + [spec])[i].workloadId == x;
      } else {
        assert (init + [spec])[|init|].workloadId == x;
      }
    }
  }

  /** A frame that keeps the accounts exact: evictions listed as a hash map would, with releases
      that succeed, and clear boots under ids without a gateway suffix, whose roll-back
      manages to unregister. Boots may fail at any stage. */
  ghost predicate FrameOk(w: Wiring, n: Node, frame: Frame)
    requires Safe(n.alloc)
  {
    var specs, e := Missing(frame.desired, RunningIds(n.pods)), EvictAll(w, n, frame.order, frame.evictions);
    EvictAllSafe(w, n, frame.order, frame.evictions);
    && Lists(frame.order, Surplus(frame.desired, n.pods))
    && (forall i | 0 <= i < |frame.order| :: ReleasesSucceed(frame.evictions(frame.order[i])))
    && Bootable(specs, frame.boots) && AllClear(w, e, specs, frame.boots)
  }

  lemma {:induction false} MissingStaysDistinct(desired: seq<WorkloadSpec>, present: set<string>)
    requires DistinctWorkloads(desired)
    ensures DistinctWorkloads(Missing(desired, present)) && |Missing(desired, present)| <= |desired|
  {
    if desired != [] {
      MissingStaysDistinct(desired[1..], present);
      MissingDistinct(desired, present);
    }
  }

  lemma MissingDistinct(desired: seq<WorkloadSpec>, present: set<string>)
    requires DistinctWorkloads(desired) && desired != []
    ensures forall j | 0 <= j < |Missing(desired[1..], present)| ::
              Missing(desired[1..], present)[j].workloadId != desired[0].workloadId
  {
    var rest := Missing(desired[1..], present);
    forall j | 0 <= j < |rest| ensures rest[j].workloadId != desired[0].workloadId {
      assert rest[j] in desired[1..];
      var k :| 0 <= k < |desired[1..]| && desired[1..][k] == rest[j];
      assert desired[k + 1] == rest[j];
    }
  }

  lemma Listed(q: seq<string>, s: set<string>)
    requires Lists(q, s)
    ensures forall x :: x in q <==> x in s
  {
    forall x ensures x in q <==> x in s {
      assert x in q <==> x in multiset(q);
      assert x in s <==> x in multiset(s);
    }
  }

  lemma AllActive(w: Wiring, n: Node)
    requires Accounted(w, n)
    ensures forall id | id in n.pods :: Active(n.pods[id])
    ensures n.vms == VmCids(n.pods)
  {
  }

  /** After the evictions exactly the desired part of what ran is still running. */
  lemma EvictedFrame(pods: map<string, Pod>, desired: seq<WorkloadSpec>, order: seq<string>, kept: map<string, Pod>)
    requires forall id | id in pods :: Active(pods[id])
    requires forall id :: id in order <==> id in Surplus(desired, pods)
    requires kept == map id | id in pods && id !in order :: pods[id]
    ensures RunningIds(kept) == RunningIds(pods) * DesiredIds(desired)
    ensures forall id | id in pods :: id in kept <==> pods[id].workloadId in DesiredIds(desired)
  {
    hide DesiredIds;
    forall id | id in pods ensures id in kept <==> pods[id].workloadId in DesiredIds(desired) {
      assert id in order <==> id in Surplus(desired, pods);
    }
    hide Surplus;
    forall x | x in RunningIds(pods) * DesiredIds(desired) ensures x in RunningIds(kept) {
      var id :| id in pods && Active(pods[id]) && pods[id].workloadId == x;
      assert id in kept && kept[id] == pods[id];
    }
  }

  /** Outcome of a frame: accounts in order, exactly the desired workloads that were running
      or whose boot succeeded now run, kept pods keep record and address, and new CIDs are fresh. */
  ghost predicate Reconciled(w: Wiring, n: Node, desired: seq<WorkloadSpec>, m: Node, booted: set<string>) {
    && Accounted(w, m)
    && n.nextCid <= m.nextCid <= n.nextCid + |desired|
    && RunningIds(m.pods) == RunningIds(n.pods) * DesiredIds(desired) + booted
    && booted <= DesiredIds(Missing(desired, RunningIds(n.pods)))
    && (forall id | id in n.pods && n.pods[id].workloadId in DesiredIds(desired) :: Kept(n, m, id))
    && (forall c | c in m.vms && c !in n.vms :: n.nextCid <= c < m.nextCid)
  }

  lemma VmCidsShrink(pods: map<string, Pod>, kept: map<string, Pod>)
    requires forall id | id in kept :: id in pods && kept[id] == pods[id]
    ensures VmCids(kept) <= VmCids(pods)
  {
    forall c | c in VmCids(kept) ensures c in VmCids(pods) {
      var id :| id in kept && kept[id].runtime.CloudHypervisor? && kept[id].pid == Some(c);
      assert id in pods && pods[id].pid == Some(c);
    }
  }

  lemma FrameReconciled(w: Wiring, n: Node, frame: Frame)
    requires Accounted(w, n) && Safe(n.alloc) && w.registry
    requires FrameOk(w, n, frame) && n.nextCid + |frame.desired| < 0x1_0000_0000
    ensures var (m, booted) := ReconcileFrame(w, n, frame); Reconciled(w, n, frame.desired, m, booted)
  {
    hide Accounted, Safe, Bootable, AllClear, Lists, Surplus, DesiredIds, RunningIds, BootAll, EvictAll, Missing,
      VmCids;
    var specs, e := Missing(frame.desired, RunningIds(n.pods)), EvictAll(w, n, frame.order, frame.evictions);
    EvictAllAccounted(w, n, frame.order, frame.evictions);
    EvictAllSafe(w, n, frame.order, frame.evictions);
    AllActive(w, n);
    AllActive(w, e);
    Listed(frame.order, Surplus(frame.desired, n.pods));
    EvictedFrame(n.pods, frame.desired, frame.order, e.pods);
    VmCidsShrink(n.pods, e.pods);
    MissingShorter(frame.desired, RunningIds(n.pods));
    BootAllAccounted(w, e, specs, frame.boots);
    var m := BootAll(w, e, specs, frame.boots).0;
    AddressedKeys(w, n);
    forall id | id in n.pods && n.pods[id].workloadId in DesiredIds(frame.desired) ensures Kept(n, m, id) {
      NotSurplus(frame.desired, n.pods, id);
      assert id in e.pods && Kept(e, m, id);
    }
  }

  lemma {:induction false} MissingShorter(desired: seq<WorkloadSpec>, present: set<string>)
    ensures |Missing(desired, present)| <= |desired|
  {
    if desired != [] { MissingShorter(desired[1..], present); }
  }

  lemma NotSurplus(desired: seq<WorkloadSpec>, pods: map<string, Pod>, id: string)
    requires id in pods && pods[id].workloadId in DesiredIds(desired)
    ensures id !in Surplus(desired, pods)
  {
  }

  // ---------------------------------------------------------------- fixed point

  lemma {:induction false} MissingTwice(desired: seq<WorkloadSpec>, ran: set<string>, ids: set<string>,
                                        booted: set<string>)
    requires DesiredIds(desired) <= ids
    ensures Missing(desired, ran * ids + booted) == Missing(Missing(desired, ran), booted)
  {
    if desired != [] {
      assert desired[0].workloadId in DesiredIds(desired);
      forall i | 0 <= i < |desired[1..]| ensures desired[1..][i].workloadId in DesiredIds(desired) {
        assert desired[1..][i] == desired[i + 1];
      }
      MissingTwice(desired[1..], ran, ids, booted);
      if desired[0].workloadId !in ran {
        var rest := Missing(desired[1..], ran);
        assert ([desired[0]] + rest)[1..] == rest;
      }
    }
  }

  /** Reconciling the same frame again evicts nothing and boots exactly the specs whose boot
      failed; when every boot succeeded the frame is a fixed point: it returns the same node. */
  lemma ReconcileAgain(w: Wiring, n: Node, frame: Frame)
    requires Accounted(w, n) && Safe(n.alloc) && w.registry
    requires FrameOk(w, n, frame) && n.nextCid + |frame.desired| < 0x1_0000_0000
    ensures var (m, booted) := ReconcileFrame(w, n, frame);
            var toBoot := Missing(frame.desired, RunningIds(n.pods));
            && Surplus(frame.desired, m.pods) == {}
            && Missing(frame.desired, RunningIds(m.pods)) == Missing(toBoot, booted)
            && (DesiredIds(toBoot) <= booted ==>
                  && Missing(frame.desired, RunningIds(m.pods)) == []
                  && forall again: Frame | again.desired == frame.desired && again.order == [] ::
                       ReconcileFrame(w, m, again) == (m, {}))
  {
    hide Accounted, Safe, FrameOk, ReconcileFrame;
    FrameReconciled(w, n, frame);
    var (m, booted) := ReconcileFrame(w, n, frame);
    var toBoot := Missing(frame.desired, RunningIds(n.pods));
    MissingTwice(frame.desired, RunningIds(n.pods), DesiredIds(frame.desired), booted);
    DesiredShrinks(frame.desired, RunningIds(n.pods));
    NoSurplus(frame.desired, m.pods);
    if DesiredIds(toBoot) <= booted {
      forall i | 0 <= i < |toBoot| ensures toBoot[i].workloadId in booted {
        assert toBoot[i].workloadId in DesiredIds(toBoot);
      }
      AllPresent(toBoot, booted);
      forall again: Frame | again.desired == frame.desired && again.order == []
        ensures ReconcileFrame(w, m, again) == (m, {})
      {
        NothingToDo(w, m, again);
      }
    }
  }

  lemma NothingToDo(w: Wiring, n: Node, frame: Frame)
    requires Safe(n.alloc) && frame.order == [] && Missing(frame.desired, RunningIds(n.pods)) == []
    ensures ReconcileFrame(w, n, frame) == (n, {})
  {
  }

  lemma DesiredShrinks(desired: seq<WorkloadSpec>, present: set<string>)
    ensures DesiredIds(Missing(desired, present)) <= DesiredIds(desired)
  {
    var m := Missing(desired, present);
    forall i | 0 <= i < |m| ensures m[i].workloadId in DesiredIds(desired) { assert m[i] in desired; }
  }

  lemma NoSurplus(desired: seq<WorkloadSpec>, pods: map<string, Pod>)
    requires RunningIds(pods) <= DesiredIds(desired)
    ensures Surplus(desired, pods) == {}
  {
    forall id | id in pods && Active(pods[id]) ensures pods[id].workloadId in DesiredIds(desired) {
      assert pods[id].workloadId in RunningIds(pods);
    }
  }

  lemma {:induction false} AllPresent(specs: seq<WorkloadSpec>, present: set<string>)
    requires forall i | 0 <= i < |specs| :: specs[i].workloadId in present
    ensures Missing(specs, present) == []
  {
    if specs != [] { AllPresent(specs[1..], present); }
  }

  // ---------------------------------------------------------------- runs

  /** Between frames other tasks may update the pod table in place: probes, readiness gates,
      restarts. They never change whose pod it is, and never retire one. */
  datatype Step = Reconcile(frame: Frame) | Observe(pods: map<string, Pod>)

  predicate SamePod(p: Pod, q: Pod) {
    && p.podId == q.podId && p.workloadId == q.workloadId && p.tenantId == q.tenantId && p.role == q.role
    && p.runtime == q.runtime && p.pid == q.pid && p.fingerprint == q.fingerprint
    && Active(q)
  }

  ghost predicate StepTo(w: Wiring, n: Node, step: Step, m: Node) {
    match step
    case Reconcile(frame) => Safe(n.alloc) && FrameOk(w, n, frame) && m == ReconcileFrame(w, n, frame).0
    case Observe(pods) =>
      m == n.(pods := pods) && pods.Keys == n.pods.Keys && forall id | id in pods :: SamePod(n.pods[id], pods[id])
  }

  ghost predicate Run(w: Wiring, states: seq<Node>, steps: seq<Step>) {
    && |states| == |steps| + 1
    && forall i | 0 <= i < |steps| :: StepTo(w, states[i], steps[i], states[i + 1])
  }

  /** Whatever the lifecycle does to a live pod short of evicting it is such an update. */
  lemma LifecycleObserves(w: Wiring, n: Node, id: string, x: PodLifecycle.Input, max: nat)
    requires id in n.pods && (forall k | k in n.pods :: Active(n.pods[k])) && !x.Evict? && !x.Finish?
    ensures var pods := n.pods[id := PodLifecycle.Step(n.pods[id], x, max).0];
            StepTo(w, n, Observe(pods), n.(pods := pods))
  {
    StaysSame(n.pods[id], x, max);
    hide PodLifecycle.Step;
  }

  lemma StaysSame(pod: Pod, x: PodLifecycle.Input, max: nat)
    requires Active(pod) && !x.Evict? && !x.Finish?
    ensures SamePod(pod, PodLifecycle.Step(pod, x, max).0)
  {
    hide PodLifecycle.Marked, PodLifecycle.Promoted, PodLifecycle.Restarted;
    if x.Tick? {
      var p := PodLifecycle.Marked(pod, x).0;
      MarkedSame(pod, x);
      PromotedSame(p, x);
      RestartedSame(PodLifecycle.Promoted(p, x), max);
    }
  }

  lemma MarkedSame(pod: Pod, x: PodLifecycle.Input)
    requires Active(pod) && x.Tick?
    ensures SamePod(pod, PodLifecycle.Marked(pod, x).0)
  {
  }

  lemma PromotedSame(pod: Pod, x: PodLifecycle.Input)
    requires Active(pod) && x.Tick?
    ensures SamePod(pod, PodLifecycle.Promoted(pod, x))
  {
  }

  lemma RestartedSame(pod: Pod, max: nat)
    requires Active(pod)
    ensures SamePod(pod, PodLifecycle.Restarted(pod, max).0)
  {
  }

  function Requested(steps: seq<Step>): nat {
    if steps == [] then 0
    else
      Requested(steps[..|steps| - 1]) +
      match steps[|steps| - 1] case Reconcile(frame) => |frame.desired| case Observe(_) => 0
  }

  /** A node at agent start-up. */
  function StartUp(a: Alloc): Node {
    Node(map[], a, map[], map[], 3, {}, map[], map[], {}, false, {})
  }

  lemma StartUpAccounted(w: Wiring, ip: u32, prefix: u32)
    requires New(ip, prefix).Ok?
    ensures Accounted(w, StartUp(New(ip, prefix).value))
  {
    NewIsPaired(ip, prefix);
    var n := StartUp(New(ip, prefix).value);
    assert Paired(n.alloc) && n.alloc.held == map[];
    assert Interfaces({}) == {} && VmCids(map[]) == {};
  }

  lemma ObservedAddresses(pods: map<string, Pod>, seen: map<string, Pod>, base: u32, ends: map<u32, string>,
                          ips: map<string, u32>, ids: map<u32, Bytes>)
    requires seen.Keys == pods.Keys && forall id | id in seen :: SamePod(pods[id], seen[id])
    requires Labelled(pods, base, ends, ips, ids)
    ensures Labelled(seen, base, ends, ips, ids)
  {
    forall id | id in seen ensures Addressed(seen[id], base, ends, id, ips[id], ids) {
      assert SamePod(pods[id], seen[id]) && Addressed(pods[id], base, ends, id, ips[id], ids);
    }
  }

  lemma ObservedVmStores(w: Wiring, n: Node, m: Node)
    requires VmsAccounted(w, n) && m == n.(pods := m.pods) && m.pods.Keys == n.pods.Keys
    requires forall id | id in m.pods :: SamePod(n.pods[id], m.pods[id])
    ensures VmsAccounted(w, m)
  {
    ObservedVms(n.pods, m.pods);
    hide VmCids, HandlesDistinct;
    forall id | w.attestation && id in m.pods && m.pods[id].runtime.CloudHypervisor? && m.pods[id].pid.Some?
      ensures ContextMatches(id, m.pods[id].pid.value, m.sourceIps, m.contexts)
    {
      assert SamePod(n.pods[id], m.pods[id]) && ContextMatches(id, n.pods[id].pid.value, n.sourceIps, n.contexts);
    }
  }

  lemma ObservedAccounted(w: Wiring, n: Node, m: Node)
    requires Accounted(w, n) && m == n.(pods := m.pods) && m.pods.Keys == n.pods.Keys
    requires forall id | id in m.pods :: SamePod(n.pods[id], m.pods[id])
    ensures Accounted(w, m)
  {
    hide Paired, Safe, Labelled, VmsAccounted, PodEnds;
    ObservedAddresses(n.pods, m.pods, n.alloc.base, PodEnds(n.alloc.held), n.sourceIps, n.identities);
    ObservedVmStores(w, n, m);
    forall id | id in m.pods ensures m.pods[id].podId == id && Active(m.pods[id]) && OwnIdentity(w, m.pods[id]) {
      assert SamePod(n.pods[id], m.pods[id]) && OwnIdentity(w, n.pods[id]);
    }
  }

  lemma ObservedVms(pods: map<string, Pod>, seen: map<string, Pod>)
    requires seen.Keys == pods.Keys && forall id | id in seen :: SamePod(pods[id], seen[id])
    ensures VmCids(seen) == VmCids(pods)
    ensures HandlesDistinct(pods) ==> HandlesDistinct(seen)
  {
    forall id | id in pods ensures pods[id].runtime == seen[id].runtime && pods[id].pid == seen[id].pid {
      assert SamePod(pods[id], seen[id]);
    }
  }

  lemma ObservedNames(name: string -> string, pods: map<string, Pod>, seen: map<string, Pod>)
    requires PodsNamed(name, pods) && seen.Keys == pods.Keys && forall id | id in seen :: SamePod(pods[id], seen[id])
    ensures PodsNamed(name, seen)
  {
    forall id | id in seen ensures name(seen[id].workloadId) == id {
      assert SamePod(pods[id], seen[id]) && name(pods[id].workloadId) == id;
    }
  }

  lemma StepAccounted(w: Wiring, n: Node, step: Step, m: Node)
    requires w.registry && Accounted(w, n) && StepTo(w, n, step, m) && n.nextCid + Requested([step]) < 0x1_0000_0000
    ensures Accounted(w, m) && n.nextCid <= m.nextCid <= n.nextCid + Requested([step])
  {
    hide Accounted, FrameOk, ReconcileFrame, Safe, SamePod;
    assert Requested([step]) == Requested([]) +
      match step case Reconcile(frame) => |frame.desired| case Observe(_) => 0;
    match step {
      case Reconcile(frame) => FrameReconciled(w, n, frame);
      case Observe(pods) => ObservedAccounted(w, n, m);
    }
  }

  /** Over every run of frames and in-place pod updates, with boots failing at any stage:
      the stores agree with the live pods at the end (see AccountsAgree). */
  lemma {:induction false} RunAccounted(w: Wiring, ip: u32, prefix: u32, states: seq<Node>, steps: seq<Step>)
    requires w.registry && New(ip, prefix).Ok? && Run(w, states, steps)
    requires states[0] == StartUp(New(ip, prefix).value) && 3 + Requested(steps) < 0x1_0000_0000
    ensures Accounted(w, states[|steps|]) && states[|steps|].nextCid <= 3 + Requested(steps)
  {
    hide Accounted, StepTo, New;
    if steps == [] {
      StartUpAccounted(w, ip, prefix);
    } else {
      var k := |steps| - 1;
      RunAccounted(w, ip, prefix, states[..k + 1], steps[..k]);
      assert Requested(steps) == Requested(steps[..k]) + Requested([steps[k]]) by { assert [steps[k]][..0] == []; }
      StepAccounted(w, states[k], steps[k], states[k + 1]);
    }
  }

  // ---------------------------------------------------------------- frames whose boots are clear

  /** A frame of distinct workloads under their one-to-one pod names. */
  ghost predicate NamedFrame(name: string -> string, n: Node, frame: Frame) {
    && DistinctWorkloads(frame.desired) && (forall i | 0 <= i < |frame.desired| :: NamedBy(name, frame.desired[i]))
    && (forall i | 0 <= i < |frame.desired| :: frame.boots(i).unregistered)
    && Lists(frame.order, Surplus(frame.desired, n.pods))
    && (forall i | 0 <= i < |frame.order| :: ReleasesSucceed(frame.evictions(frame.order[i])))
  }

  ghost predicate NamedStep(w: Wiring, name: string -> string, n: Node, step: Step, m: Node) {
    match step
    case Reconcile(frame) => Safe(n.alloc) && NamedFrame(name, n, frame) && m == ReconcileFrame(w, n, frame).0
    case Observe(_) => StepTo(w, n, step, m)
  }

  ghost predicate NamedRun(w: Wiring, name: string -> string, states: seq<Node>, steps: seq<Step>) {
    && |states| == |steps| + 1
    && forall i | 0 <= i < |steps| :: NamedStep(w, name, states[i], steps[i], states[i + 1])
  }

  lemma {:induction false} DistinctClear(w: Wiring, name: string -> string, n: Node, specs: seq<WorkloadSpec>,
                                         f: nat -> BootOutcome)
    requires Accounted(w, n) && Safe(n.alloc) && w.registry && Injective(name) && PodsNamed(name, n.pods)
    requires DistinctWorkloads(specs) && (forall i | 0 <= i < |specs| :: NamedBy(name, specs[i]) && f(i).unregistered)
    requires forall i | 0 <= i < |specs| :: specs[i].workloadId !in RunningIds(n.pods)
    requires n.nextCid + |specs| < 0x1_0000_0000
    ensures Bootable(specs, f) && AllClear(w, n, specs, f) && PodsNamed(name, BootAll(w, n, specs, f).0.pods)
  {
    hide Accounted, Boot, Safe, RunningIds, Injective, PodsNamed, NamedBy, DistinctWorkloads, DesiredIds, GwFree;
    NamedBootable(name, specs, f);
    if specs != [] {
      var k := |specs| - 1;
      DistinctPrefix(specs);
      DistinctClear(w, name, n, specs[..k], f);
      BootAllAccounted(w, n, specs[..k], f);
      var (m, booted) := BootAll(w, n, specs[..k], f);
      LastIsNew(specs, booted);
      if specs[k].podSpec.Some? { NameIsUnused(w, m, name, specs[k]); }
      BootNamed(w, name, m, specs[k], f(k));
    }
  }

  lemma NamedBootable(name: string -> string, specs: seq<WorkloadSpec>, f: nat -> BootOutcome)
    requires forall i | 0 <= i < |specs| :: NamedBy(name, specs[i]) && f(i).unregistered
    ensures Bootable(specs, f)
  {
  }

  lemma DistinctPrefix(specs: seq<WorkloadSpec>)
    requires DistinctWorkloads(specs) && specs != []
    ensures DistinctWorkloads(specs[..|specs| - 1])
  {
  }

  lemma BootNamed(w: Wiring, name: string -> string, n: Node, spec: WorkloadSpec, f: BootOutcome)
    requires Safe(n.alloc) && PodsNamed(name, n.pods) && NamedBy(name, spec)
    ensures PodsNamed(name, Boot(w, n, spec, f).0.pods)
  {
    hide Safe, PairOffset, AllocatePair, ReleasePair, GwFree;
  }

  lemma NamedFrameOk(w: Wiring, name: string -> string, n: Node, frame: Frame)
    requires Accounted(w, n) && Safe(n.alloc) && w.registry && Injective(name) && PodsNamed(name, n.pods)
    requires NamedFrame(name, n, frame) && n.nextCid + |frame.desired| < 0x1_0000_0000
    ensures FrameOk(w, n, frame) && PodsNamed(name, ReconcileFrame(w, n, frame).0.pods)
  {
    hide Accounted, Safe, Injective, NamedBy, Lists, Surplus, DesiredIds, RunningIds, BootAll, EvictAll, Bootable,
      AllClear, DistinctWorkloads, Missing;
    var specs, e := Missing(frame.desired, RunningIds(n.pods)), EvictAll(w, n, frame.order, frame.evictions);
    EvictAllAccounted(w, n, frame.order, frame.evictions);
    EvictAllSafe(w, n, frame.order, frame.evictions);
    AllActive(w, n);
    Listed(frame.order, Surplus(frame.desired, n.pods));
    EvictedFrame(n.pods, frame.desired, frame.order, e.pods);
    MissingShorter(frame.desired, RunningIds(n.pods));
    MissingStaysDistinct(frame.desired, RunningIds(n.pods));
    forall i | 0 <= i < |specs| ensures NamedBy(name, specs[i]) && specs[i].workloadId !in RunningIds(e.pods) {
      assert specs[i] in specs;
    }
    DistinctClear(w, name, e, specs, frame.boots);
  }

  /** Frames of distinct workloads, under pod ids one-to-one with them and without a gateway
      suffix, are clear throughout every run; so the accounts are exact in every such run. */
  lemma {:induction false} NamedRunAccounted(w: Wiring, name: string -> string, ip: u32, prefix: u32, states: seq<Node>,
                                             steps: seq<Step>)
    requires w.registry && Injective(name) && New(ip, prefix).Ok? && NamedRun(w, name, states, steps)
    requires states[0] == StartUp(New(ip, prefix).value) && 3 + Requested(steps) < 0x1_0000_0000
    ensures Run(w, states, steps) && Accounted(w, states[|steps|]) && PodsNamed(name, states[|steps|].pods)
  {
    hide Accounted, Injective, New, NamedStep, StepTo, PodsNamed;
    if steps == [] {
      NobodyNamed(name, New(ip, prefix).value);
    } else {
      var k := |steps| - 1;
      NamedRunAccounted(w, name, ip, prefix, states[..k + 1], steps[..k]);
      RunAccounted(w, ip, prefix, states[..k + 1], steps[..k]);
      assert Requested(steps) == Requested(steps[..k]) + Requested([steps[k]]) by { assert [steps[k]][..0] == []; }
      NamedStepOk(w, name, states[k], steps[k], states[k + 1]);
      LongerRun(w, states, steps);
    }
    RunAccounted(w, ip, prefix, states, steps);
  }

  lemma NamedStepOk(w: Wiring, name: string -> string, n: Node, step: Step, m: Node)
    requires w.registry && Accounted(w, n) && Injective(name) && PodsNamed(name, n.pods)
    requires NamedStep(w, name, n, step, m) && n.nextCid + Requested([step]) < 0x1_0000_0000
    ensures StepTo(w, n, step, m) && PodsNamed(name, m.pods)
  {
    hide Accounted, Injective, FrameOk, ReconcileFrame, NamedFrame, PodsNamed, SamePod, Safe;
    assert [step][..0] == [];
    match step {
      case Reconcile(frame) => NamedFrameOk(w, name, n, frame);
      case Observe(pods) => ObservedNames(name, n.pods, pods);
    }
  }

  lemma LongerRun(w: Wiring, states: seq<Node>, steps: seq<Step>)
    requires steps != [] && |states| == |steps| + 1 && Run(w, states[..|steps|], steps[..|steps| - 1])
    requires StepTo(w, states[|steps| - 1], steps[|steps| - 1], states[|steps|])
    ensures Run(w, states, steps)
  {
    hide StepTo;
    forall i | 0 <= i < |steps| ensures StepTo(w, states[i], steps[i], states[i + 1]) {
      if i < |steps| - 1 {
        var s, a := states[..|steps|], steps[..|steps| - 1];
        assert StepTo(w, s[i], a[i], s[i + 1]);
      }
    }
  }

  lemma NobodyNamed(name: string -> string, a: Alloc)
    ensures PodsNamed(name, StartUp(a).pods)
  {
  }

  /** The record a boot leaves is the spec's own, under the handle and fingerprint of this boot,
      and as fresh as every run of the pod's lifecycle starts. */
  lemma BootedRecord(w: Wiring, n: Node, spec: WorkloadSpec, f: BootOutcome)
    requires Safe(n.alloc) && spec.podSpec.Some? && Boot(w, n, spec, f).1.Booted?
    ensures var (m, r) := Boot(w, n, spec, f);
            var ps := spec.podSpec.value;
            var id := if ps.podId.Some? then ps.podId.value else spec.workloadId;
            && id in m.pods
            && var p := m.pods[id];
               && PodLifecycle.Fresh(p) && PodLifecycle.Run([p], [], 0)
               && p.podId == id && p.workloadId == spec.workloadId && p.tenantId == ps.tenantId
               && p.role == spec.role && p.runtime == spec.runtime && p.pid == Some(r.handle)
               && Some(p.fingerprint) == w.fingerprint(ps.tenantId, spec.workloadId, spec.role)
  {
    hide Safe, PairOffset, AllocatePair, ReleasePair, Interface, Unstarted, Started, RuntimeBoots;
  }

  // ---------------------------------------------------------------- where the accounts can break

  /** A boot keeps exact accounts exact exactly when it is clear. */
  lemma BootAccountedIff(w: Wiring, n: Node, spec: WorkloadSpec, f: BootOutcome)
    requires Accounted(w, n) && Safe(n.alloc) && w.registry && f.unregistered && n.nextCid + 1 < 0x1_0000_0000
    requires spec.podSpec.Some? ==> GwFree(PodId(spec))
    ensures Accounted(w, Boot(w, n, spec, f).0) <==> Clear(w, n, spec, f)
  {
    hide Accounted, Boot, Safe, GwFree, Identity, PairOffset, Boots;
    if Clear(w, n, spec, f) {
      BootOne(w, n, spec, f);
      BootsAccounted(w, n, [spec], Boot(w, n, spec, f).0);
    } else {
      SecondBoot(w, n, spec, f);
    }
  }

  lemma BootsAccounted(w: Wiring, n: Node, specs: seq<WorkloadSpec>, m: Node)
    requires exists booted :: Boots(w, n, specs, m, booted)
    ensures Accounted(w, m)
  {
    hide Accounted;
  }

  /** A boot of an id in the table that gets a pair leaves the id with two, or with none. */
  lemma SecondBoot(w: Wiring, n: Node, spec: WorkloadSpec, f: BootOutcome)
    requires Accounted(w, n) && Safe(n.alloc) && spec.podSpec.Some? && GwFree(PodId(spec)) && PodId(spec) in n.pods
    requires Identity(w, spec, f).Some? && PairOffset(n.alloc).Some?
    ensures !Accounted(w, Boot(w, n, spec, f).0)
  {
    hide Boot, Safe, GwFree, Identity, PairOffset, AllocatePair, ReleasePair, Paired, Grantable, VmsAccounted, Labelled;
    var id, a := PodId(spec), n.alloc;
    PodHoldsPair(n, id);
    var j: nat :| HeldBy(a, j, id);
    BootGetsPair(w, n, spec, f);
    PairedAllocate(a, id);
    PairedRelease(AllocatePair(a, id), id);
    GrantedAddress(a);
    PairOffsetFacts(a);
    var m, k := Boot(w, n, spec, f).0, PairOffset(a).value / 4;
    if m.alloc == AllocatePair(a, id) {
      assert HeldBy(m.alloc, j, id) && HeldBy(m.alloc, k, id) && j != k;
      TwoPairs(w, m, id, j, k);
    } else {
      assert forall i: nat :: !HeldBy(m.alloc, i, id);
      NoPairLeft(w, m, id);
    }
  }

  lemma BootGetsPair(w: Wiring, n: Node, spec: WorkloadSpec, f: BootOutcome)
    requires Safe(n.alloc) && Identity(w, spec, f).Some? && PairOffset(n.alloc).Some? && PodId(spec) in n.pods
    ensures var m, id := Boot(w, n, spec, f).0, PodId(spec);
            id in m.pods && m.alloc in {AllocatePair(n.alloc, id), ReleasePair(AllocatePair(n.alloc, id), id)}
  {
    hide Safe, PairOffset, AllocatePair, ReleasePair;
  }

  lemma TwoPairs(w: Wiring, n: Node, id: string, j: nat, k: nat)
    requires id in n.pods && HeldBy(n.alloc, j, id) && HeldBy(n.alloc, k, id) && j != k
    ensures !Accounted(w, n)
  {
    hide Paired, VmsAccounted, Safe;
    if Accounted(w, n) { PodOffset(n, id); }
  }

  lemma NoPairLeft(w: Wiring, n: Node, id: string)
    requires id in n.pods && forall i: nat :: !HeldBy(n.alloc, i, id)
    ensures !Accounted(w, n)
  {
    hide Paired, VmsAccounted, Safe, Labelled;
    if Accounted(w, n) { PodHoldsPair(n, id); }
  }

  /** On any node, a failed boot leaves the identity map as it was exactly when it registered
      nothing or what it registered is put back. */
  lemma FailedBootIdentitiesIff(w: Wiring, n: Node, spec: WorkloadSpec, f: BootOutcome)
    requires Safe(n.alloc) && Boot(w, n, spec, f).1.BootFailed?
    ensures Boot(w, n, spec, f).0.identities == n.identities <==> IdentityBack(w, n, spec, f)
  {
    hide Safe, PairOffset, AllocatePair, ReleasePair, Identity, EntryBack, Unstarted;
    if Identity(w, spec, f).Some? && PairOffset(n.alloc).Some? {
      GrantedAddress(n.alloc);
      var wl := n.alloc.base + PairOffset(n.alloc).value + 1;
      EntryBackIff(n.identities, wl, Identity(w, spec, f).value, f.unregistered);
    }
  }

  /** A failed boot gives back what its pod id held before, too: ownership of /30s is as it was
      exactly when the id held none, or the boot did not get as far as a pair. */
  lemma FailedBootPairsIff(w: Wiring, n: Node, spec: WorkloadSpec, f: BootOutcome)
    requires Paired(n.alloc) && spec.podSpec.Some? && GwFree(PodId(spec)) && Boot(w, n, spec, f).1.BootFailed?
    ensures Boot(w, n, spec, f).0.alloc.held == n.alloc.held <==>
            HoldsNothing(n.alloc, PodId(spec)) || Identity(w, spec, f).None? || PairOffset(n.alloc).None?
  {
    hide Safe, Paired, PairOffset, AllocatePair, ReleasePair, Grantable, GwFree, HoldsNothing, Unstarted;
    var id := PodId(spec);
    PairedAllocate(n.alloc, id);
    var taken := AllocatePair(n.alloc, id);
    PairedRelease(taken, id);
    GivesAllBack(n.alloc, ReleasePair(taken, id), id);
    if HoldsNothing(n.alloc, id) {
      Nothing(n.alloc, id);
      TakeAndReturn(n.alloc, id);
    }
  }

  lemma Nothing(a: Alloc, id: string)
    requires HoldsNothing(a, id)
    ensures forall j: nat :: !HeldBy(a, j, id)
  {
  }

  lemma GivesAllBack(a: Alloc, b: Alloc, id: string)
    requires forall j: nat :: !HeldBy(b, j, id)
    ensures b.held == a.held ==> HoldsNothing(a, id)
  {
    if b.held == a.held {
      forall j: nat ensures !HeldBy(a, j, id) { assert !HeldBy(b, j, id); }
    }
  }

  /** Booting a pod and evicting it gives its /30 back exactly when a source-identity
      registry is wired: without one the source IP is never recorded, and an eviction that
      finds none recorded does not release the pair. */
  lemma EvictionReturnsPairIff(w: Wiring, n: Node, spec: WorkloadSpec, f: BootOutcome, e: EvictOutcome)
    requires Safe(n.alloc) && Paired(n.alloc) && Boot(w, n, spec, f).1.Booted? && ReleasesSucceed(e)
    requires spec.podSpec.Some? && GwFree(PodId(spec)) && PodId(spec) !in n.sourceIps
    requires forall j: nat :: !HeldBy(n.alloc, j, PodId(spec))
    ensures Evict(w, Boot(w, n, spec, f).0, PodId(spec), e).0.alloc.held == n.alloc.held <==> w.registry
  {
    hide Paired, Safe, RolledBack, Started;
    var id := PodId(spec);
    TakeAndReturn(n.alloc, id);
    var o := PairOffset(n.alloc).value;
    GrantedFresh(n.alloc);
    hide ReleasePair;
    var m := Boot(w, n, spec, f).0;
    assert m.alloc == AllocatePair(n.alloc, id) && id in m.pods && (id in m.sourceIps <==> w.registry);
    assert o in m.alloc.held && o !in n.alloc.held;
  }

  lemma GrantedFresh(a: Alloc)
    requires Safe(a) && PairOffset(a).Some?
    ensures PairOffset(a).value !in a.held
  {
    SafeStep(a, Pair(""));
    assert PairOffset(a).value in Granted(a, Pair(""));
  }

  /** A MicroVM boot that fails after arming closes the node's single gate too: an open gate
      stays open exactly when the boot did not get to arm, or the closing write failed. */
  lemma GateAfterFailedBootIff(w: Wiring, n: Node, spec: WorkloadSpec, f: BootOutcome)
    requires Safe(n.alloc) && n.gateOpen && Boot(w, n, spec, f).1.BootFailed?
    ensures Boot(w, n, spec, f).0.gateOpen <==>
            !(&& Identity(w, spec, f).Some? && PairOffset(n.alloc).Some? && (w.registry ==> f.registered)
              && Armed(w, spec.runtime, f) && f.gateClosed)
  {
    hide Safe, PairOffset, AllocatePair, ReleasePair;
  }

  /** A boot that succeeds leaves the gate as it was, or opens it for a MicroVM. */
  lemma GateAfterBoot(w: Wiring, n: Node, spec: WorkloadSpec, f: BootOutcome)
    requires Safe(n.alloc) && Boot(w, n, spec, f).1.Booted?
    ensures Boot(w, n, spec, f).0.gateOpen == (n.gateOpen || spec.runtime.CloudHypervisor?)
  {
    hide Safe, PairOffset, AllocatePair, ReleasePair;
  }

  /** Evicting one MicroVM closes the node's single gate, so the gate is open for the
      MicroVMs that remain exactly when none remains, stopping it failed, or the closing write
      failed. */
  lemma GateAfterEvictionIff(w: Wiring, n: Node, id: string, cid: u32, f: EvictOutcome)
    requires VmOf(n, cid, id) && cid in n.vms && w.guard && n.gateOpen
    ensures var m := Evict(w, n, id, f).0;
            (m.vms != {} ==> m.gateOpen) <==> n.vms == {cid} || !f.gateClosed || !f.stopped
  {
    hide ReleasePair;
    assert n.vms - {cid} == {} <==> n.vms == {cid};
  }
}
