/** Booting and evicting pods: the protocol over the node's resource stores
    (src/workloads/mod.rs, src/workloads/microvm.rs, src/ebpf/net_guard_adapter.rs).

    Every foreign call is a step whose outcome is an input, so a boot can fail at any stage
    and a release can fail too. */
module Workloads {
  import opened Base
  import opened Pods
  import opened IpAllocator

  datatype Mount = EmptyDir(name: string) | HostPath(name: string)

  datatype PodSpec = PodSpec(podId: Option<string>, tenantId: string)

  datatype WorkloadSpec = WorkloadSpec(
    workloadId: string,
    runtime: Runtime,
    role: string,
    podSpec: Option<PodSpec>)

  /** The guest addressing pushed to an attested MicroVM. */
  datatype Context = Context(guestIp: u32, gateway: u32)

  /** Which optional collaborators are attached, and the identity fingerprint of a
      (tenant, workload, role); `None` is a role that does not parse. */
  datatype Wiring = Wiring(
    registry: bool,
    guard: bool,
    attestation: bool,
    probes: bool,
    fingerprint: (string, string, string) -> Option<Bytes>)

  /** How the foreign calls of one boot turn out. */
  datatype BootOutcome = BootOutcome(
    mounts: Option<seq<Mount>>,
    registered: bool,
    netnsCreated: bool,
    netnsConfigured: bool,
    containerPid: Option<u32>,
    armed: bool,
    image: bool,
    measurement: Option<Bytes>,
    vmBooted: bool,
    unregistered: bool,
    gateClosed: bool)

  /** How the foreign calls of one eviction turn out. */
  datatype EvictOutcome = EvictOutcome(stopped: bool, unregistered: bool, gateClosed: bool, scratchRemoved: bool)

  /** The node's stores, at one moment. */
  datatype Node = Node(
    pods: map<string, Pod>,
    alloc: Alloc,
    sourceIps: map<string, u32>,
    identities: map<u32, Bytes>,
    nextCid: u32,
    vms: set<u32>,
    measurements: map<u32, Bytes>,
    contexts: map<u32, Context>,
    armed: set<string>,
    gateOpen: bool,
    runners: set<string>)

  // ---------------------------------------------------------------- interface names

  function Decimal(n: nat): (s: string)
    ensures s != [] && forall c | c in s :: '0' <= c <= '9'
  {
    if n < 10 then [('0' as int + n) as char] else Decimal(n / 10) + [('0' as int + n % 10) as char]
  }

  function Interface(cid: u32): string { "vmtap" + Decimal(cid) }

  /** The number that decimal digits stand for. */
  function Digits(s: string): int {
    if s == "" then 0 else 10 * Digits(s[..|s| - 1]) + (s[|s| - 1] as int - '0' as int)
  }

  /** An interface is named after its CID, in decimal without leading zeros. */
  lemma {:induction false} DecimalReads(n: nat)
    ensures Digits(Decimal(n)) == n && (Decimal(n)[0] == '0' <==> n == 0)
    ensures n < 0x1_0000_0000 ==> Interface(n) == "vmtap" + Decimal(n)
  {
    if n >= 10 {
      DecimalReads(n / 10);
      assert Decimal(n)[..|Decimal(n)| - 1] == Decimal(n / 10);
    } else {
      assert Decimal(n)[..0] == "";
    }
  }

  lemma {:induction false} DecimalInjective(m: nat, n: nat)
    requires Decimal(m) == Decimal(n)
    ensures m == n
  {
    var s, t := Decimal(m), Decimal(n);
    assert s[|s| - 1] == t[|t| - 1];
    if m >= 10 && n >= 10 {
      assert s[..|s| - 1] == Decimal(m / 10) && t[..|t| - 1] == Decimal(n / 10);
      DecimalInjective(m / 10, n / 10);
    }
  }

  lemma InterfaceInjective()
    ensures forall c: u32, d: u32 {:trigger Interface(c), Interface(d)} :: Interface(c) == Interface(d) ==> c == d
  {
    forall c: u32, d: u32 {:trigger Interface(c), Interface(d)} | Interface(c) == Interface(d) ensures c == d {
      assert Interface(c)[5..] == Decimal(c) && Interface(d)[5..] == Decimal(d);
      DecimalInjective(c, d);
    }
  }

  // ---------------------------------------------------------------- one boot, one eviction

  function PodId(spec: WorkloadSpec): string
    requires spec.podSpec.Some?
  {
    if spec.podSpec.value.podId.Some? then spec.podSpec.value.podId.value else spec.workloadId
  }

  function NextCid(cid: u32): u32 { (cid + 1) % 0x1_0000_0000 }

  predicate EmptyDirsOnly(mounts: seq<Mount>) { forall i | 0 <= i < |mounts| :: mounts[i].EmptyDir? }

  /** Did the runtime bring the workload up? */
  predicate RuntimeBoots(w: Wiring, runtime: Runtime, f: BootOutcome)
    requires f.mounts.Some?
  {
    match runtime
    case Containerd => f.netnsCreated && f.netnsConfigured && f.containerPid.Some?
    case CloudHypervisor =>
      EmptyDirsOnly(f.mounts.value) && w.guard && f.armed && f.image && f.measurement.Some? && f.vmBooted
  }

  /** A MicroVM boot got far enough to use up a CID, and further, to arm its interface. */
  predicate TookCid(runtime: Runtime, f: BootOutcome)
    requires f.mounts.Some?
  {
    runtime.CloudHypervisor? && EmptyDirsOnly(f.mounts.value)
  }

  predicate Armed(w: Wiring, runtime: Runtime, f: BootOutcome)
    requires f.mounts.Some?
  {
    TookCid(runtime, f) && w.guard && f.armed
  }

  /** The identity a spec boots under, once its mounts and role are accepted. */
  function Identity(w: Wiring, spec: WorkloadSpec, f: BootOutcome): Option<Bytes> {
    if spec.podSpec.None? || f.mounts.None? then None
    else w.fingerprint(spec.podSpec.value.tenantId, spec.workloadId, spec.role)
  }

  datatype BootResult = Booted(handle: u32) | BootFailed

  /** The record a successful boot leaves in the pod table. */
  function BootedPod(spec: WorkloadSpec, fingerprint: Bytes, handle: u32): Pod
    requires spec.podSpec.Some?
  {
    NewPod(PodId(spec), spec.workloadId, spec.podSpec.value.tenantId, spec.role, spec.runtime, fingerprint)
    .(state := Booting, pid := Some(handle), started := true)
  }

  /** A boot as one transaction: all stores gain the pod, or a failure is rolled back. */
  ghost function Boot(w: Wiring, n: Node, spec: WorkloadSpec, f: BootOutcome): (r: (Node, BootResult))
    requires Safe(n.alloc)
    ensures Safe(r.0.alloc)
  {
    match (Identity(w, spec, f), PairOffset(n.alloc))
    case (Some(fp), Some(o)) =>
      SafeStep(n.alloc, Pair(PodId(spec)));
      var taken := AllocatePair(n.alloc, PodId(spec));
      SafeStep(taken, ReturnPair(PodId(spec)));
      BootWith(w, n, spec, f, fp, n.alloc.base + o + 1, taken, ReleasePair(taken, PodId(spec)))
    case _ => (n, BootFailed)
  }

  /** The boot once a pair is granted: `taken` is the allocator with it, `returned` the
      allocator after handing it back, `wl` the workload address. */
  function BootWith(w: Wiring, n: Node, spec: WorkloadSpec, f: BootOutcome, fp: Bytes, wl: u32, taken: Alloc,
                    returned: Alloc)
    : (r: (Node, BootResult))
    requires spec.podSpec.Some? && f.mounts.Some? && wl > 0
    ensures r.0.alloc == taken || r.0.alloc == returned
  {
    if w.registry && !f.registered then (n.(alloc := returned), BootFailed)
    else
      var n' := n.(alloc := taken, identities := if w.registry then n.identities[wl := fp] else n.identities);
      if RuntimeBoots(w, spec.runtime, f) then Recorded(w, n', spec, f, fp, wl)
      else (RolledBack(w, n', wl, spec.runtime, f, returned), BootFailed)
  }

  function BootedHandle(n: Node, runtime: Runtime, f: BootOutcome): u32
    requires runtime.Containerd? ==> f.containerPid.Some?
  {
    if runtime.Containerd? then f.containerPid.value else n.nextCid
  }

  /** The MicroVM stores after a runtime boot that succeeded; containers leave them alone. */
  function Started(w: Wiring, n: Node, runtime: Runtime, f: BootOutcome, wl: u32): Node
    requires f.mounts.Some? && wl > 0 && RuntimeBoots(w, runtime, f)
  {
    if runtime.Containerd? then n
    else
      var cid := n.nextCid;
      n.(nextCid := NextCid(cid),
      vms := n.vms + {cid},
      measurements := if w.attestation then n.measurements[cid := f.measurement.value] else n.measurements,
      contexts := if w.attestation then n.contexts[cid := Context(wl, wl - 1)] else n.contexts,
      armed := n.armed + {Interface(cid)},
      gateOpen := true)
  }

  /** The MicroVM stores after a runtime boot that failed and cleaned up after itself. */
  function Unstarted(w: Wiring, n: Node, runtime: Runtime, f: BootOutcome): Node
    requires f.mounts.Some?
  {
    var cid, armed := n.nextCid, Armed(w, runtime, f);
    n.(nextCid := if TookCid(runtime, f) then NextCid(cid) else cid,
    measurements := if armed && w.attestation then n.measurements - {cid} else n.measurements,
    contexts := if armed && w.attestation then n.contexts - {cid} else n.contexts,
    armed := if armed then n.armed - {Interface(cid)} else n.armed,
    gateOpen := if armed then !f.gateClosed else n.gateOpen)
  }

  /** A successful boot, recorded in every store. */
  function Recorded(w: Wiring, n: Node, spec: WorkloadSpec, f: BootOutcome, fp: Bytes, wl: u32): (r: (Node, BootResult))
    requires spec.podSpec.Some? && f.mounts.Some? && wl > 0 && RuntimeBoots(w, spec.runtime, f)
    ensures r.0.alloc == n.alloc
  {
    var id, handle, m := PodId(spec), BootedHandle(n, spec.runtime, f), Started(w, n, spec.runtime, f, wl);
    (m.(pods := n.pods[id := BootedPod(spec, fp, handle)],
     sourceIps := if w.registry then n.sourceIps[id := wl] else n.sourceIps,
     runners := if w.probes then n.runners + {id} else n.runners), Booted(handle))
  }

  /** What a boot that fails in the runtime leaves behind. */
  function RolledBack(w: Wiring, n: Node, wl: u32, runtime: Runtime, f: BootOutcome, returned: Alloc): Node
    requires f.mounts.Some?
  {
    Unstarted(w, n, runtime, f)
    .(alloc := returned, identities := if w.registry && f.unregistered then n.identities - {wl} else n.identities)
  }

  datatype EvictResult = Evicted | EvictFailed

  /** The handle an eviction stops: a pod without one counts as handle 0. */
  function Handle(pod: Pod): u32 { if pod.pid.Some? then pod.pid.value else 0 }

  /** Stopping the runtime: a MicroVM whose adapter is unknown needs no stopping. */
  predicate StopOk(n: Node, pod: Pod, f: EvictOutcome) {
    f.stopped || (pod.runtime.CloudHypervisor? && Handle(pod) !in n.vms)
  }

  /** The first half of an eviction: the pod is marked, its probe runner goes, and the
      runtime is stopped. The adapter is forgotten even when stopping it fails. */
  function Halted(w: Wiring, n: Node, id: string, f: EvictOutcome): Node
    requires id in n.pods
  {
    var pod, handle := n.pods[id], Handle(n.pods[id]);
    var vm, stopped := pod.runtime.CloudHypervisor?, StopOk(n, pod, f);
    var disarmed := vm && handle in n.vms && stopped && w.guard;
    n.(pods := n.pods[id := BeginEviction(pod)],
    runners := if w.probes then n.runners - {id} else n.runners,
    vms := if vm then n.vms - {handle} else n.vms,
    armed := if disarmed then n.armed - {Interface(handle)} else n.armed,
    gateOpen := n.gateOpen && !(disarmed && f.gateClosed),
    measurements := if stopped && vm && w.attestation then n.measurements - {handle} else n.measurements,
    contexts := if stopped && vm && w.attestation then n.contexts - {handle} else n.contexts)
  }

  /** The second half: the address is given back if one is on record, and the pod leaves
      the table once its scratch is removed. */
  function Released(w: Wiring, n: Node, id: string, f: EvictOutcome): (Node, EvictResult) {
    var known := id in n.sourceIps;
    (n.(pods := if f.scratchRemoved then n.pods - {id} else n.pods,
     sourceIps := n.sourceIps - {id},
     identities := if known && w.registry && f.unregistered then n.identities - {n.sourceIps[id]} else n.identities,
     alloc := if known then ReleasePair(n.alloc, id) else n.alloc),
     if f.scratchRemoved then Evicted else EvictFailed)
  }

  function Evict(w: Wiring, n: Node, id: string, f: EvictOutcome): (Node, EvictResult) {
    if id !in n.pods then (n, EvictFailed)
    else if !StopOk(n, n.pods[id], f) then (Halted(w, n, id, f), EvictFailed)
    else Released(w, Halted(w, n, id, f), id, f)
  }

  // ---------------------------------------------------------------- store by store

  /** What a boot needs, call by call. */
  ghost predicate Succeeds(w: Wiring, n: Node, spec: WorkloadSpec, f: BootOutcome) {
    && spec.podSpec.Some? && f.mounts.Some?
    && w.fingerprint(spec.podSpec.value.tenantId, spec.workloadId, spec.role).Some?
    && PairOffset(n.alloc).Some? && (w.registry ==> f.registered)
    && match spec.runtime
       case Containerd => f.netnsCreated && f.netnsConfigured && f.containerPid.Some?
       case CloudHypervisor =>
         && (forall m | m in f.mounts.value :: m.EmptyDir?)
         && w.guard && f.armed && f.image && f.measurement.Some? && f.vmBooted
  }

  lemma BootSucceedsIff(w: Wiring, n: Node, spec: WorkloadSpec, f: BootOutcome)
    requires Safe(n.alloc)
    ensures Boot(w, n, spec, f).1.Booted? <==> Succeeds(w, n, spec, f)
  {
    hide Safe, PairOffset, AllocatePair, ReleasePair, Interface, BootedPod, Unstarted, Started;
    if f.mounts.Some? { DirsOnly(f.mounts.value); }
  }

  /** A boot uses up a CID, whether or not it succeeds, exactly when a MicroVM gets past its pair,
      its registration and its mounts. */
  lemma BootTakesCidIff(w: Wiring, n: Node, spec: WorkloadSpec, f: BootOutcome)
    requires Safe(n.alloc)
    ensures Boot(w, n, spec, f).0.nextCid ==
            if && spec.podSpec.Some? && f.mounts.Some?
               && w.fingerprint(spec.podSpec.value.tenantId, spec.workloadId, spec.role).Some?
               && PairOffset(n.alloc).Some? && (w.registry ==> f.registered)
               && spec.runtime.CloudHypervisor? && (forall m | m in f.mounts.value :: m.EmptyDir?)
              then (n.nextCid + 1) % 0x1_0000_0000
              else n.nextCid
  {
    hide Safe, PairOffset, AllocatePair, ReleasePair, BootWith, EmptyDirsOnly;
    if Identity(w, spec, f).Some? && PairOffset(n.alloc).Some? {
      DirsOnly(f.mounts.value);
      GrantedAddress(n.alloc);
      var wl, id := n.alloc.base + PairOffset(n.alloc).value + 1, PodId(spec);
      var taken := AllocatePair(n.alloc, id);
      BootWithCid(w, n, spec, f, Identity(w, spec, f).value, wl, taken, ReleasePair(taken, id));
    }
  }

  lemma BootWithCid(w: Wiring, n: Node, spec: WorkloadSpec, f: BootOutcome, fp: Bytes, wl: u32, taken: Alloc,
                    returned: Alloc)
    requires spec.podSpec.Some? && f.mounts.Some? && wl > 0
    ensures BootWith(w, n, spec, f, fp, wl, taken, returned).0.nextCid ==
            if (w.registry ==> f.registered) && spec.runtime.CloudHypervisor? && EmptyDirsOnly(f.mounts.value)
              then (n.nextCid + 1) % 0x1_0000_0000
              else n.nextCid
  {
    hide EmptyDirsOnly, Interface, BootedPod;
  }

  lemma DirsOnly(mounts: seq<Mount>)
    ensures EmptyDirsOnly(mounts) <==> forall m | m in mounts :: m.EmptyDir?
  {
  }

  /** Every store after a boot that succeeds. */
  lemma BootedStores(w: Wiring, n: Node, spec: WorkloadSpec, f: BootOutcome)
    requires Safe(n.alloc) && Boot(w, n, spec, f).1.Booted?
    ensures Succeeds(w, n, spec, f)
    ensures var (m, r) := Boot(w, n, spec, f);
            var id, vm, cid := PodId(spec), spec.runtime.CloudHypervisor?, n.nextCid;
            var wl := n.alloc.base + PairOffset(n.alloc).value + 1;
            var fp := w.fingerprint(spec.podSpec.value.tenantId, spec.workloadId, spec.role).value;
            && r.handle == (if vm then cid else f.containerPid.value)
            && m.alloc == AllocatePair(n.alloc, id)
            && id in m.pods && m.pods == n.pods[id := m.pods[id]]
            && m.sourceIps == (if w.registry then n.sourceIps[id := wl] else n.sourceIps)
            && m.identities == (if w.registry then n.identities[wl := fp] else n.identities)
            && m.vms == n.vms + (if vm then {cid} else {})
            && m.measurements == (if vm && w.attestation then n.measurements[cid := f.measurement.value]
                                  else n.measurements)
            && m.armed == n.armed + (if vm then {Interface(cid)} else {})
            && m.gateOpen == (n.gateOpen || vm)
            && m.runners == n.runners + (if w.probes then {id} else {})
  {
    BootSucceedsIff(w, n, spec, f);
    hide Safe, PairOffset, AllocatePair, ReleasePair, Interface, BootedPod;
    assert n.vms + {} == n.vms && n.armed + {} == n.armed && n.runners + {} == n.runners;
    GrantedAddress(n.alloc);
  }

  lemma BootedContext(w: Wiring, n: Node, spec: WorkloadSpec, f: BootOutcome)
    requires Safe(n.alloc) && Boot(w, n, spec, f).1.Booted?
    ensures PairOffset(n.alloc).Some?
    ensures var m, gw := Boot(w, n, spec, f).0, n.alloc.base + PairOffset(n.alloc).value;
            m.contexts == if spec.runtime.CloudHypervisor? && w.attestation
                            then n.contexts[n.nextCid := Context(gw + 1, gw)] else n.contexts
  {
    hide Safe, PairOffset, AllocatePair, ReleasePair, Interface, BootedPod;
    GrantedAddress(n.alloc);
  }

  /** Every store but the pod table after an eviction, however it ends. The probe runner and the
      MicroVM's adapter go first, so a stop that fails does not keep them; everything else then
      stays as it was. */
  lemma EvictedStores(w: Wiring, n: Node, id: string, f: EvictOutcome)
    requires id in n.pods
    ensures var (m, r) := Evict(w, n, id, f);
            var pod, vm := n.pods[id], n.pods[id].runtime.CloudHypervisor?;
            var cid := if pod.pid.Some? then pod.pid.value else 0;
            var adapter := vm && cid in n.vms;
            var stops := f.stopped || (vm && !adapter);
            var ip := stops && id in n.sourceIps;
            && (r == Evicted <==> stops && f.scratchRemoved)
            && m.runners == n.runners - (if w.probes then {id} else {})
            && m.vms == n.vms - (if vm then {cid} else {})
            && m.armed == n.armed - (if adapter && f.stopped && w.guard then {Interface(cid)} else {})
            && m.gateOpen == (n.gateOpen && !(adapter && f.stopped && w.guard && f.gateClosed))
            && m.measurements == n.measurements - (if vm && stops && w.attestation then {cid} else {})
            && m.contexts == n.contexts - (if vm && stops && w.attestation then {cid} else {})
            && m.sourceIps == n.sourceIps - (if stops then {id} else {})
            && m.identities == n.identities - (if ip && w.registry && f.unregistered then {n.sourceIps[id]} else {})
            && m.alloc == (if ip then ReleasePair(n.alloc, id) else n.alloc)
            && m.nextCid == n.nextCid
  {
    hide ReleasePair, Interface, Halted;
    HaltedStores(w, n, id, f);
    assert n.sourceIps - {} == n.sourceIps && n.identities - {} == n.identities;
  }

  lemma HaltedStores(w: Wiring, n: Node, id: string, f: EvictOutcome)
    requires id in n.pods
    ensures var m, pod, vm := Halted(w, n, id, f), n.pods[id], n.pods[id].runtime.CloudHypervisor?;
            var cid := if pod.pid.Some? then pod.pid.value else 0;
            var adapter := vm && cid in n.vms;
            var forgotten := vm && (f.stopped || !adapter) && w.attestation;
            && m.runners == n.runners - (if w.probes then {id} else {})
            && m.vms == n.vms - (if vm then {cid} else {})
            && m.armed == n.armed - (if adapter && f.stopped && w.guard then {Interface(cid)} else {})
            && m.gateOpen == (n.gateOpen && !(adapter && f.stopped && w.guard && f.gateClosed))
            && m.measurements == n.measurements - (if forgotten then {cid} else {})
            && m.contexts == n.contexts - (if forgotten then {cid} else {})
            && m.sourceIps == n.sourceIps && m.identities == n.identities && m.alloc == n.alloc
            && m.nextCid == n.nextCid
  {
    hide Interface, BeginEviction;
    assert n.runners - {} == n.runners && n.vms - {} == n.vms && n.armed - {} == n.armed;
    assert n.measurements - {} == n.measurements && n.contexts - {} == n.contexts;
  }

  // ---------------------------------------------------------------- accounting

  /** The workload ends handed out, by offset: the labels that are not gateway labels. */
  ghost function PodEnds(held: map<u32, string>): map<u32, string> {
    map o | o in held && GwFree(held[o]) :: held[o]
  }

  /** Addresses: each live pod is labelled on exactly one workload offset, that offset is
      its recorded source IP, and the IP resolves to the pod's own fingerprint; nothing
      else is labelled with a pod, recorded or registered. */
  ghost predicate Labelled(pods: map<string, Pod>, base: u32, ends: map<u32, string>, ips: map<string, u32>,
                           ids: map<u32, Bytes>) {
    && ips.Keys == pods.Keys
    && (forall id | id in pods :: Addressed(pods[id], base, ends, id, ips[id], ids))
    && (forall o | o in ends :: ends[o] in ips && ips[ends[o]] == base + o)
    && (forall ip | ip in ids :: ip - base in ends)
  }

  ghost predicate Addressed(pod: Pod, base: u32, ends: map<u32, string>, id: string, ip: u32, ids: map<u32, Bytes>) {
    && ip - base in ends && ends[ip - base] == id
    && ip in ids && ids[ip] == pod.fingerprint
  }

  ghost predicate AddressesAccounted(n: Node) {
    Safe(n.alloc) && Paired(n.alloc) && Labelled(n.pods, n.alloc.base, PodEnds(n.alloc.held), n.sourceIps, n.identities)
  }

  /** The CIDs of the MicroVM pods in the table. */
  ghost function VmCids(pods: map<string, Pod>): set<u32> {
    set id | id in pods && pods[id].runtime.CloudHypervisor? && pods[id].pid.Some? :: pods[id].pid.value
  }

  /** Every pod has its runtime handle, and no two MicroVM pods share a CID. */
  ghost predicate HandlesDistinct(pods: map<string, Pod>) {
    && (forall id | id in pods :: pods[id].pid.Some?)
    && (forall id, id' | id in pods && id' in pods && pods[id].runtime.CloudHypervisor?
                         && pods[id'].runtime.CloudHypervisor? && pods[id].pid == pods[id'].pid :: id == id')
  }

  ghost function Interfaces(cids: set<u32>): set<string> { set c | c in cids :: Interface(c) }

  /** The context recorded for a MicroVM pod's CID carries that pod's own addresses. */
  ghost predicate ContextsMatch(pods: map<string, Pod>, ips: map<string, u32>, contexts: map<u32, Context>) {
    forall id | id in pods && pods[id].runtime.CloudHypervisor? && pods[id].pid.Some? ::
      ContextMatches(id, pods[id].pid.value, ips, contexts)
  }

  ghost predicate ContextMatches(id: string, cid: u32, ips: map<string, u32>, contexts: map<u32, Context>) {
    id in ips && cid in contexts && contexts[cid].guestIp == ips[id] && contexts[cid].gateway + 1 == ips[id]
  }

  /** MicroVMs: the adapter handles, attestation records and armed interfaces are exactly
      those of the live MicroVM pods, each under its own CID, with its own addresses. */
  ghost predicate VmsAccounted(w: Wiring, n: Node) {
    && 3 <= n.nextCid
    && (!w.guard ==> n.vms == {})
    && HandlesDistinct(n.pods)
    && n.vms == VmCids(n.pods)
    && (forall c | c in n.vms :: 3 <= c < n.nextCid)
    && n.measurements.Keys == (if w.attestation then n.vms else {})
    && n.contexts.Keys == (if w.attestation then n.vms else {})
    && (w.attestation ==> ContextsMatch(n.pods, n.sourceIps, n.contexts))
    && n.armed == Interfaces(n.vms)
  }

  /** The fingerprint on record is the one of the pod's own tenant, workload and role. */
  ghost predicate OwnIdentity(w: Wiring, pod: Pod) {
    w.fingerprint(pod.tenantId, pod.workloadId, pod.role) == Some(pod.fingerprint)
  }

  /** All the stores agree on which pods are live. */
  ghost predicate Accounted(w: Wiring, n: Node) {
    && (forall id | id in n.pods :: n.pods[id].podId == id && Active(n.pods[id]) && OwnIdentity(w, n.pods[id]))
    && AddressesAccounted(n)
    && VmsAccounted(w, n)
    && n.runners == (if w.probes then n.pods.Keys else {})
  }

  /** A pod id that nobody uses holds no address. */
  lemma UnknownHoldsNothing(n: Node, id: string)
    requires AddressesAccounted(n) && id !in n.pods && GwFree(id)
    ensures forall j: nat :: !HeldBy(n.alloc, j, id)
  {
    var held := n.alloc.held;
    forall o | o in held ensures held[o] != id {
      assert GwFree(held[o]) ==> o in PodEnds(held) && PodEnds(held)[o] in n.sourceIps;
    }
  }

  /** Taking a pair and handing it back restores every other holding, and what could be
      granted before can be granted again. */
  lemma TakeAndReturn(a: Alloc, id: string)
    requires Paired(a) && GwFree(id) && forall j: nat :: !HeldBy(a, j, id)
    ensures var b := ReleasePair(AllocatePair(a, id), id);
            Paired(b) && b.held == a.held && Grantable(b) == Grantable(a) && b.base == a.base &&
              b.hostCount == a.hostCount
  {
    hide AllocatePair, PairOffset, ReleasePair, Paired, Grantable, GwFree;
    var t := AllocatePair(a, id);
    PairedAllocate(a, id);
    PairedRelease(t, id);
    ReleaseShape(t, id);
    if PairOffset(a).Some? {
      ReturnedHeld(a, id);
      var j := PairOffset(a).value / 4;
      assert j in Grantable(a) && j < t.hostCount / 4 by { GrantableBlock(a); AllocateShape(a, id); }
      assert (set k: nat | 0 <= k < t.hostCount / 4 && HeldBy(t, k, id)) == {j};
    } else {
      HeldOnlyInFull(a, id);
      assert (set k: nat | 0 <= k < a.hostCount / 4 && HeldBy(a, k, id)) == {};
    }
  }

  lemma GrantableBlock(a: Alloc)
    requires Paired(a) && PairOffset(a).Some?
    ensures PairOffset(a).value / 4 in Grantable(a) && PairOffset(a).value / 4 < a.hostCount / 4
  {
    PairOffsetFacts(a);
  }

  lemma ReturnedHeld(a: Alloc, id: string)
    requires Paired(a) && GwFree(id) && PairOffset(a).Some? && forall j: nat :: !HeldBy(a, j, id)
    ensures var t := AllocatePair(a, id);
            t.held - PairOf(t, id) == a.held && t.base == a.base && t.hostCount == a.hostCount
  {
    hide AllocatePair, PairOffset, Paired, Safe;
    var t, o := AllocatePair(a, id), PairOffset(a).value;
    AllocateShape(a, id);
    HeldOnlyInFull(a, id);
    assert Safe(a) by { PairedSafe(a); }
    GrantedAddress(a);
    assert PairOf(t, id) == {o, o + 1};
  }

  lemma PairedSafe(a: Alloc)
    requires Paired(a)
    ensures Safe(a)
  {
  }

  lemma HeldOnlyInFull(a: Alloc, id: string)
    requires Paired(a) && GwFree(id) && forall j: nat :: !HeldBy(a, j, id)
    ensures PairOf(a, id) == {}
  {
    GatewayLabels();
    forall o | o in a.held ensures o !in PairOf(a, id) {
      assert Whole(a, o / 4);
      assert !HeldBy(a, o / 4, id);
    }
  }

  // ---------------------------------------------------------------- boots

  lemma LabelsGain(pods: map<string, Pod>, base: u32, ends: map<u32, string>, ips: map<string, u32>,
                   ids: map<u32, Bytes>, id: string, pod: Pod, o: u32, wl: u32)
    requires Labelled(pods, base, ends, ips, ids) && id !in pods
    requires o !in ends && wl == base + o
    ensures wl !in ids
    ensures Labelled(pods[id := pod], base, ends[o := id], ips[id := wl], ids[wl := pod.fingerprint])
  {
    assert wl !in ids;
    var pods', ends', ips', ids' := pods[id := pod], ends[o := id], ips[id := wl], ids[wl := pod.fingerprint];
    forall k | k in pods' ensures Addressed(pods'[k], base, ends', k, ips'[k], ids') {
      if k != id { assert Addressed(pods[k], base, ends, k, ips[k], ids); }
    }
    forall x | x in ends' ensures ends'[x] in ips' && ips'[ends'[x]] == base + x {
      if x != o { assert ends[x] in ips && ips[ends[x]] == base + x; }
    }
  }

  lemma LabelsLose(pods: map<string, Pod>, base: u32, ends: map<u32, string>, ips: map<string, u32>,
                   ids: map<u32, Bytes>, id: string, o: u32)
    requires Labelled(pods, base, ends, ips, ids) && id in pods && ips[id] == base + o
    ensures Labelled(pods - {id}, base, ends - {o}, ips - {id}, ids - {ips[id]})
  {
    assert Addressed(pods[id], base, ends, id, ips[id], ids);
    forall k | k in pods && k != id
      ensures Addressed(pods[k], base, ends - {o}, k, ips[k], ids - {ips[id]})
    {
      assert Addressed(pods[k], base, ends, k, ips[k], ids);
    }
  }

  lemma PodEndsGain(held: map<u32, string>, id: string, o: u32)
    requires GwFree(id) && o !in held && o + 1 !in held && o + 1 < 0x1_0000_0000
    ensures PodEnds(held[o := Gateway(id)][o + 1 := id]) == PodEnds(held)[o + 1 := id] && o + 1 !in PodEnds(held)
  {
    GatewayLabels();
  }

  lemma PodEndsLose(held: map<u32, string>, id: string, gone: set<u32>, o: u32)
    requires GwFree(id) && gone == set x | x in held && (held[x] == id || held[x] == Gateway(id))
    requires forall x | x in held :: held[x] == id <==> x == o
    ensures PodEnds(held - gone) == PodEnds(held) - {o}
  {
    GatewayLabels();
  }

  /** Nothing is left of a failed boot but a used-up CID and, perhaps, an opened free block
      and a closed gate: every store holds what it held. */
  ghost predicate Restored(n: Node, m: Node) {
    && m == n.(alloc := m.alloc, nextCid := m.nextCid, gateOpen := m.gateOpen)
    && m.alloc.base == n.alloc.base && m.alloc.held == n.alloc.held
  }

  /** The CID about to be used is in no store. */
  ghost predicate CidUnused(n: Node) {
    n.nextCid !in n.measurements && n.nextCid !in n.contexts && Interface(n.nextCid) !in n.armed
  }

  lemma FreshCid(w: Wiring, n: Node)
    requires VmsAccounted(w, n)
    ensures n.nextCid !in n.vms && CidUnused(n)
  {
    InterfaceInjective();
  }

  /** The identity entry at `wl` is as it was once a boot that registered `fp` there has failed:
      it is taken back from where there was none, or left where it was the same already. */
  ghost predicate EntryBack(ids: map<u32, Bytes>, wl: u32, fp: Bytes, unregistered: bool) {
    if unregistered then wl !in ids else wl in ids && ids[wl] == fp
  }

  lemma EntryBackIff(ids: map<u32, Bytes>, wl: u32, fp: Bytes, unregistered: bool)
    ensures (if unregistered then ids[wl := fp] - {wl} else ids[wl := fp]) == ids <==>
            EntryBack(ids, wl, fp, unregistered)
  {
    if unregistered {
      assert ids[wl := fp] - {wl} == ids - {wl};
      assert wl !in ids ==> ids - {wl} == ids;
    } else if wl in ids && ids[wl] == fp {
      assert ids[wl := fp] == ids;
    }
  }

  lemma RollbackRestores(w: Wiring, n: Node, spec: WorkloadSpec, f: BootOutcome, fp: Bytes, wl: u32, taken: Alloc,
                         returned: Alloc)
    requires spec.podSpec.Some? && f.mounts.Some? && wl > 0 && CidUnused(n)
    requires returned.base == n.alloc.base && returned.held == n.alloc.held
    requires BootWith(w, n, spec, f, fp, wl, taken, returned).1.BootFailed?
    ensures var m := BootWith(w, n, spec, f, fp, wl, taken, returned).0;
            && Restored(n, m.(identities := n.identities)) && m.alloc == returned
            && m.nextCid in {n.nextCid, NextCid(n.nextCid)}
            && (m.identities == n.identities <==>
                  (w.registry && f.registered ==> EntryBack(n.identities, wl, fp, f.unregistered)))
  {
    hide EntryBack;
    EntryBackIff(n.identities, wl, fp, f.unregistered);
    assert n.measurements - {n.nextCid} == n.measurements;
    assert n.contexts - {n.nextCid} == n.contexts;
    assert n.armed - {Interface(n.nextCid)} == n.armed;
  }

  lemma GrantedIsUnregistered(n: Node)
    requires AddressesAccounted(n) && PairOffset(n.alloc).Some?
    ensures PairOffset(n.alloc).value !in n.alloc.held && PairOffset(n.alloc).value + 1 !in n.alloc.held
    ensures n.alloc.base + PairOffset(n.alloc).value + 1 < DUMMY_BASE
    ensures n.alloc.base + PairOffset(n.alloc).value + 1 !in n.identities
  {
    GrantedAddress(n.alloc);
  }

  /** Whether a boot that fails leaves the identity map as it was: it registered nothing, or
      what it registered is put back. */
  ghost predicate IdentityBack(w: Wiring, n: Node, spec: WorkloadSpec, f: BootOutcome)
    requires Safe(n.alloc)
  {
    if !w.registry || !f.registered || Identity(w, spec, f).None? || PairOffset(n.alloc).None? then true
    else
      GrantedAddress(n.alloc);
      EntryBack(n.identities, n.alloc.base + PairOffset(n.alloc).value + 1, Identity(w, spec, f).value, f.unregistered)
  }

  ghost predicate HoldsNothing(a: Alloc, id: string) { forall j: nat :: !HeldBy(a, j, id) }

  /** On any node, with or without a registry and whatever failed before: a boot that fails, at
      whatever stage, for a pod id that holds nothing restores every store but the identity
      map and leaves the same /30s to be granted, and it restores the identity map exactly
      when what it registered is put back. */
  lemma FailedBootRestores(w: Wiring, n: Node, spec: WorkloadSpec, f: BootOutcome)
    requires Paired(n.alloc) && CidUnused(n) && Boot(w, n, spec, f).1.BootFailed?
    requires spec.podSpec.Some? ==> GwFree(PodId(spec)) && HoldsNothing(n.alloc, PodId(spec))
    ensures var m := Boot(w, n, spec, f).0;
            && Restored(n, m.(identities := n.identities))
            && Paired(m.alloc) && Grantable(m.alloc) == Grantable(n.alloc)
            && m.nextCid in {n.nextCid, NextCid(n.nextCid)}
            && (Restored(n, m) <==> IdentityBack(w, n, spec, f))
  {
    hide BootWith, AllocatePair, ReleasePair, EntryBack, CidUnused;
    if Identity(w, spec, f).Some? && PairOffset(n.alloc).Some? {
      var id, fp, o := PodId(spec), Identity(w, spec, f).value, PairOffset(n.alloc).value;
      GrantedAddress(n.alloc);
      TakeAndReturn(n.alloc, id);
      var taken := AllocatePair(n.alloc, id);
      RollbackRestores(w, n, spec, f, fp, n.alloc.base + o + 1, taken, ReleasePair(taken, id));
    }
  }

  lemma GrantedAddress(a: Alloc)
    requires Safe(a) && PairOffset(a).Some?
    ensures PairOffset(a).value !in a.held && PairOffset(a).value + 1 !in a.held
    ensures a.base + PairOffset(a).value + 1 < DUMMY_BASE
  {
    SafeStep(a, Pair(""));
    assert forall o | o in Granted(a, Pair("")) :: o !in a.held;
  }

  /** On a node whose accounts are exact that is all of it, given that the unregistering call
      of the roll-back succeeds. */
  lemma FailedBootAccounted(w: Wiring, n: Node, spec: WorkloadSpec, f: BootOutcome)
    requires AddressesAccounted(n) && VmsAccounted(w, n)
    requires spec.podSpec.Some? ==> PodId(spec) !in n.pods && GwFree(PodId(spec))
    requires Boot(w, n, spec, f).1.BootFailed? && f.unregistered
    ensures var m := Boot(w, n, spec, f).0;
            && Restored(n, m) && Paired(m.alloc) && Grantable(m.alloc) == Grantable(n.alloc)
            && m.nextCid in {n.nextCid, NextCid(n.nextCid)}
  {
    hide Boot, VmsAccounted, Labelled, Paired, Safe, PairOffset;
    FreshCid(w, n);
    if spec.podSpec.Some? { UnknownHoldsNothing(n, PodId(spec)); }
    if PairOffset(n.alloc).Some? { GrantedIsUnregistered(n); }
    FailedBootRestores(w, n, spec, f);
  }

  lemma RestoredAccounted(w: Wiring, n: Node, m: Node)
    requires Accounted(w, n) && Restored(n, m) && Paired(m.alloc) && n.nextCid <= m.nextCid
    ensures Accounted(w, m)
  {
  }

  lemma VmCidsGain(pods: map<string, Pod>, id: string, pod: Pod)
    requires id !in pods && pod.pid.Some?
    ensures VmCids(pods[id := pod]) == VmCids(pods) + (if pod.runtime.CloudHypervisor? then {pod.pid.value} else {})
  {
    var more := pods[id := pod];
    assert id in more && more[id] == pod;
    forall k | k in pods && pods[k].runtime.CloudHypervisor? &&
      pods[k].pid.Some? ensures pods[k].pid.value in VmCids(more) {
      assert k in more && more[k] == pods[k];
    }
  }

  lemma VmCidsLose(pods: map<string, Pod>, id: string)
    requires id in pods && HandlesDistinct(pods)
    ensures VmCids(pods - {id}) == VmCids(pods) - (if pods[id].runtime.CloudHypervisor? then {pods[id].pid.value}
              else {})
  {
    var less := pods - {id};
    forall k | k in pods && k != id && pods[k].runtime.CloudHypervisor? ensures pods[k].pid.value in VmCids(less) {
      assert k in less && less[k] == pods[k];
    }
  }

  lemma InterfacesChange(cids: set<u32>, cid: u32)
    ensures Interfaces(cids + {cid}) == Interfaces(cids) + {Interface(cid)}
    ensures Interfaces(cids - {cid}) == Interfaces(cids) - {Interface(cid)}
  {
    InterfaceInjective();
    forall c | c in cids ensures c != cid ==> Interface(c) in Interfaces(cids - {cid}) {
      assert c in cids - {cid} <==> c != cid;
    }
  }

  lemma VmStoresGain(w: Wiring, n: Node, m: Node, id: string, pod: Pod, wl: u32, measurement: Bytes)
    requires VmsAccounted(w, n) && w.guard && id !in n.pods && n.sourceIps.Keys == n.pods.Keys && wl > 0
    requires m.pods == n.pods[id := pod] && pod.pid == Some(n.nextCid) && pod.runtime.CloudHypervisor?
    requires m.sourceIps == n.sourceIps[id := wl] && m.nextCid == n.nextCid + 1
    requires m.vms == n.vms + {n.nextCid} && m.armed == n.armed + {Interface(n.nextCid)}
    requires m.measurements == if w.attestation then n.measurements[n.nextCid := measurement] else n.measurements
    requires m.contexts == if w.attestation then n.contexts[n.nextCid := Context(wl, wl - 1)] else n.contexts
    ensures VmsAccounted(w, m)
  {
    hide VmCids, Interfaces, ContextsMatch, HandlesDistinct;
    VmCidsGain(n.pods, id, pod);
    InterfacesChange(n.vms, n.nextCid);
    if w.attestation { ContextsGain(n, m, id, wl); }
    assert HandlesDistinct(m.pods) by { HandlesGain(n.pods, id, pod); }
  }

  lemma HandlesGain(pods: map<string, Pod>, id: string, pod: Pod)
    requires HandlesDistinct(pods) && id !in pods && pod.pid.Some?
    requires pod.runtime.CloudHypervisor? ==> pod.pid.value !in VmCids(pods)
    ensures HandlesDistinct(pods[id := pod])
  {
    assert forall k | k in pods && pods[k].runtime.CloudHypervisor? :: pods[k].pid.value in VmCids(pods);
  }

  lemma ContextsGain(n: Node, m: Node, id: string, wl: u32)
    requires ContextsMatch(n.pods, n.sourceIps, n.contexts) && id !in n.pods && wl > 0
    requires id in m.pods && m.pods == n.pods[id := m.pods[id]] && m.pods[id].pid == Some(n.nextCid) &&
              n.nextCid !in n.contexts
    requires m.sourceIps == n.sourceIps[id := wl] && m.contexts == n.contexts[n.nextCid := Context(wl, wl - 1)]
    ensures ContextsMatch(m.pods, m.sourceIps, m.contexts)
  {
    forall k | k in n.pods && n.pods[k].runtime.CloudHypervisor? && n.pods[k].pid.Some?
      ensures ContextMatches(k, n.pods[k].pid.value, m.sourceIps, m.contexts)
    {
      assert ContextMatches(k, n.pods[k].pid.value, n.sourceIps, n.contexts);
    }
  }

  lemma AddressesGain(n: Node, id: string, pod: Pod, taken: Alloc, wl: u32)
    requires AddressesAccounted(n) && id !in n.pods && GwFree(id) && PairOffset(n.alloc).Some?
    requires taken == AllocatePair(n.alloc, id) && wl == n.alloc.base + PairOffset(n.alloc).value + 1
    ensures Paired(taken)
    ensures Labelled(n.pods[id := pod], taken.base, PodEnds(taken.held), n.sourceIps[id := wl],
              n.identities[wl := pod.fingerprint])
  {
    hide Labelled, PodEnds;
    var o := PairOffset(n.alloc).value;
    PairedAllocate(n.alloc, id);
    GrantedIsUnregistered(n);
    PodEndsGain(n.alloc.held, id, o);
    assert taken.base == n.alloc.base && taken.held == n.alloc.held[o := Gateway(id)][o + 1 := id];
    LabelsGain(n.pods, n.alloc.base, PodEnds(n.alloc.held), n.sourceIps, n.identities, id, pod, o + 1, wl);
  }

  lemma AddressedExactly(n: Node)
    requires AddressesAccounted(n)
    ensures n.sourceIps.Keys == n.pods.Keys
  {
  }

  /** A container pod comes without touching the MicroVM stores. */
  lemma VmStoresKept(w: Wiring, n: Node, m: Node, id: string, pod: Pod)
    requires VmsAccounted(w, n) && id !in n.pods && pod.pid.Some? && pod.runtime.Containerd?
    requires m.pods == n.pods[id := pod] &&
              (forall k | k in n.sourceIps && k != id :: k in m.sourceIps && m.sourceIps[k] == n.sourceIps[k])
    requires m.nextCid == n.nextCid && m.vms == n.vms && m.armed == n.armed
    requires m.measurements == n.measurements && m.contexts == n.contexts
    ensures VmsAccounted(w, m)
  {
    VmCidsGain(n.pods, id, pod);
    HandlesGain(n.pods, id, pod);
    forall k | w.attestation && k in n.pods && n.pods[k].runtime.CloudHypervisor? && n.pods[k].pid.Some?
      ensures ContextMatches(k, n.pods[k].pid.value, m.sourceIps, m.contexts)
    {
      assert ContextMatches(k, n.pods[k].pid.value, n.sourceIps, n.contexts);
    }
  }

  /** A successful boot records the pod, its pair, its source IP and its identity. */
  lemma BootedShape(w: Wiring, n: Node, spec: WorkloadSpec, f: BootOutcome, fp: Bytes, wl: u32, taken: Alloc,
                    returned: Alloc)
    requires spec.podSpec.Some? && f.mounts.Some? && wl > 0 && w.registry
    requires BootWith(w, n, spec, f, fp, wl, taken, returned).1.Booted?
    ensures var (m, r) := BootWith(w, n, spec, f, fp, wl, taken, returned);
            var id := PodId(spec);
            && m.alloc == taken && m.pods == n.pods[id := BootedPod(spec, fp, r.handle)]
            && m.sourceIps == n.sourceIps[id := wl] && m.identities == n.identities[wl := fp]
            && m.runners == (if w.probes then n.runners + {id} else n.runners)
            && m.nextCid in {n.nextCid, NextCid(n.nextCid)}
  {
  }

  lemma BootedVms(w: Wiring, n: Node, spec: WorkloadSpec, f: BootOutcome, fp: Bytes, wl: u32, taken: Alloc,
                  returned: Alloc)
    requires VmsAccounted(w, n) && w.registry && n.nextCid + 1 < 0x1_0000_0000 && wl > 0
    requires spec.podSpec.Some? && f.mounts.Some? && PodId(spec) !in n.pods && n.sourceIps.Keys == n.pods.Keys
    requires BootWith(w, n, spec, f, fp, wl, taken, returned).1.Booted?
    ensures VmsAccounted(w, BootWith(w, n, spec, f, fp, wl, taken, returned).0)
  {
    hide VmsAccounted;
    var (m, r) := BootWith(w, n, spec, f, fp, wl, taken, returned);
    var id, pod := PodId(spec), BootedPod(spec, fp, r.handle);
    if spec.runtime.CloudHypervisor? {
      VmStoresGain(w, n, m, id, pod, wl, f.measurement.value);
    } else {
      VmStoresKept(w, n, m, id, pod);
    }
  }

  lemma BootUnfolds(w: Wiring, n: Node, spec: WorkloadSpec, f: BootOutcome)
    requires AddressesAccounted(n) && Boot(w, n, spec, f).1.Booted?
    ensures var id := PodId(spec);
            && Identity(w, spec, f).Some? && PairOffset(n.alloc).Some?
            && n.alloc.base + PairOffset(n.alloc).value + 1 < DUMMY_BASE
            && Boot(w, n, spec, f) ==
                 BootWith(w, n, spec, f, Identity(w, spec, f).value, n.alloc.base + PairOffset(n.alloc).value + 1,
                          AllocatePair(n.alloc, id), ReleasePair(AllocatePair(n.alloc, id), id))
  {
    hide BootWith, AllocatePair, ReleasePair, Labelled, Paired, Safe;
    if PairOffset(n.alloc).Some? { GrantedIsUnregistered(n); }
  }

  /** The stores after a successful boot, in terms of the pair it was granted. */
  lemma BootedParts(w: Wiring, n: Node, spec: WorkloadSpec, f: BootOutcome, id: string, wl: u32)
    requires AddressesAccounted(n) && VmsAccounted(w, n) && w.registry && n.nextCid + 1 < 0x1_0000_0000
    requires Boot(w, n, spec, f).1.Booted? && spec.podSpec.Some? && id == PodId(spec) && id !in n.pods
    requires PairOffset(n.alloc).Some? && wl == n.alloc.base + PairOffset(n.alloc).value + 1
    ensures var (m, r) := Boot(w, n, spec, f);
            && Identity(w, spec, f).Some? && m.alloc == AllocatePair(n.alloc, id)
            && m.pods == n.pods[id := BootedPod(spec, Identity(w, spec, f).value, r.handle)]
            && m.sourceIps == n.sourceIps[id := wl] && m.identities == n.identities[wl := Identity(w, spec, f).value]
            && m.runners == (if w.probes then n.runners + {id} else n.runners)
            && VmsAccounted(w, m) && m.nextCid in {n.nextCid, n.nextCid + 1}
  {
    hide Boot, BootWith, AllocatePair, ReleasePair, VmsAccounted, Labelled, Paired, PairOffset, Safe;
    BootUnfolds(w, n, spec, f);
    var fp, taken := Identity(w, spec, f).value, AllocatePair(n.alloc, id);
    var returned := ReleasePair(taken, id);
    AddressedExactly(n);
    BootedShape(w, n, spec, f, fp, wl, taken, returned);
    BootedVms(w, n, spec, f, fp, wl, taken, returned);
  }

  lemma BootedPodFacts(w: Wiring, spec: WorkloadSpec, f: BootOutcome, handle: u32)
    requires Identity(w, spec, f).Some?
    ensures spec.podSpec.Some?
    ensures var pod := BootedPod(spec, Identity(w, spec, f).value, handle);
            && pod.podId == PodId(spec) && Active(pod) && Some(pod.fingerprint) == Identity(w, spec, f)
            && OwnIdentity(w, pod)
  {
  }

  lemma BootedAccounted(w: Wiring, n: Node, spec: WorkloadSpec, f: BootOutcome)
    requires Accounted(w, n) && w.registry && n.nextCid + 1 < 0x1_0000_0000
    requires Boot(w, n, spec, f).1.Booted? && PodId(spec) !in n.pods && GwFree(PodId(spec))
    ensures var (m, r) := Boot(w, n, spec, f);
            && Accounted(w, m) && Identity(w, spec, f).Some?
            && m.pods == n.pods[PodId(spec) := BootedPod(spec, Identity(w, spec, f).value, r.handle)]
            && m.nextCid in {n.nextCid, n.nextCid + 1}
  {
    hide Boot, AllocatePair, VmsAccounted, Labelled, Paired, PairOffset, Safe, PodEnds, BootedPod, Identity, GwFree;
    var (m, r) := Boot(w, n, spec, f);
    BootUnfolds(w, n, spec, f);
    BootedPodFacts(w, spec, f, r.handle);
    var id := PodId(spec);
    var fp, wl := Identity(w, spec, f).value, n.alloc.base + PairOffset(n.alloc).value + 1;
    BootedParts(w, n, spec, f, id, wl);
    AddressesGain(n, id, BootedPod(spec, fp, r.handle), AllocatePair(n.alloc, id), wl);
  }

  /** Every boot of an unused, ":gw"-free pod id keeps the accounts, however it ends. */
  lemma BootAccounted(w: Wiring, n: Node, spec: WorkloadSpec, f: BootOutcome)
    requires Accounted(w, n) && w.registry && f.unregistered && n.nextCid + 1 < 0x1_0000_0000
    requires spec.podSpec.Some? ==> PodId(spec) !in n.pods && GwFree(PodId(spec))
    ensures var (m, r) := Boot(w, n, spec, f);
            && Accounted(w, m)
            && n.nextCid <= m.nextCid <= n.nextCid + 1
            && (r.BootFailed? ==> Restored(n, m) && Grantable(m.alloc) == Grantable(n.alloc))
            && (r.Booted? ==>
                  && Identity(w, spec, f).Some?
                  && m.pods == n.pods[PodId(spec) := BootedPod(spec, Identity(w, spec, f).value, r.handle)]
                  && m.sourceIps - {PodId(spec)} == n.sourceIps - {PodId(spec)})
  {
    hide Boot, VmsAccounted, Labelled, Paired, Safe, Identity, BootedPod;
    var (m, r) := Boot(w, n, spec, f);
    if r.BootFailed? {
      FailedBootAccounted(w, n, spec, f);
      RestoredAccounted(w, n, m);
    } else {
      BootUnfolds(w, n, spec, f);
      BootedPodFacts(w, spec, f, r.handle);
      BootedAccounted(w, n, spec, f);
    }
  }

  // ---------------------------------------------------------------- evictions

  predicate ReleasesSucceed(f: EvictOutcome) { f.stopped && f.unregistered && f.scratchRemoved }

  lemma EvictShape(w: Wiring, n: Node, id: string, f: EvictOutcome)
    requires id in n.pods && n.pods[id].pid.Some? && id in n.sourceIps && w.registry && ReleasesSucceed(f)
    requires n.pods[id].runtime.CloudHypervisor? ==> w.guard && n.pods[id].pid.value in n.vms
    ensures var (m, r) := Evict(w, n, id, f);
            var cid := n.pods[id].pid.value;
            && r == Evicted
            && m.pods == n.pods - {id} && m.sourceIps == n.sourceIps - {id}
            && m.identities == n.identities - {n.sourceIps[id]} && m.alloc == ReleasePair(n.alloc, id)
            && m.runners == (if w.probes then n.runners - {id} else n.runners) && m.nextCid == n.nextCid
            && (n.pods[id].runtime.Containerd? ==>
                  m.vms == n.vms && m.armed == n.armed && m.measurements == n.measurements && m.contexts == n.contexts)
            && (n.pods[id].runtime.CloudHypervisor? ==>
                  && m.vms == n.vms - {cid} && m.armed == n.armed - {Interface(cid)}
                  && m.measurements == (if w.attestation then n.measurements - {cid} else n.measurements)
                  && m.contexts == (if w.attestation then n.contexts - {cid} else n.contexts))
  {
    EvictedPods(w, n, id, f);
  }

  lemma ContextsLose(n: Node, m: Node, id: string, gone: set<u32>)
    requires ContextsMatch(n.pods, n.sourceIps, n.contexts) && HandlesDistinct(n.pods) && id in n.pods
    requires m.pods == n.pods - {id} && m.sourceIps == n.sourceIps - {id} && m.contexts == n.contexts - gone
    requires gone == if n.pods[id].runtime.CloudHypervisor? then {n.pods[id].pid.value} else {}
    ensures ContextsMatch(m.pods, m.sourceIps, m.contexts)
  {
    forall k | k in m.pods && m.pods[k].runtime.CloudHypervisor? && m.pods[k].pid.Some?
      ensures ContextMatches(k, m.pods[k].pid.value, m.sourceIps, m.contexts)
    {
      assert ContextMatches(k, n.pods[k].pid.value, n.sourceIps, n.contexts);
    }
  }

  lemma InterfacesLose(w: Wiring, n: Node, id: string, gone: set<u32>)
    requires VmsAccounted(w, n) && id in n.pods
    requires gone == if n.pods[id].runtime.CloudHypervisor? then {n.pods[id].pid.value} else {}
    ensures Interfaces(n.vms - gone) == n.armed - Interfaces(gone)
  {
    if gone != {} {
      var cid := n.pods[id].pid.value;
      InterfacesChange(n.vms, cid);
      assert Interfaces(gone) == {Interface(cid)};
    } else {
      assert Interfaces(gone) == {} && n.vms - gone == n.vms;
    }
  }

  lemma VmStoresLose(w: Wiring, n: Node, m: Node, id: string, gone: set<u32>)
    requires VmsAccounted(w, n) && id in n.pods
    requires m.pods == n.pods - {id} && m.sourceIps == n.sourceIps - {id} && m.nextCid == n.nextCid
    requires gone == if n.pods[id].runtime.CloudHypervisor? then {n.pods[id].pid.value} else {}
    requires m.vms == n.vms - gone && m.armed == n.armed - Interfaces(gone)
    requires m.measurements == (if w.attestation then n.measurements - gone else n.measurements)
    requires m.contexts == (if w.attestation then n.contexts - gone else n.contexts)
    ensures VmsAccounted(w, m)
  {
    VmCidsLose(n.pods, id);
    InterfacesLose(w, n, id, gone);
    hide VmCids, ContextsMatch, Interfaces;
    if w.attestation { ContextsLose(n, m, id, gone); }
  }

  lemma AddressesLose(n: Node, id: string, a: Alloc)
    requires AddressesAccounted(n) && id in n.pods && a == ReleasePair(n.alloc, id)
    ensures Paired(a)
    ensures Labelled(n.pods - {id}, a.base, PodEnds(a.held), n.sourceIps - {id}, n.identities - {n.sourceIps[id]})
  {
    hide Labelled, PodEnds, Paired, ReleasePair;
    PodOffset(n, id);
    var held, o := n.alloc.held, n.sourceIps[id] - n.alloc.base;
    PairedRelease(n.alloc, id);
    PodEndsLose(held, id, PairOf(n.alloc, id), o);
    assert a.held == held - PairOf(n.alloc, id) && a.base == n.alloc.base by { ReleaseShape(n.alloc, id); }
    LabelsLose(n.pods, n.alloc.base, PodEnds(held), n.sourceIps, n.identities, id, o);
  }

  lemma ReleaseShape(a: Alloc, id: string)
    ensures ReleasePair(a, id).held == a.held - PairOf(a, id) && ReleasePair(a, id).base == a.base
    ensures ReleasePair(a, id).hostCount == a.hostCount
  {
  }

  lemma PodOffset(n: Node, id: string)
    requires AddressesAccounted(n) && id in n.pods
    ensures GwFree(id) && id in n.sourceIps && 0 <= n.sourceIps[id] - n.alloc.base
    ensures forall x | x in n.alloc.held :: n.alloc.held[x] == id <==> x == n.sourceIps[id] - n.alloc.base
  {
    var ends := PodEnds(n.alloc.held);
    assert Addressed(n.pods[id], n.alloc.base, ends, id, n.sourceIps[id], n.identities);
    forall x | x in n.alloc.held && n.alloc.held[x] == id ensures x == n.sourceIps[id] - n.alloc.base {
      assert x in ends;
    }
  }

  /** What an eviction does to the pod table. */
  lemma EvictedPods(w: Wiring, n: Node, id: string, f: EvictOutcome)
    requires id in n.pods
    ensures Evict(w, n, id, f).0.pods ==
            if StopOk(n, n.pods[id], f) && f.scratchRemoved then n.pods - {id}
              else n.pods[id := BeginEviction(n.pods[id])]
  {
    assert n.pods[id := BeginEviction(n.pods[id])] - {id} == n.pods - {id};
  }

  /** An eviction whose releases succeed takes the pod out of every store, and only it: every
      other pod keeps its record and its address. */
  lemma EvictAccounted(w: Wiring, n: Node, id: string, f: EvictOutcome)
    requires Accounted(w, n) && w.registry && ReleasesSucceed(f)
    ensures Accounted(w, Evict(w, n, id, f).0)
    ensures Evict(w, n, id, f).0.pods == n.pods - {id} && Evict(w, n, id, f).0.nextCid == n.nextCid
    ensures Evict(w, n, id, f).0.sourceIps == n.sourceIps - {id}
    ensures Evict(w, n, id, f).1 == if id in n.pods then Evicted else EvictFailed
  {
    hide Accounted;
    if id in n.pods {
      EvictedAccounted(w, n, id, f);
    } else {
      AddressedKeys(w, n);
      assert n.pods - {id} == n.pods && n.sourceIps - {id} == n.sourceIps;
    }
  }

  lemma AddressedKeys(w: Wiring, n: Node)
    requires Accounted(w, n)
    ensures n.sourceIps.Keys == n.pods.Keys
  {
  }

  lemma EvictedAccounted(w: Wiring, n: Node, id: string, f: EvictOutcome)
    requires Accounted(w, n) && w.registry && ReleasesSucceed(f) && id in n.pods
    ensures Accounted(w, Evict(w, n, id, f).0) && Evict(w, n, id, f).1 == Evicted
    ensures Evict(w, n, id, f).0.pods == n.pods - {id} && Evict(w, n, id, f).0.nextCid == n.nextCid
    ensures Evict(w, n, id, f).0.sourceIps == n.sourceIps - {id}
  {
    hide Evict, Labelled, Paired, VmsAccounted, Interfaces, ReleasePair, OwnIdentity, Safe;
    AddressedExactly(n);
    VmHandle(w, n, id);
    EvictShape(w, n, id, f);
    var m, cid := Evict(w, n, id, f).0, n.pods[id].pid.value;
    AddressesLose(n, id, m.alloc);
    PairedSafe(m.alloc);
    InterfacesOf(cid);
    VmStoresLose(w, n, m, id, if n.pods[id].runtime.CloudHypervisor? then {cid} else {});
  }

  /** Evicting a pod keeps the accounts exact exactly when every release succeeds: stopping the
      runtime, unregistering the identity and removing the scratch. */
  lemma EvictAccountedIff(w: Wiring, n: Node, id: string, f: EvictOutcome)
    requires Accounted(w, n) && w.registry && id in n.pods
    ensures Accounted(w, Evict(w, n, id, f).0) <==> ReleasesSucceed(f)
  {
    hide Accounted, Evict;
    if ReleasesSucceed(f) {
      EvictedAccounted(w, n, id, f);
    } else if f.stopped && f.scratchRemoved {
      IdentityLeft(w, n, id, f);
    } else {
      PodLeft(w, n, id, f);
    }
  }

  /** A pod that could not be stopped, or whose scratch could not be removed, stays in the
      table as terminating. */
  lemma PodLeft(w: Wiring, n: Node, id: string, f: EvictOutcome)
    requires Accounted(w, n) && id in n.pods && !(f.stopped && f.scratchRemoved)
    ensures !Accounted(w, Evict(w, n, id, f).0)
  {
    hide Evict, AddressesAccounted;
    VmHandle(w, n, id);
    EvictedPods(w, n, id, f);
    var m := Evict(w, n, id, f).0;
    assert id in m.pods && !Active(m.pods[id]);
  }

  /** An identity that could not be unregistered belongs to no address that is held. */
  lemma IdentityLeft(w: Wiring, n: Node, id: string, f: EvictOutcome)
    requires Accounted(w, n) && w.registry && id in n.pods && f.stopped && f.scratchRemoved && !f.unregistered
    ensures !Accounted(w, Evict(w, n, id, f).0)
  {
    hide VmsAccounted, Paired, Safe, GwFree, Evict, ReleasePair;
    PodAddressed(n, id);
    EvictReleases(w, n, id, f);
    var m, ip := Evict(w, n, id, f).0, n.sourceIps[id];
    assert Addressed(n.pods[id], n.alloc.base, PodEnds(n.alloc.held), id, ip, n.identities);
    ReleaseShape(n.alloc, id);
    assert ip in m.identities && ip - m.alloc.base !in m.alloc.held;
  }

  /** What the second half of an eviction does to the addresses. */
  lemma EvictReleases(w: Wiring, n: Node, id: string, f: EvictOutcome)
    requires id in n.pods && f.stopped
    ensures var m := Evict(w, n, id, f).0;
            && m.sourceIps == n.sourceIps - {id}
            && m.alloc == (if id in n.sourceIps then ReleasePair(n.alloc, id) else n.alloc)
            && m.identities ==
                 if id in n.sourceIps && w.registry && f.unregistered then n.identities - {n.sourceIps[id]}
                 else n.identities
  {
    hide ReleasePair;
  }

  lemma InterfacesOf(cid: u32)
    ensures Interfaces({cid}) == {Interface(cid)} && Interfaces({}) == {}
  {
  }

  lemma VmHandle(w: Wiring, n: Node, id: string)
    requires VmsAccounted(w, n) && id in n.pods
    ensures n.pods[id].pid.Some?
    ensures n.pods[id].runtime.CloudHypervisor? ==> w.guard && n.pods[id].pid.value in n.vms
  {
    assert n.pods[id].runtime.CloudHypervisor? ==> n.pods[id].pid.value in VmCids(n.pods);
  }

  // ---------------------------------------------------------------- what the accounts say

  ghost predicate HoldsPair(a: Alloc, id: string) { exists j: nat :: HeldBy(a, j, id) }

  ghost predicate SourceOf(n: Node, ip: u32, id: string) { id in n.pods && id in n.sourceIps && n.sourceIps[id] == ip }

  ghost predicate VmOf(n: Node, cid: u32, id: string) {
    id in n.pods && n.pods[id].runtime.CloudHypervisor? && n.pods[id].pid == Some(cid)
  }

  /** In full: the /30 pairs, recorded source IPs and registered identities are exactly the
      live pods', each identity the pod's own; the adapter handles, attestation records and
      armed interfaces are exactly the live MicroVM pods'. */
  lemma AccountsAgree(w: Wiring, n: Node)
    requires Accounted(w, n)
    ensures forall id :: id in n.pods <==> HoldsPair(n.alloc, id)
    ensures forall id, j: nat | id in n.pods && HeldBy(n.alloc, j, id) :: n.sourceIps[id] == n.alloc.base + 4 * j + 2
    ensures n.sourceIps.Keys == n.pods.Keys
    ensures forall ip :: ip in n.identities <==> exists id :: SourceOf(n, ip, id)
    ensures forall id | id in n.pods ::
              w.fingerprint(n.pods[id].tenantId, n.pods[id].workloadId, n.pods[id].role) ==
                Some(n.identities[n.sourceIps[id]])
    ensures forall c :: c in n.vms <==> exists id :: VmOf(n, c, id)
    ensures n.armed == Interfaces(n.vms)
    ensures w.attestation ==> n.measurements.Keys == n.vms && n.contexts.Keys == n.vms
    ensures w.probes ==> n.runners == n.pods.Keys
  {
    hide Accounted, HeldBy, HoldsPair, SourceOf, VmOf, Interfaces;
    AgreeOnAddresses(w, n);
    AgreeOnIdentities(w, n);
    AgreeOnVms(w, n);
  }

  lemma AgreeOnAddresses(w: Wiring, n: Node)
    requires Accounted(w, n)
    ensures forall id :: id in n.pods <==> HoldsPair(n.alloc, id)
    ensures n.sourceIps.Keys == n.pods.Keys
    ensures forall id, j: nat | id in n.pods && HeldBy(n.alloc, j, id) :: n.sourceIps[id] == n.alloc.base + 4 * j + 2
  {
    hide Paired, Safe, PodEnds, GwFree, VmsAccounted, OwnIdentity, HoldsPair;
    AddressedExactly(n);
    forall id ensures id in n.pods <==> HoldsPair(n.alloc, id) { PairsAgree(n, id); }
    forall id, j: nat | id in n.pods && HeldBy(n.alloc, j, id) ensures n.sourceIps[id] == n.alloc.base + 4 * j + 2 {
      PodOffset(n, id);
    }
  }

  lemma AgreeOnIdentities(w: Wiring, n: Node)
    requires Accounted(w, n)
    ensures n.sourceIps.Keys == n.pods.Keys
    ensures forall ip :: ip in n.identities <==> exists id :: SourceOf(n, ip, id)
    ensures forall id | id in n.pods ::
              && n.sourceIps[id] in n.identities
              && w.fingerprint(n.pods[id].tenantId, n.pods[id].workloadId, n.pods[id].role) ==
                   Some(n.identities[n.sourceIps[id]])
  {
    hide Paired, Safe, PodEnds, GwFree, VmsAccounted;
    forall ip ensures ip in n.identities <==> exists id :: SourceOf(n, ip, id) { IdentitiesAgree(n, ip); }
    forall id | id in n.pods
      ensures n.sourceIps[id] in n.identities
      ensures w.fingerprint(n.pods[id].tenantId, n.pods[id].workloadId, n.pods[id].role) ==
                Some(n.identities[n.sourceIps[id]])
    {
      assert OwnIdentity(w, n.pods[id]);
      assert Addressed(n.pods[id], n.alloc.base, PodEnds(n.alloc.held), id, n.sourceIps[id], n.identities);
    }
  }

  lemma AgreeOnVms(w: Wiring, n: Node)
    requires Accounted(w, n)
    ensures forall c :: c in n.vms <==> exists id :: VmOf(n, c, id)
    ensures n.armed == Interfaces(n.vms)
    ensures w.attestation ==> n.measurements.Keys == n.vms && n.contexts.Keys == n.vms
    ensures w.probes ==> n.runners == n.pods.Keys
  {
    hide AddressesAccounted, OwnIdentity;
    forall c ensures c in n.vms <==> exists id :: VmOf(n, c, id) { VmsAgree(n, c); }
  }

  lemma PairsAgree(n: Node, id: string)
    requires AddressesAccounted(n)
    ensures id in n.pods <==> HoldsPair(n.alloc, id)
  {
    hide Labelled, Paired, Safe, PodEnds, GwFree;
    if id in n.pods { PodHoldsPair(n, id); }
    forall j: nat | HeldBy(n.alloc, j, id) ensures id in n.pods { HolderIsPod(n, j, id); }
  }

  lemma PodHoldsPair(n: Node, id: string)
    requires AddressesAccounted(n) && id in n.pods
    ensures HoldsPair(n.alloc, id)
  {
    hide Labelled, GwFree, Addressed, Safe, Paired;
    PodOffset(n, id);
    assert n.sourceIps[id] - n.alloc.base in n.alloc.held by { PodAddressed(n, id); }
    LabelHeld(n.alloc, n.sourceIps[id] - n.alloc.base, id);
  }

  lemma PodAddressed(n: Node, id: string)
    requires AddressesAccounted(n) && id in n.pods
    ensures id in n.sourceIps && n.sourceIps[id] - n.alloc.base in n.alloc.held &&
              n.alloc.held[n.sourceIps[id] - n.alloc.base] == id
  {
    hide Paired, Safe, GwFree;
    assert Addressed(n.pods[id], n.alloc.base, PodEnds(n.alloc.held), id, n.sourceIps[id], n.identities);
  }

  lemma LabelHeld(a: Alloc, o: u32, id: string)
    requires Paired(a) && o in a.held && a.held[o] == id && GwFree(id)
    ensures HoldsPair(a, id)
  {
    GatewayLabels();
    assert Whole(a, o / 4);
    hide Paired, Safe, GwFree;
    assert HeldBy(a, o / 4, id);
  }

  lemma HolderIsPod(n: Node, j: nat, id: string)
    requires AddressesAccounted(n) && HeldBy(n.alloc, j, id)
    ensures id in n.pods
  {
    assert Whole(n.alloc, j);
    hide Paired, Safe, GwFree;
    assert 4 * j + 2 in PodEnds(n.alloc.held);
  }

  lemma IdentitiesAgree(n: Node, ip: u32)
    requires AddressesAccounted(n)
    ensures ip in n.identities <==> exists id :: SourceOf(n, ip, id)
  {
    hide Paired, Safe, PodEnds;
    var ends := PodEnds(n.alloc.held);
    if ip in n.identities {
      assert SourceOf(n, ip, ends[ip - n.alloc.base]);
    }
    forall id | SourceOf(n, ip, id) ensures ip in n.identities {
      assert Addressed(n.pods[id], n.alloc.base, ends, id, n.sourceIps[id], n.identities);
    }
  }

  lemma VmsAgree(n: Node, c: u32)
    requires n.vms == VmCids(n.pods)
    ensures c in n.vms <==> exists id :: VmOf(n, c, id)
  {
    if c in VmCids(n.pods) {
      var id :| id in n.pods && n.pods[id].runtime.CloudHypervisor? && n.pods[id].pid.Some? &&
        n.pods[id].pid.value == c;
      assert VmOf(n, c, id);
    }
    forall id | VmOf(n, c, id) ensures c in VmCids(n.pods) {
      assert n.pods[id].pid.value == c;
    }
  }
}
