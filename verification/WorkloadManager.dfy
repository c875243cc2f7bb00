/** The workload manager object and the collaborators it drives, call by call
    (src/workloads/mod.rs, src/workloads/microvm.rs, src/ebpf/net_guard_adapter.rs,
    src/vsock_attest/mod.rs). Each method is tied to its one-transaction specification. */
module WorkloadManagers {
  import opened Base
  import opened Pods
  import opened IpAllocator
  import opened Workloads
  import opened Manager
  import Reconciler

  class VsockCidAllocator {
    var nextCid: u32

    constructor (start: u32)
      ensures nextCid == if start < 3 then 3 else start
    {
      nextCid := if start < 3 then 3 else start;
    }

    method Allocate() returns (cid: u32)
      modifies this
      ensures cid == old(nextCid) && nextCid == NextCid(old(nextCid))
    {
      cid := nextCid;
      nextCid := NextCid(nextCid);
    }
  }

  /** Guards by interface, the node's one BOOT_GATE cell, and SRC_IDENTITY_MAP. */
  class VmNetGuardAdapter {
    var guards: set<string>
    var gateOpen: bool
    var sources: map<u32, Bytes>

    constructor ()
      ensures guards == {} && !gateOpen && sources == map[]
    {
      guards, gateOpen, sources := {}, false, map[];
    }

    method Arm(interface: string, attached: bool) returns (ok: bool)
      modifies this
      ensures ok == attached && sources == old(sources)
      ensures guards == (if ok then old(guards) + {interface} else old(guards)) && gateOpen == (old(gateOpen) || ok)
    {
      if !attached { return false; }
      gateOpen := true;
      guards := guards + {interface};
      ok := true;
    }

    method Disarm(interface: string, gateClosed: bool) returns (ok: bool)
      modifies this
      ensures ok == gateClosed && sources == old(sources)
      ensures guards == old(guards) - {interface} && gateOpen == (old(gateOpen) && !gateClosed)
    {
      guards := guards - {interface};
      if !gateClosed { return false; }
      gateOpen := false;
      ok := true;
    }

    method Register(ip: u32, fingerprint: Bytes, written: bool) returns (ok: bool)
      modifies this
      ensures ok == written && guards == old(guards) && gateOpen == old(gateOpen)
      ensures sources == if ok then old(sources)[ip := fingerprint] else old(sources)
    {
      if !written { return false; }
      sources := sources[ip := fingerprint];
      ok := true;
    }

    method Unregister(ip: u32, written: bool) returns (ok: bool)
      modifies this
      ensures ok == (written && ip in old(sources)) && guards == old(guards) && gateOpen == old(gateOpen)
      ensures sources == if written then old(sources) - {ip} else old(sources)
    {
      if !written || ip !in sources { return false; }
      sources := sources - {ip};
      ok := true;
    }
  }

  /** Boot measurements and workload contexts by CID. */
  class AttestationServer {
    var measurements: map<u32, Bytes>
    var contexts: map<u32, Context>

    constructor ()
      ensures measurements == map[] && contexts == map[]
    {
      measurements, contexts := map[], map[];
    }

    method Register(cid: u32, measurement: Bytes, context: Context)
      modifies this
      ensures measurements == old(measurements)[cid := measurement] && contexts == old(contexts)[cid := context]
    {
      measurements := measurements[cid := measurement];
      contexts := contexts[cid := context];
    }

    method Unregister(cid: u32)
      modifies this
      ensures measurements == old(measurements) - {cid} && contexts == old(contexts) - {cid}
    {
      measurements := measurements - {cid};
      contexts := contexts - {cid};
    }
  }

  method ValidateMicrovmMounts(mounts: seq<Mount>) returns (ok: bool)
    ensures ok <==> EmptyDirsOnly(mounts)
  {
    for i := 0 to |mounts|
      invariant forall k | 0 <= k < i :: mounts[k].EmptyDir?
    {
      if mounts[i].HostPath? { return false; }
    }
    ok := true;
  }

  class WorkloadManager {
    const wiring: Wiring
    const ipAllocator: NodeIpAllocator
    const cidAllocator: VsockCidAllocator
    const guard: VmNetGuardAdapter
    const attestation: AttestationServer
    var pods: map<string, Pod>
    var podSourceIps: map<string, u32>
    var microvms: set<u32>
    var probeRunners: set<string>

    ghost function Snapshot(): Node
      reads this, ipAllocator, cidAllocator, guard, attestation
    {
      Node(pods, ipAllocator.State(), podSourceIps, guard.sources, cidAllocator.nextCid, microvms,
           attestation.measurements, attestation.contexts, guard.guards, guard.gateOpen, probeRunners)
    }

    constructor (wiring: Wiring, ipAllocator: NodeIpAllocator)
      requires ipAllocator.nextOffset == 1 && ipAllocator.free == {} && ipAllocator.held == map[]
      ensures this.wiring == wiring && this.ipAllocator == ipAllocator && Snapshot() == StartUp(ipAllocator.State())
      ensures fresh(cidAllocator) && fresh(guard) && fresh(attestation)
    {
      this.wiring, this.ipAllocator := wiring, ipAllocator;
      cidAllocator := new VsockCidAllocator(3);
      guard := new VmNetGuardAdapter();
      attestation := new AttestationServer();
      pods, podSourceIps, microvms, probeRunners := map[], map[], {}, {};
    }

    /** Containers: a failing step destroys the namespace again; no store is involved. */
    method BootContainerd(f: BootOutcome) returns (handle: Option<u32>)
      requires f.mounts.Some?
      ensures handle.Some? <==> RuntimeBoots(wiring, Containerd, f)
      ensures handle.Some? ==> handle == f.containerPid
    {
      if !f.netnsCreated { return None; }
      if !f.netnsConfigured { return None; }
      handle := f.containerPid;
    }

    /** MicroVMs: arm the guard before anything else, undo it all when a later step fails. */
    method BootMicrovm(f: BootOutcome, guestIp: u32, gatewayIp: u32) returns (handle: Option<u32>)
      requires f.mounts.Some? && guestIp == gatewayIp + 1
      modifies this`microvms, cidAllocator, guard, attestation
      ensures handle == if RuntimeBoots(wiring, CloudHypervisor, f) then Some(old(cidAllocator.nextCid)) else None
      ensures guard.sources == old(guard.sources)
      ensures Snapshot() == if handle.Some? then Started(wiring, old(Snapshot()), CloudHypervisor, f, guestIp)
                            else Unstarted(wiring, old(Snapshot()), CloudHypervisor, f)
    {
      hide EmptyDirsOnly;
      var valid := ValidateMicrovmMounts(f.mounts.value);
      if !valid { return None; }
      var cid := cidAllocator.Allocate();
      if !wiring.guard { return None; }
      handle := BootArmed(cid, f, guestIp, gatewayIp);
    }

    method BootArmed(cid: u32, f: BootOutcome, guestIp: u32, gatewayIp: u32) returns (handle: Option<u32>)
      modifies this`microvms, guard, attestation
      ensures handle == if f.armed && f.image && f.measurement.Some? && f.vmBooted then Some(cid) else None
      ensures microvms == (if handle.Some? then old(microvms) + {cid} else old(microvms)) &&
                guard.sources == old(guard.sources)
      ensures guard.guards ==
              if handle.Some? then old(guard.guards) + {Interface(cid)}
              else if f.armed then old(guard.guards) - {Interface(cid)} else old(guard.guards)
      ensures guard.gateOpen == if handle.Some? then true else if f.armed then !f.gateClosed else old(guard.gateOpen)
      ensures attestation.measurements ==
              if !wiring.attestation || !f.armed then old(attestation.measurements)
              else if handle.Some? then old(attestation.measurements)[cid := f.measurement.value]
              else old(attestation.measurements) - {cid}
      ensures attestation.contexts ==
              if !wiring.attestation || !f.armed then old(attestation.contexts)
              else if handle.Some? then old(attestation.contexts)[cid := Context(guestIp, gatewayIp)]
              else old(attestation.contexts) - {cid}
    {
      var interface := Interface(cid);
      var armed := guard.Arm(interface, f.armed);
      if !armed { return None; }
      handle := BootMicrovmInner(cid, f, guestIp, gatewayIp);
      if handle.None? {
        if wiring.attestation { attestation.Unregister(cid); }
        var _ := guard.Disarm(interface, f.gateClosed);
        assert old(guard.guards) + {interface} - {interface} == old(guard.guards) - {interface};
      }
    }

    method BootMicrovmInner(cid: u32, f: BootOutcome, guestIp: u32, gatewayIp: u32) returns (handle: Option<u32>)
      modifies this`microvms, attestation
      ensures handle == if f.image && f.measurement.Some? && f.vmBooted then Some(cid) else None
      ensures microvms == if handle.Some? then old(microvms) + {cid} else old(microvms)
      ensures attestation.measurements ==
              if wiring.attestation && f.image && f.measurement.Some?
                then old(attestation.measurements)[cid := f.measurement.value]
              else old(attestation.measurements)
      ensures attestation.contexts ==
              if wiring.attestation && f.image && f.measurement.Some?
                then old(attestation.contexts)[cid := Context(guestIp, gatewayIp)]
              else old(attestation.contexts)
    {
      if !f.image { return None; }
      if f.measurement.None? { return None; }
      if wiring.attestation { attestation.Register(cid, f.measurement.value, Context(guestIp, gatewayIp)); }
      if !f.vmBooted { return None; }
      microvms := microvms + {cid};
      handle := Some(cid);
    }

    method BootPod(spec: WorkloadSpec, f: BootOutcome) returns (r: BootResult)
      requires ipAllocator.Valid()
      modifies this, ipAllocator, cidAllocator, guard, attestation
      ensures ipAllocator.Valid()
      ensures (Snapshot(), r) == Boot(wiring, old(Snapshot()), spec, f)
    {
      hide Safe, AllocatePair, ReleasePair, PairOffset, BootWith;
      if spec.podSpec.None? { return BootFailed; }
      var id := PodId(spec);
      if f.mounts.None? { return BootFailed; }
      var fp := wiring.fingerprint(spec.podSpec.value.tenantId, spec.workloadId, spec.role);
      if fp.None? { return BootFailed; }
      var pair := ipAllocator.AllocateP2pPair(id);
      NothingGranted(old(Snapshot()).alloc, id);
      if pair.Err? { return BootFailed; }
      AllocationIgnored(wiring, old(Snapshot()), spec, f, fp.value, pair.value.1, Snapshot().alloc);
      r := BootAddressed(spec, f, fp.value, pair.value.0, pair.value.1);
    }

    /** The rest of a boot, once the pod has its pair: register, boot, record or undo. */
    method BootAddressed(spec: WorkloadSpec, f: BootOutcome, fp: Bytes, gw: u32, wl: u32) returns (r: BootResult)
      requires ipAllocator.Valid() && spec.podSpec.Some? && f.mounts.Some? && wl == gw + 1
      modifies this, ipAllocator, cidAllocator, guard, attestation
      ensures ipAllocator.Valid()
      ensures (Snapshot(), r) == BootWith(wiring, old(Snapshot()), spec, f, fp, wl, old(Snapshot()).alloc,
                                          ReleasePair(old(Snapshot()).alloc, PodId(spec)))
    {
      hide Safe, ReleasePair, RuntimeBoots, Recorded, RolledBack;
      if wiring.registry {
        var registered := guard.Register(wl, fp, f.registered);
        if !registered {
          ipAllocator.ReleaseP2pPair(PodId(spec));
          return BootFailed;
        }
      }
      r := BootRegistered(spec, f, fp, gw, wl);
    }

    method BootRegistered(spec: WorkloadSpec, f: BootOutcome, fp: Bytes, gw: u32, wl: u32) returns (r: BootResult)
      requires ipAllocator.Valid() && spec.podSpec.Some? && f.mounts.Some? && wl == gw + 1
      modifies this, ipAllocator, cidAllocator, guard, attestation
      ensures ipAllocator.Valid()
      ensures RuntimeBoots(wiring, spec.runtime, f) ==>
                (Snapshot(), r) == Recorded(wiring, old(Snapshot()), spec, f, fp, wl)
      ensures !RuntimeBoots(wiring, spec.runtime, f) ==>
                && r == BootFailed
                && Snapshot() == RolledBack(wiring, old(Snapshot()), wl, spec.runtime, f,
                     ReleasePair(old(Snapshot()).alloc, PodId(spec)))
    {
      hide Safe, ReleasePair, BootedPod, RuntimeBoots, Started, Unstarted;
      var booted := BootRuntime(spec.runtime, f, wl, gw);
      if booted.None? {
        if wiring.registry {
          var _ := guard.Unregister(wl, f.unregistered);
        }
        ipAllocator.ReleaseP2pPair(PodId(spec));
        return BootFailed;
      }
      RecordBoot(spec, fp, wl, booted.value);
      r := Booted(booted.value);
    }

    method BootRuntime(runtime: Runtime, f: BootOutcome, wl: u32, gw: u32) returns (booted: Option<u32>)
      requires f.mounts.Some? && wl == gw + 1
      modifies this`microvms, cidAllocator, guard, attestation
      ensures booted.Some? <==> RuntimeBoots(wiring, runtime, f)
      ensures guard.sources == old(guard.sources)
      ensures booted.Some? ==> booted.value == BootedHandle(old(Snapshot()), runtime, f)
      ensures Snapshot() == if booted.Some? then Started(wiring, old(Snapshot()), runtime, f, wl)
                            else Unstarted(wiring, old(Snapshot()), runtime, f)
    {
      hide EmptyDirsOnly;
      match runtime {
        case Containerd => booted := BootContainerd(f);
        case CloudHypervisor => booted := BootMicrovm(f, wl, gw);
      }
    }

    method RecordBoot(spec: WorkloadSpec, fp: Bytes, wl: u32, handle: u32)
      requires spec.podSpec.Some?
      modifies this`pods, this`podSourceIps, this`probeRunners
      ensures pods == old(pods)[PodId(spec) := BootedPod(spec, fp, handle)]
      ensures podSourceIps == if wiring.registry then old(podSourceIps)[PodId(spec) := wl] else old(podSourceIps)
      ensures probeRunners == if wiring.probes then old(probeRunners) + {PodId(spec)} else old(probeRunners)
    {
      var id := PodId(spec);
      var pod := NewPod(id, spec.workloadId, spec.podSpec.value.tenantId, spec.role, spec.runtime, fp);
      pod := pod.(state := Booting);
      pod := pod.(pid := Some(handle));
      pod := pod.(started := true);
      if wiring.registry {
        podSourceIps := podSourceIps[id := wl];
      }
      pods := pods[id := pod];
      if wiring.probes {
        probeRunners := probeRunners + {id};
      }
    }

    method EvictPod(id: string, f: EvictOutcome) returns (r: EvictResult)
      requires ipAllocator.Valid()
      modifies this, ipAllocator, guard, attestation
      ensures ipAllocator.Valid()
      ensures (Snapshot(), r) == Evict(wiring, old(Snapshot()), id, f)
    {
      hide Safe, Halted, Released;
      if id !in pods { return EvictFailed; }
      var stopped := HaltPod(id, f);
      if !stopped { return EvictFailed; }
      r := FinishEviction(id, f);
    }

    method HaltPod(id: string, f: EvictOutcome) returns (ok: bool)
      requires id in pods
      modifies this`pods, this`probeRunners, this`microvms, guard, attestation
      ensures ok == StopOk(old(Snapshot()), old(pods[id]), f) && Snapshot() == Halted(wiring, old(Snapshot()), id, f)
    {
      hide Safe;
      var runtime, handle := pods[id].runtime, Handle(pods[id]);
      pods := pods[id := BeginEviction(pods[id])];
      if wiring.probes { probeRunners := probeRunners - {id}; }
      ok := StopRuntime(runtime, handle, f);
    }

    method StopRuntime(runtime: Runtime, handle: u32, f: EvictOutcome) returns (ok: bool)
      modifies this`microvms, guard, attestation
      ensures var vm, known := runtime.CloudHypervisor?, runtime.CloudHypervisor? && handle in old(microvms);
              && ok == (f.stopped || (vm && !known))
              && microvms == (if vm then old(microvms) - {handle} else old(microvms))
              && guard.sources == old(guard.sources)
              && guard.guards == (if known && ok && wiring.guard then old(guard.guards) - {Interface(handle)}
                   else old(guard.guards))
              && guard.gateOpen == (old(guard.gateOpen) && !(known && ok && wiring.guard && f.gateClosed))
              && attestation.measurements == (if ok && vm && wiring.attestation
                   then old(attestation.measurements) - {handle} else old(attestation.measurements))
              && attestation.contexts == (if ok && vm && wiring.attestation then old(attestation.contexts) - {handle}
                   else old(attestation.contexts))
    {
      if runtime.Containerd? { return f.stopped; }
      if handle in microvms {
        microvms := microvms - {handle};
        if !f.stopped { return false; }
        if wiring.guard {
          var _ := guard.Disarm(Interface(handle), f.gateClosed);
        }
      } else {
        assert microvms == microvms - {handle};
      }
      if wiring.attestation { attestation.Unregister(handle); }
      ok := true;
    }

    method FinishEviction(id: string, f: EvictOutcome) returns (r: EvictResult)
      requires ipAllocator.Valid()
      modifies this`pods, this`podSourceIps, ipAllocator, guard
      ensures ipAllocator.Valid()
      ensures (Snapshot(), r) == Released(wiring, old(Snapshot()), id, f)
    {
      hide Safe, ReleasePair;
      ReleaseAddress(id, f);
      if !f.scratchRemoved { return EvictFailed; }
      pods := pods - {id};
      r := Evicted;
    }

    method ReleaseAddress(id: string, f: EvictOutcome)
      requires ipAllocator.Valid()
      modifies this`podSourceIps, ipAllocator, guard
      ensures ipAllocator.Valid() && guard.guards == old(guard.guards) && guard.gateOpen == old(guard.gateOpen)
      ensures podSourceIps == old(podSourceIps) - {id}
      ensures ipAllocator.State() == if id in old(podSourceIps) then ReleasePair(old(ipAllocator.State()), id)
                else old(ipAllocator.State())
      ensures guard.sources ==
              if id in old(podSourceIps) && wiring.registry && f.unregistered
                then old(guard.sources) - {old(podSourceIps)[id]}
              else old(guard.sources)
    {
      if id !in podSourceIps {
        assert podSourceIps - {id} == podSourceIps;
        return;
      }
      var ip := podSourceIps[id];
      podSourceIps := podSourceIps - {id};
      if wiring.registry {
        var _ := guard.Unregister(ip, f.unregistered);
      }
      ipAllocator.ReleaseP2pPair(id);
    }

    /** Evict what the frame no longer lists, boot what it newly lists; failures are logged
        and skipped. `order` is the eviction order the pod table happened to yield. */
    method Reconcile(desired: seq<WorkloadSpec>, evictions: string -> EvictOutcome, boots: nat -> BootOutcome)
      returns (order: seq<string>, booted: set<string>)
      requires ipAllocator.Valid()
      modifies this, ipAllocator, cidAllocator, guard, attestation
      ensures ipAllocator.Valid()
      ensures Reconciler.Lists(order, Reconciler.Surplus(desired, old(pods)))
      ensures (Snapshot(), booted) == ReconcileFrame(wiring, old(Snapshot()), Frame(desired, order, evictions, boots))
    {
      hide Safe, Evict, Boot;
      var toBoot;
      toBoot, order := Reconciler.Reconcile(desired, pods);
      EvictEach(order, evictions);
      booted := BootEach(toBoot, boots);
    }

    method EvictEach(ids: seq<string>, outcomes: string -> EvictOutcome)
      requires ipAllocator.Valid()
      modifies this, ipAllocator, guard, attestation
      ensures ipAllocator.Valid() && Snapshot() == EvictAll(wiring, old(Snapshot()), ids, outcomes)
    {
      hide Safe, Evict;
      for i := 0 to |ids|
        invariant ipAllocator.Valid() && Snapshot() == EvictAll(wiring, old(Snapshot()), ids[..i], outcomes)
      {
        var _ := EvictPod(ids[i], outcomes(ids[i]));
        assert ids[..i + 1][..i] == ids[..i];
      }
      assert ids[..|ids|] == ids;
    }

    method BootEach(specs: seq<WorkloadSpec>, outcomes: nat -> BootOutcome) returns (booted: set<string>)
      requires ipAllocator.Valid()
      modifies this, ipAllocator, cidAllocator, guard, attestation
      ensures ipAllocator.Valid() && (Snapshot(), booted) == BootAll(wiring, old(Snapshot()), specs, outcomes)
    {
      hide Safe, Boot;
      booted := {};
      for i := 0 to |specs|
        invariant ipAllocator.Valid() && (Snapshot(), booted) == BootAll(wiring, old(Snapshot()), specs[..i], outcomes)
      {
        var r := BootPod(specs[i], outcomes(i));
        if r.Booted? { booted := booted + {specs[i].workloadId}; }
        assert specs[..i + 1][..i] == specs[..i];
      }
      assert specs[..|specs|] == specs;
    }
  }

  lemma NothingGranted(a: Alloc, pod: string)
    ensures PairOffset(a).None? ==> AllocatePair(a, pod) == a
  {
  }

  lemma AllocationIgnored(w: Wiring, n: Node, spec: WorkloadSpec, f: BootOutcome, fp: Bytes, wl: u32, taken: Alloc)
    requires spec.podSpec.Some? && f.mounts.Some? && wl > 0
    ensures forall returned :: BootWith(w, n, spec, f, fp, wl, taken, returned) ==
              BootWith(w, n.(alloc := taken), spec, f, fp, wl, taken, returned)
  {
  }
}
