/** Boots and evictions when releases fail too (src/workloads/mod.rs): what every run keeps
    whatever fails and whatever is wired, and runs that show what does not hold. */
module Faults {
  import opened Base
  import opened Pods
  import opened IpAllocator
  import opened Workloads
  import opened Reconciler
  import opened Manager

  /** One boot, one eviction, or an update of pod records by another task. */
  datatype Move =
    | BootPod(spec: WorkloadSpec, boot: BootOutcome)
    | EvictPod(id: string, release: EvictOutcome)
    | Observe(pods: map<string, Pod>)

  ghost predicate MoveTo(w: Wiring, n: Node, move: Move, m: Node) {
    match move
    case BootPod(spec, f) => Safe(n.alloc) && m == Boot(w, n, spec, f).0
    case EvictPod(id, f) => m == Evict(w, n, id, f).0
    case Observe(pods) => m == n.(pods := pods) && pods.Keys == n.pods.Keys
  }

  ghost predicate Moves(w: Wiring, states: seq<Node>, moves: seq<Move>) {
    && |states| == |moves| + 1
    && forall i | 0 <= i < |moves| :: MoveTo(w, states[i], moves[i], states[i + 1])
  }

  /** The pod id, if the move boots one, carries no gateway suffix. */
  predicate Suffixless(move: Move) { move.BootPod? && move.spec.podSpec.Some? ==> GwFree(PodId(move.spec)) }

  // ---------------------------------------------------------------- what no failure breaks

  ghost predicate CidFree(n: Node, c: u32) {
    c !in n.vms && c !in n.measurements && c !in n.contexts && Interface(c) !in n.armed
  }

  /** No store mentions a CID that is yet to be handed out. */
  ghost predicate CidsAhead(n: Node) { forall c: u32 | n.nextCid <= c :: CidFree(n, c) }

  /** /30s stay whole, and so do the CIDs ahead. */
  ghost predicate Sound(n: Node) {
    Paired(n.alloc) && (forall id | id in n.pods :: GwFree(id)) && CidsAhead(n)
  }

  /** The stores keyed by CID change at most by the next CID, and only if it is used up. */
  ghost predicate CidsStep(n: Node, m: Node) {
    || (&& m.nextCid == n.nextCid && m.vms <= n.vms && m.armed <= n.armed
        && m.measurements.Keys <= n.measurements.Keys && m.contexts.Keys <= n.contexts.Keys)
    || (&& m.nextCid == NextCid(n.nextCid)
        && m.vms <= n.vms + {n.nextCid} && m.armed <= n.armed + {Interface(n.nextCid)}
        && m.measurements.Keys <= n.measurements.Keys + {n.nextCid} && m.contexts.Keys <= n.contexts.Keys + {n.nextCid})
  }

  lemma StartedCids(w: Wiring, n: Node, runtime: Runtime, f: BootOutcome, wl: u32)
    requires f.mounts.Some? && wl > 0 && RuntimeBoots(w, runtime, f)
    ensures var m := Started(w, n, runtime, f, wl);
            CidsStep(n, m) && m.identities == n.identities && m.sourceIps == n.sourceIps && m.alloc == n.alloc
  {
    hide Interface;
  }

  lemma UnstartedCids(w: Wiring, n: Node, runtime: Runtime, f: BootOutcome)
    requires f.mounts.Some?
    ensures CidsStep(n, Unstarted(w, n, runtime, f))
  {
    hide Interface;
  }

  lemma BootCids(w: Wiring, n: Node, spec: WorkloadSpec, f: BootOutcome)
    requires Safe(n.alloc)
    ensures CidsStep(n, Boot(w, n, spec, f).0)
  {
    hide Safe, PairOffset, AllocatePair, ReleasePair, Started, Unstarted, CidsStep, RuntimeBoots;
    SameCids(n, n);
    if Identity(w, spec, f).Some? && PairOffset(n.alloc).Some? {
      GrantedAddress(n.alloc);
      var fp, wl := Identity(w, spec, f).value, n.alloc.base + PairOffset(n.alloc).value + 1;
      var id := PodId(spec);
      var taken := AllocatePair(n.alloc, id);
      BootWithCids(w, n, spec, f, fp, wl, taken, ReleasePair(taken, id));
    }
  }

  lemma SameCids(n: Node, m: Node)
    requires m.nextCid == n.nextCid && m.vms == n.vms && m.armed == n.armed
    requires m.measurements == n.measurements && m.contexts == n.contexts
    ensures CidsStep(n, m)
  {
  }

  lemma BootWithCids(w: Wiring, n: Node, spec: WorkloadSpec, f: BootOutcome, fp: Bytes, wl: u32, taken: Alloc,
                     returned: Alloc)
    requires spec.podSpec.Some? && f.mounts.Some? && wl > 0
    ensures CidsStep(n, BootWith(w, n, spec, f, fp, wl, taken, returned).0)
  {
    hide Started, Unstarted, RuntimeBoots, Interface;
    if !(w.registry && !f.registered) {
      var n' := n.(alloc := taken, identities := if w.registry then n.identities[wl := fp] else n.identities);
      if RuntimeBoots(w, spec.runtime, f) {
        StartedCids(w, n', spec.runtime, f, wl);
      } else {
        UnstartedCids(w, n', spec.runtime, f);
      }
    }
  }

  lemma BootAllocates(w: Wiring, n: Node, spec: WorkloadSpec, f: BootOutcome)
    requires Safe(n.alloc)
    ensures var (m, r) := Boot(w, n, spec, f);
            && (spec.podSpec.None? ==> m == n)
            && (spec.podSpec.Some? ==>
                  var id := PodId(spec);
                  var taken := AllocatePair(n.alloc, id);
                  && m.alloc in {n.alloc, taken, ReleasePair(taken, id)} && m.pods.Keys <= n.pods.Keys + {id}
                  && (r.Booted? ==> PairOffset(n.alloc).Some? && m.alloc == taken))
  {
    hide Safe, PairOffset, AllocatePair, ReleasePair;
  }

  lemma EvictShrinks(w: Wiring, n: Node, id: string, f: EvictOutcome)
    ensures var m := Evict(w, n, id, f).0;
            && m.nextCid == n.nextCid && m.vms <= n.vms && m.armed <= n.armed && m.pods.Keys <= n.pods.Keys
            && m.measurements.Keys <= n.measurements.Keys && m.contexts.Keys <= n.contexts.Keys
            && (m.alloc == n.alloc || (id in n.pods && m.alloc == ReleasePair(n.alloc, id)))
  {
    hide ReleasePair, Halted;
    if id in n.pods { HaltShrinks(w, n, id, f); }
  }

  lemma HaltShrinks(w: Wiring, n: Node, id: string, f: EvictOutcome)
    requires id in n.pods
    ensures var m := Halted(w, n, id, f);
            && m.nextCid == n.nextCid && m.vms <= n.vms && m.armed <= n.armed && m.pods.Keys == n.pods.Keys
            && m.measurements.Keys <= n.measurements.Keys && m.contexts.Keys <= n.contexts.Keys
            && m.alloc == n.alloc && m.sourceIps == n.sourceIps && m.identities == n.identities
  {
    hide Interface;
  }

  /** A move hands out the next CID at most, to at most one MicroVM. */
  lemma MoveCids(w: Wiring, n: Node, move: Move, m: Node)
    requires CidsAhead(n) && MoveTo(w, n, move, m) && n.nextCid + 1 < 0x1_0000_0000
    ensures CidsAhead(m) && n.nextCid <= m.nextCid <= n.nextCid + 1
    ensures m.vms <= n.vms + if m.nextCid == n.nextCid then {} else {n.nextCid}
  {
    hide Boot, Evict, ReleasePair, Interface, Safe;
    match move {
      case BootPod(spec, f) => BootCids(w, n, spec, f);
      case EvictPod(id, f) => EvictShrinks(w, n, id, f);
      case Observe(_) =>
    }
    InterfaceInjective();
    forall c: u32 | m.nextCid <= c ensures CidFree(m, c) { assert CidFree(n, c); }
  }

  lemma MoveSound(w: Wiring, n: Node, move: Move, m: Node)
    requires Sound(n) && MoveTo(w, n, move, m) && Suffixless(move) && n.nextCid + 1 < 0x1_0000_0000
    ensures Sound(m) && n.nextCid <= m.nextCid <= n.nextCid + 1
  {
    hide Boot, Evict, Paired, AllocatePair, ReleasePair, PairOffset, GwFree, CidsAhead, Safe;
    MoveCids(w, n, move, m);
    match move {
      case BootPod(spec, f) =>
        BootAllocates(w, n, spec, f);
        if spec.podSpec.Some? {
          var id := PodId(spec);
          PairedAllocate(n.alloc, id);
          PairedRelease(AllocatePair(n.alloc, id), id);
        }
      case EvictPod(id, f) =>
        EvictShrinks(w, n, id, f);
        if id in n.pods { PairedRelease(n.alloc, id); }
      case Observe(_) =>
    }
  }

  lemma StartUpSound(ip: u32, prefix: u32)
    requires New(ip, prefix).Ok?
    ensures Sound(StartUp(New(ip, prefix).value))
  {
    NewIsPaired(ip, prefix);
    hide New, Paired;
  }

  /** Over every run of boots and evictions, in any wiring and with any of their calls failing:
      every opened /30 is wholly free or wholly one pod's, and the next CID is in no store. */
  lemma {:induction false} RunSound(w: Wiring, ip: u32, prefix: u32, states: seq<Node>, moves: seq<Move>)
    requires New(ip, prefix).Ok? && Moves(w, states, moves) && states[0] == StartUp(New(ip, prefix).value)
    requires (forall i | 0 <= i < |moves| :: Suffixless(moves[i])) && 3 + |moves| < 0x1_0000_0000
    ensures Sound(states[|moves|]) && states[|moves|].nextCid <= 3 + |moves|
  {
    hide New, MoveTo, Sound, Suffixless;
    if moves == [] {
      StartUpSound(ip, prefix);
    } else {
      var k := |moves| - 1;
      RunSound(w, ip, prefix, states[..k + 1], moves[..k]);
      MoveSound(w, states[k], moves[k], states[k + 1]);
    }
  }

  // ---------------------------------------------------------------- CIDs

  lemma {:induction false} RunCids(w: Wiring, a: Alloc, states: seq<Node>, moves: seq<Move>, i: nat)
    requires Moves(w, states, moves) && states[0] == StartUp(a) && 3 + |moves| < 0x1_0000_0000 && i <= |moves|
    ensures var last := states[|moves|];
            CidsAhead(last) && last.nextCid <= 3 + |moves| && states[i].nextCid <= last.nextCid
  {
    hide MoveTo, CidsAhead;
    if moves == [] {
      NoCids(a);
    } else {
      var k := |moves| - 1;
      RunCids(w, a, states[..k + 1], moves[..k], if i == |moves| then k else i);
      MoveCids(w, states[k], moves[k], states[k + 1]);
    }
  }

  lemma NoCids(a: Alloc)
    ensures CidsAhead(StartUp(a))
  {
  }

  /** The move boots a MicroVM, and it comes up. */
  ghost predicate StartsVm(w: Wiring, n: Node, move: Move) {
    && move.BootPod? && move.spec.runtime.CloudHypervisor? && Safe(n.alloc)
    && Boot(w, n, move.spec, move.boot).1.Booted?
  }

  lemma VmHandle(w: Wiring, n: Node, spec: WorkloadSpec, f: BootOutcome)
    requires Safe(n.alloc) && spec.runtime.CloudHypervisor? && Boot(w, n, spec, f).1.Booted?
    ensures var (m, r) := Boot(w, n, spec, f);
            r.handle == n.nextCid && m.nextCid == NextCid(n.nextCid) && n.nextCid in m.vms
  {
    hide Safe, PairOffset, AllocatePair, ReleasePair, Interface, BootedPod;
  }

  /** No CID is ever handed out twice, in any wiring and whatever fails: a MicroVM that comes up
      gets the next CID, no store mentions it before, and every later one gets a larger CID. */
  lemma CidsNeverRepeat(w: Wiring, a: Alloc, states: seq<Node>, moves: seq<Move>, i: nat, j: nat)
    requires Moves(w, states, moves) && states[0] == StartUp(a) && 3 + |moves| < 0x1_0000_0000
    requires i < j < |moves| && StartsVm(w, states[i], moves[i]) && StartsVm(w, states[j], moves[j])
    ensures var first := Boot(w, states[i], moves[i].spec, moves[i].boot).1.handle;
            var later := Boot(w, states[j], moves[j].spec, moves[j].boot).1.handle;
            && 3 <= first < later && CidFree(states[i], first) && CidFree(states[j], later)
            && first in states[i + 1].vms && later in states[j + 1].vms
  {
    hide Boot, Evict, CidFree, Safe;
    VmHandle(w, states[i], moves[i].spec, moves[i].boot);
    VmHandle(w, states[j], moves[j].spec, moves[j].boot);
    assert MoveTo(w, states[i], moves[i], states[i + 1]) && MoveTo(w, states[j], moves[j], states[j + 1]);
    RunCids(w, a, states[..i + 1], moves[..i], 0);
    RunCids(w, a, states[..j + 1], moves[..j], i + 1);
  }

  // ---------------------------------------------------------------- the gate

  /** The move boots a MicroVM and gets as far as arming its interface. */
  ghost predicate Arms(w: Wiring, n: Node, move: Move) {
    && move.BootPod? && Identity(w, move.spec, move.boot).Some? && PairOffset(n.alloc).Some?
    && (w.registry ==> move.boot.registered) && Armed(w, move.spec.runtime, move.boot)
  }

  ghost predicate OpensGate(w: Wiring, n: Node, move: Move) {
    Arms(w, n, move) && (RuntimeBoots(w, move.spec.runtime, move.boot) || !move.boot.gateClosed)
  }

  /** A boot that fails after arming closes the gate, and so does the eviction of a MicroVM
      that stops, unless the write fails. */
  ghost predicate ClosesGate(w: Wiring, n: Node, move: Move) {
    || (Arms(w, n, move) && !RuntimeBoots(w, move.spec.runtime, move.boot) && move.boot.gateClosed)
    || (&& move.EvictPod? && move.id in n.pods && n.pods[move.id].runtime.CloudHypervisor?
        && Handle(n.pods[move.id]) in n.vms && w.guard && move.release.stopped && move.release.gateClosed)
  }

  lemma MoveGate(w: Wiring, n: Node, move: Move, m: Node)
    requires MoveTo(w, n, move, m)
    ensures m.gateOpen <==> OpensGate(w, n, move) || (n.gateOpen && !ClosesGate(w, n, move))
  {
    hide Boot, Evict, Safe, PairOffset, Identity, RuntimeBoots, Armed;
    match move {
      case BootPod(spec, f) => BootGate(w, n, spec, f);
      case EvictPod(id, f) => EvictGate(w, n, id, f);
      case Observe(_) =>
    }
  }

  lemma BootGate(w: Wiring, n: Node, spec: WorkloadSpec, f: BootOutcome)
    requires Safe(n.alloc)
    ensures var m, move := Boot(w, n, spec, f).0, BootPod(spec, f);
            m.gateOpen <==> OpensGate(w, n, move) || (n.gateOpen && !ClosesGate(w, n, move))
  {
    hide Safe, PairOffset, AllocatePair, ReleasePair, Interface, BootedPod, Identity, NextCid;
  }

  lemma EvictGate(w: Wiring, n: Node, id: string, f: EvictOutcome)
    ensures var m := Evict(w, n, id, f).0;
            m.gateOpen <==> n.gateOpen && !ClosesGate(w, n, EvictPod(id, f))
  {
    hide ReleasePair, Interface, BeginEviction;
  }

  /** Over every run the gate is open at the end exactly when some boot opened it and nothing
      since closed it. */
  lemma {:induction false} RunGateIff(w: Wiring, a: Alloc, states: seq<Node>, moves: seq<Move>)
    requires Moves(w, states, moves) && states[0] == StartUp(a)
    ensures states[|moves|].gateOpen <==>
            exists i | 0 <= i < |moves| :: OpensGate(w, states[i], moves[i]) && StaysOpen(w, states, moves, i)
  {
    hide MoveTo, OpensGate, ClosesGate;
    if moves != [] {
      var k := |moves| - 1;
      var s, b := states[..k + 1], moves[..k];
      RunGateIff(w, a, s, b);
      MoveGate(w, states[k], moves[k], states[k + 1]);
      forall i | 0 <= i < k
        ensures OpensGate(w, s[i], b[i]) == OpensGate(w, states[i], moves[i])
        ensures StaysOpen(w, states, moves, i) <==> StaysOpen(w, s, b, i) && !ClosesGate(w, states[k], moves[k])
      {
        StaysLonger(w, states, moves, i);
      }
      assert StaysOpen(w, states, moves, k);
    }
  }

  ghost predicate StaysOpen(w: Wiring, states: seq<Node>, moves: seq<Move>, i: nat)
    requires |states| == |moves| + 1
  {
    forall k | i < k < |moves| :: !ClosesGate(w, states[k], moves[k])
  }

  lemma StaysLonger(w: Wiring, states: seq<Node>, moves: seq<Move>, i: nat)
    requires |states| == |moves| + 1 && i < |moves| - 1
    ensures var k := |moves| - 1;
            StaysOpen(w, states, moves, i) <==>
            StaysOpen(w, states[..k + 1], moves[..k], i) && !ClosesGate(w, states[k], moves[k])
  {
    hide ClosesGate;
    var k := |moves| - 1;
    var s, b := states[..k + 1], moves[..k];
    if StaysOpen(w, s, b, i) && !ClosesGate(w, states[k], moves[k]) {
      forall j | i < j < |moves| ensures !ClosesGate(w, states[j], moves[j]) {
        if j < k { assert !ClosesGate(w, s[j], b[j]); }
      }
    }
    if StaysOpen(w, states, moves, i) {
      forall j | i < j < |b| ensures !ClosesGate(w, s[j], b[j]) { assert !ClosesGate(w, states[j], moves[j]); }
    }
  }

  // ---------------------------------------------------------------- failed boots in any run

  /** The pod id, if the move boots one, holds no /30 yet. */
  ghost predicate Unpaired(n: Node, move: Move) {
    move.BootPod? && move.spec.podSpec.Some? ==> HoldsNothing(n.alloc, PodId(move.spec))
  }

  /** In every such run a boot that fails at any stage, for an id that holds nothing at that
      moment, restores every store but the identity map and leaves the same /30s grantable;
      and it restores the identity map exactly when what it registered is put back. */
  lemma FailedBootInRun(w: Wiring, ip: u32, prefix: u32, states: seq<Node>, moves: seq<Move>, i: nat)
    requires New(ip, prefix).Ok? && Moves(w, states, moves) && states[0] == StartUp(New(ip, prefix).value)
    requires (forall k | 0 <= k < |moves| :: Suffixless(moves[k])) && 3 + |moves| < 0x1_0000_0000
    requires i < |moves| && moves[i].BootPod? && Unpaired(states[i], moves[i])
    requires Safe(states[i].alloc) && Boot(w, states[i], moves[i].spec, moves[i].boot).1.BootFailed?
    ensures var n, m := states[i], states[i + 1];
            && Restored(n, m.(identities := n.identities)) && Grantable(m.alloc) == Grantable(n.alloc)
            && (Restored(n, m) <==> IdentityBack(w, n, moves[i].spec, moves[i].boot))
  {
    hide New, Boot, Restored, IdentityBack, Paired, Grantable, Interface, HoldsNothing;
    RunSound(w, ip, prefix, states[..i + 1], moves[..i]);
    assert MoveTo(w, states[i], moves[i], states[i + 1]);
    assert CidFree(states[i], states[i].nextCid);
    FailedBootRestores(w, states[i], moves[i].spec, moves[i].boot);
  }

  /** A registered address is held by the pod it is on record for. */
  ghost predicate Owned(n: Node, ip: u32) {
    var o := ip - n.alloc.base;
    o in n.alloc.held && GwFree(n.alloc.held[o]) && n.alloc.held[o] in n.sourceIps && n.sourceIps[n.alloc.held[o]] == ip
  }

  ghost predicate Settled(w: Wiring, n: Node) {
    && (!w.registry ==> n.identities == map[])
    && forall ip | ip in n.identities :: Owned(n, ip)
  }

  predicate Unregisters(move: Move) {
    match move
    case BootPod(_, f) => f.unregistered
    case EvictPod(_, f) => f.unregistered
    case Observe(_) => true
  }

  lemma GrantedUnregistered(w: Wiring, n: Node, spec: WorkloadSpec, f: BootOutcome)
    requires Safe(n.alloc) && Settled(w, n) && f.unregistered
    ensures IdentityBack(w, n, spec, f)
  {
    hide Safe, PairOffset, Identity;
    if PairOffset(n.alloc).Some? { GrantedAddress(n.alloc); }
  }

  lemma BootedAddresses(w: Wiring, n: Node, spec: WorkloadSpec, f: BootOutcome)
    requires Safe(n.alloc) && Boot(w, n, spec, f).1.Booted?
    ensures spec.podSpec.Some?
    ensures var m, id := Boot(w, n, spec, f).0, PodId(spec);
            && PairOffset(n.alloc).Some? && m.alloc == AllocatePair(n.alloc, id)
            && (!w.registry ==> m.identities == n.identities)
            && (w.registry ==>
                  var wl := n.alloc.base + PairOffset(n.alloc).value + 1;
                  m.sourceIps == n.sourceIps[id := wl] && m.identities.Keys == n.identities.Keys + {wl})
  {
    hide Safe, PairOffset, AllocatePair, ReleasePair, Started, RuntimeBoots, CidsStep;
    if Identity(w, spec, f).Some? && PairOffset(n.alloc).Some? {
      GrantedAddress(n.alloc);
      var fp, wl := Identity(w, spec, f).value, n.alloc.base + PairOffset(n.alloc).value + 1;
      var ids := if w.registry then n.identities[wl := fp] else n.identities;
      var n' := n.(alloc := AllocatePair(n.alloc, PodId(spec)), identities := ids);
      if RuntimeBoots(w, spec.runtime, f) { StartedCids(w, n', spec.runtime, f, wl); }
    }
  }

  lemma BootSettled(w: Wiring, n: Node, spec: WorkloadSpec, f: BootOutcome)
    requires Sound(n) && Settled(w, n) && f.unregistered
    requires spec.podSpec.Some? ==> GwFree(PodId(spec)) && HoldsNothing(n.alloc, PodId(spec))
    ensures Settled(w, Boot(w, n, spec, f).0)
  {
    hide Boot, Interface, PairOffset, AllocatePair, Safe, IdentityBack, Grantable;
    var (m, r) := Boot(w, n, spec, f);
    if r.BootFailed? {
      assert CidFree(n, n.nextCid);
      FailedBootRestores(w, n, spec, f);
      GrantedUnregistered(w, n, spec, f);
      RestoredSettled(w, n, m);
    } else {
      BootedAddresses(w, n, spec, f);
      if w.registry {
        GrantedSettled(w, n, m, PodId(spec));
      } else {
        assert m.identities == map[];
      }
    }
  }

  lemma RestoredSettled(w: Wiring, n: Node, m: Node)
    requires Settled(w, n) && Restored(n, m)
    ensures Settled(w, m)
  {
    forall ip | ip in m.identities ensures Owned(m, ip) { assert Owned(n, ip); }
  }

  lemma GrantedSettled(w: Wiring, n: Node, m: Node, id: string)
    requires Paired(n.alloc) && Settled(w, n) && w.registry && GwFree(id) && HoldsNothing(n.alloc, id)
    requires PairOffset(n.alloc).Some? && m.alloc == AllocatePair(n.alloc, id)
    requires var wl := n.alloc.base + PairOffset(n.alloc).value + 1;
             wl < 0x1_0000_0000 && m.sourceIps == n.sourceIps[id := wl] && m.identities.Keys == n.identities.Keys + {wl}
    ensures Settled(w, m)
  {
    hide PairOffset, AllocatePair, Paired, Safe, GwFree, Gateway;
    PairedSafe(n.alloc);
    AllocateShape(n.alloc, id);
    GrantedAddress(n.alloc);
    HeldOnlyInFull(n.alloc, id);
    var o := PairOffset(n.alloc).value;
    forall ip | ip in n.identities ensures Owned(m, ip) {
      assert Owned(n, ip);
      assert ip - n.alloc.base !in PairOf(n.alloc, id);
    }
    assert Owned(m, n.alloc.base + o + 1);
  }

  lemma EvictSettled(w: Wiring, n: Node, id: string, f: EvictOutcome)
    requires Settled(w, n) && f.unregistered && (forall k | k in n.pods :: GwFree(k))
    ensures Settled(w, Evict(w, n, id, f).0)
  {
    hide Evict, Settled, ReleasePair, GwFree;
    var m := Evict(w, n, id, f).0;
    EvictAddresses(w, n, id, f);
    if id in n.pods && StopOk(n, n.pods[id], f) && id in n.sourceIps {
      ReleasedSettled(w, n, m, id);
    } else {
      SameSettled(w, n, m);
    }
  }

  lemma EvictAddresses(w: Wiring, n: Node, id: string, f: EvictOutcome)
    ensures var m := Evict(w, n, id, f).0;
            if id in n.pods && StopOk(n, n.pods[id], f) && id in n.sourceIps then
              && m.alloc == ReleasePair(n.alloc, id) && m.sourceIps == n.sourceIps - {id}
              && m.identities == if w.registry && f.unregistered then n.identities - {n.sourceIps[id]} else n.identities
            else m.alloc == n.alloc && m.sourceIps == n.sourceIps && m.identities == n.identities
  {
    hide ReleasePair, Halted;
    if id in n.pods { HaltShrinks(w, n, id, f); }
    assert id !in n.sourceIps ==> n.sourceIps - {id} == n.sourceIps;
  }

  lemma SameSettled(w: Wiring, n: Node, m: Node)
    requires Settled(w, n) && m.alloc == n.alloc && m.identities == n.identities && m.sourceIps == n.sourceIps
    ensures Settled(w, m)
  {
    forall ip | ip in m.identities ensures Owned(m, ip) { assert Owned(n, ip); }
  }

  lemma ReleasedSettled(w: Wiring, n: Node, m: Node, id: string)
    requires Settled(w, n) && GwFree(id) && id in n.sourceIps && m.alloc == ReleasePair(n.alloc, id)
    requires m.sourceIps == n.sourceIps - {id}
    requires m.identities == if w.registry then n.identities - {n.sourceIps[id]} else n.identities
    ensures Settled(w, m)
  {
    GatewayLabels();
    forall ip | ip in m.identities ensures Owned(m, ip) { assert Owned(n, ip); }
  }

  lemma MoveSettled(w: Wiring, n: Node, move: Move, m: Node)
    requires Sound(n) && Settled(w, n) && MoveTo(w, n, move, m)
    requires Suffixless(move) && Unpaired(n, move) && Unregisters(move)
    ensures Settled(w, m)
  {
    hide Boot, Evict, Settled, GwFree, HoldsNothing, Paired;
    match move {
      case BootPod(spec, f) => BootSettled(w, n, spec, f);
      case EvictPod(id, f) => EvictSettled(w, n, id, f);
      case Observe(_) => SameSettled(w, n, m);
    }
  }

  /** When unregistering succeeds and ids are booted only while they hold nothing, whatever else
      fails and whatever is wired: registered addresses are held by the pod on record for
      them, so every failed boot restores the node in full. */
  lemma {:induction false} RunSettled(w: Wiring, ip: u32, prefix: u32, states: seq<Node>, moves: seq<Move>)
    requires New(ip, prefix).Ok? && Moves(w, states, moves) && states[0] == StartUp(New(ip, prefix).value)
    requires 3 + |moves| < 0x1_0000_0000
    requires forall i | 0 <= i < |moves| ::
               Suffixless(moves[i]) && Unpaired(states[i], moves[i]) && Unregisters(moves[i])
    ensures Settled(w, states[|moves|])
    ensures forall spec, f: BootOutcome | Safe(states[|moves|].alloc) && f.unregistered ::
              IdentityBack(w, states[|moves|], spec, f)
  {
    hide New, MoveTo, Sound, Suffixless, Unpaired, Unregisters, Settled, IdentityBack, Safe;
    if moves == [] {
      StartUpSettled(w, New(ip, prefix).value);
    } else {
      var k := |moves| - 1;
      RunSound(w, ip, prefix, states[..k + 1], moves[..k]);
      RunSettled(w, ip, prefix, states[..k + 1], moves[..k]);
      MoveSettled(w, states[k], moves[k], states[k + 1]);
    }
    forall spec, f: BootOutcome | Safe(states[|moves|].alloc) && f.unregistered
      ensures IdentityBack(w, states[|moves|], spec, f)
    {
      GrantedUnregistered(w, states[|moves|], spec, f);
    }
  }

  lemma StartUpSettled(w: Wiring, a: Alloc)
    ensures Settled(w, StartUp(a))
  {
  }

  // ---------------------------------------------------------------- frames are such moves

  lemma {:induction false} EvictAllMoves(w: Wiring, n: Node, ids: seq<string>, f: string -> EvictOutcome)
    returns (states: seq<Node>, moves: seq<Move>)
    ensures Moves(w, states, moves) && |moves| == |ids|
    ensures states[0] == n && states[|moves|] == EvictAll(w, n, ids, f)
    ensures forall i | 0 <= i < |moves| :: moves[i] == EvictPod(ids[i], f(ids[i]))
  {
    hide Evict;
    if ids == [] {
      states, moves := [n], [];
    } else {
      var k := |ids| - 1;
      var s, m := EvictAllMoves(w, n, ids[..k], f);
      states, moves := s + [EvictAll(w, n, ids, f)], m + [EvictPod(ids[k], f(ids[k]))];
    }
  }

  lemma {:induction false} BootAllMoves(w: Wiring, n: Node, specs: seq<WorkloadSpec>, f: nat -> BootOutcome)
    returns (states: seq<Node>, moves: seq<Move>)
    requires Safe(n.alloc)
    ensures Moves(w, states, moves) && |moves| == |specs|
    ensures states[0] == n && states[|moves|] == BootAll(w, n, specs, f).0
    ensures forall i | 0 <= i < |moves| :: moves[i] == BootPod(specs[i], f(i))
  {
    hide Boot, Safe;
    if specs == [] {
      states, moves := [n], [];
    } else {
      var k := |specs| - 1;
      var s, m := BootAllMoves(w, n, specs[..k], f);
      states, moves := s + [BootAll(w, n, specs, f).0], m + [BootPod(specs[k], f(k))];
    }
  }

  lemma JoinMoves(w: Wiring, s: seq<Node>, a: seq<Move>, t: seq<Node>, b: seq<Move>)
    requires Moves(w, s, a) && Moves(w, t, b) && s[|a|] == t[0]
    ensures Moves(w, s + t[1..], a + b) && (s + t[1..])[|a + b|] == t[|b|]
  {
    hide MoveTo;
    var states, moves := s + t[1..], a + b;
    forall i | 0 <= i < |moves| ensures MoveTo(w, states[i], moves[i], states[i + 1]) {
      if i >= |a| { assert moves[i] == b[i - |a|] && states[i + 1] == t[i - |a| + 1] && states[i] == t[i - |a|]; }
    }
  }

  /** Reconciling a frame, whatever fails in it, is a run of such moves: an eviction for each id
      listed, then a boot for each missing spec. */
  lemma FrameIsMoves(w: Wiring, n: Node, frame: Frame) returns (states: seq<Node>, moves: seq<Move>)
    requires Safe(n.alloc)
    ensures Moves(w, states, moves) && states[0] == n && states[|moves|] == ReconcileFrame(w, n, frame).0
    ensures forall move | move in moves ::
              || (move.EvictPod? && move.id in frame.order)
              || (move.BootPod? && move.spec in Missing(frame.desired, RunningIds(n.pods)))
  {
    hide MoveTo, Safe, BootAll, EvictAll;
    EvictAllSafe(w, n, frame.order, frame.evictions);
    var specs := Missing(frame.desired, RunningIds(n.pods));
    var s, a := EvictAllMoves(w, n, frame.order, frame.evictions);
    var t, b := BootAllMoves(w, EvictAll(w, n, frame.order, frame.evictions), specs, frame.boots);
    JoinMoves(w, s, a, t, b);
    states, moves := s + t[1..], a + b;
  }

  // ---------------------------------------------------------------- stuck evictions

  /** A pod stays in the table after an eviction exactly when stopping it or removing its
      scratch failed, and then it is terminating. */
  lemma StuckEvictionIff(w: Wiring, n: Node, id: string, f: EvictOutcome)
    requires id in n.pods && Active(n.pods[id])
    requires n.pods[id].runtime.CloudHypervisor? ==> exists c :: VmOf(n, c, id) && c in n.vms
    ensures var m := Evict(w, n, id, f).0;
            && (id in m.pods <==> !(f.stopped && f.scratchRemoved))
            && (id in m.pods ==> m.pods[id].state.Terminating?)
  {
    EvictedPods(w, n, id, f);
    hide Evict;
  }

  /** Frames, each listing for eviction what it no longer desires, with any calls failing. */
  ghost predicate Frames(w: Wiring, states: seq<Node>, frames: seq<Frame>) {
    && |states| == |frames| + 1
    && forall k | 0 <= k < |frames| ::
         && Safe(states[k].alloc) && Lists(frames[k].order, Surplus(frames[k].desired, states[k].pods))
         && states[k + 1] == ReconcileFrame(w, states[k], frames[k]).0
  }

  predicate Mentions(frame: Frame, id: string) {
    exists i | 0 <= i < |frame.desired| :: frame.desired[i].podSpec.Some? && PodId(frame.desired[i]) == id
  }

  lemma {:induction false} EvictAllKeeps(w: Wiring, n: Node, ids: seq<string>, f: string -> EvictOutcome, id: string)
    requires id in n.pods && id !in ids
    ensures var m := EvictAll(w, n, ids, f); id in m.pods && m.pods[id] == n.pods[id]
  {
    hide Evict;
    if ids != [] {
      var k := |ids| - 1;
      EvictAllKeeps(w, n, ids[..k], f, id);
      var m := EvictAll(w, n, ids[..k], f);
      if ids[k] in m.pods { EvictedPods(w, m, ids[k], f(ids[k])); } else { NotThere(w, m, ids[k], f(ids[k])); }
    }
  }

  lemma NotThere(w: Wiring, n: Node, id: string, f: EvictOutcome)
    requires id !in n.pods
    ensures Evict(w, n, id, f) == (n, EvictFailed)
  {
  }

  lemma BootKeeps(w: Wiring, n: Node, spec: WorkloadSpec, f: BootOutcome, id: string)
    requires Safe(n.alloc) && id in n.pods && (spec.podSpec.Some? ==> PodId(spec) != id)
    ensures var m := Boot(w, n, spec, f).0; id in m.pods && m.pods[id] == n.pods[id]
  {
    hide Safe, PairOffset, AllocatePair, ReleasePair, BootedPod;
  }

  lemma {:induction false} BootAllKeeps(w: Wiring, n: Node, specs: seq<WorkloadSpec>, f: nat -> BootOutcome,
                                        id: string)
    requires Safe(n.alloc) && id in n.pods
    requires forall i | 0 <= i < |specs| :: specs[i].podSpec.Some? ==> PodId(specs[i]) != id
    ensures var m := BootAll(w, n, specs, f).0; id in m.pods && m.pods[id] == n.pods[id]
  {
    hide Boot, Safe;
    if specs != [] {
      var k := |specs| - 1;
      BootAllKeeps(w, n, specs[..k], f, id);
      BootKeeps(w, BootAll(w, n, specs[..k], f).0, specs[k], f(k), id);
    }
  }

  lemma FrameKeepsStuck(w: Wiring, n: Node, frame: Frame, id: string)
    requires Safe(n.alloc) && Lists(frame.order, Surplus(frame.desired, n.pods)) && !Mentions(frame, id)
    requires id in n.pods && !Active(n.pods[id])
    ensures id !in frame.order
    ensures var m := ReconcileFrame(w, n, frame).0; id in m.pods && m.pods[id] == n.pods[id]
  {
    hide Safe, Lists, EvictAll, BootAll, RunningIds;
    Listed(frame.order, Surplus(frame.desired, n.pods));
    EvictAllSafe(w, n, frame.order, frame.evictions);
    EvictAllKeeps(w, n, frame.order, frame.evictions, id);
    var specs := Missing(frame.desired, RunningIds(n.pods));
    forall i | 0 <= i < |specs| ensures specs[i].podSpec.Some? ==> PodId(specs[i]) != id {
      assert specs[i] in specs && specs[i] in frame.desired;
    }
    BootAllKeeps(w, EvictAll(w, n, frame.order, frame.evictions), specs, frame.boots, id);
  }

  /** Over every run of frames, whatever fails in them: a pod left terminating is evicted by no
      later frame and stays in the table as it is, until a frame desires its id again. */
  lemma {:induction false} StuckForGood(w: Wiring, states: seq<Node>, frames: seq<Frame>, id: string, i: nat, j: nat)
    requires Frames(w, states, frames) && i <= j <= |frames| && id in states[i].pods && !Active(states[i].pods[id])
    requires forall k | i <= k < j :: !Mentions(frames[k], id)
    ensures id in states[j].pods && states[j].pods[id] == states[i].pods[id]
    ensures forall k | i <= k < j :: id !in frames[k].order
    decreases j
  {
    hide ReconcileFrame, Mentions, Lists, Surplus, Safe;
    if i < j {
      StuckForGood(w, states, frames, id, i, j - 1);
      FrameKeepsStuck(w, states[j - 1], frames[j - 1], id);
    }
  }

  /** And when its id is booted again after a stop that failed, the id holds a second /30 beside
      the one it never gave back. */
  lemma SecondPair(w: Wiring, n: Node, id: string, e: EvictOutcome, spec: WorkloadSpec, f: BootOutcome, j: nat)
    requires Paired(n.alloc) && id in n.pods && n.pods[id].runtime.Containerd? && !e.stopped && HeldBy(n.alloc, j, id)
    requires spec.podSpec.Some? && PodId(spec) == id && GwFree(id)
    requires var m := Evict(w, n, id, e).0; Safe(m.alloc) && Boot(w, m, spec, f).1.Booted?
    ensures var m := Boot(w, Evict(w, n, id, e).0, spec, f).0;
            HeldBy(m.alloc, j, id) && exists k: nat :: k != j && HeldBy(m.alloc, k, id)
  {
    hide Evict, Boot, PairOffset, AllocatePair, Paired, Safe, Grantable;
    var m := Evict(w, n, id, e).0;
    EvictAddresses(w, n, id, e);
    BootAllocates(w, m, spec, f);
    PairedAllocate(n.alloc, id);
    PairedSafe(n.alloc);
    GrantedAddress(n.alloc);
    PairOffsetFacts(n.alloc);
    var k := PairOffset(n.alloc).value / 4;
    assert HeldBy(AllocatePair(n.alloc, id), k, id) && k != j;
  }

  // ---------------------------------------------------------------- runs that show what fails

  function Plain(registry: bool): Wiring { Wiring(registry, true, false, false, (t, x, r) => Some([])) }

  const BOOTS: BootOutcome := BootOutcome(Some([]), true, true, true, Some(7), true, true, Some([]), true, true, true)

  const RELEASES: EvictOutcome := EvictOutcome(true, true, true, true)

  function Vm(id: string): WorkloadSpec { WorkloadSpec(id, CloudHypervisor, "", Some(PodSpec(None, ""))) }

  function Container(id: string): WorkloadSpec { WorkloadSpec(id, Containerd, "", Some(PodSpec(None, ""))) }

  /** A node on which only pairs were ever granted, none returned, and `k` of them. */
  ghost predicate Opened(n: Node, k: nat) {
    Safe(n.alloc) && n.alloc.free == {} && n.alloc.next == 4 * k + 1 && n.alloc.hostCount == 256
  }

  lemma NextPair(a: Alloc, k: nat, id: string)
    requires Safe(a) && a.free == {} && a.next == 4 * k + 1 && a.hostCount == 256 && k < 4
    ensures PairOffset(a) == Some(a.next) && Safe(AllocatePair(a, id))
    ensures AllocatePair(a, id) == a.(next := 4 * k + 5, held := a.held[a.next := Gateway(id)][a.next + 1 := id])
  {
    SafeStep(a, Pair(id));
    assert Reusables(a.free) == {};
  }

  lemma VmBoots(n: Node, k: nat, id: string)
    requires Opened(n, k) && k < 4 && n.nextCid < 100
    ensures Safe(n.alloc)
    ensures var (m, r) := Boot(Plain(false), n, Vm(id), BOOTS);
            && r == Booted(n.nextCid) && Opened(m, k + 1) && m.vms == n.vms + {n.nextCid} && m.gateOpen
            && m.nextCid == n.nextCid + 1 && VmOf(m, n.nextCid, id)
  {
    hide PairOffset, AllocatePair, ReleasePair, Safe, Interface;
    NextPair(n.alloc, k, id);
  }

  lemma OneMove(w: Wiring, states: seq<Node>, moves: seq<Move>, move: Move, m: Node)
    requires Moves(w, states, moves) && MoveTo(w, states[|moves|], move, m)
    ensures Moves(w, states + [m], moves + [move])
  {
    hide MoveTo;
    var s, a := states + [m], moves + [move];
    forall i | 0 <= i < |a| ensures MoveTo(w, s[i], a[i], s[i + 1]) {
      if i < |moves| { assert MoveTo(w, states[i], moves[i], states[i + 1]); }
    }
  }

  /** One more MicroVM. */
  lemma MoreVms(states: seq<Node>, moves: seq<Move>, k: nat, id: string) returns (s: seq<Node>, a: seq<Move>)
    requires Moves(Plain(false), states, moves) && Opened(states[|moves|], k) && k < 4 && states[|moves|].nextCid < 100
    ensures Moves(Plain(false), s, a) && s[0] == states[0]
    ensures var n, m := states[|moves|], s[|a|];
            && Opened(m, k + 1) && m.vms == n.vms + {n.nextCid} && m.gateOpen
            && m.nextCid == n.nextCid + 1 && VmOf(m, n.nextCid, id)
  {
    hide Moves, Boot, Opened, VmOf;
    Lengths(Plain(false), states, moves);
    var n := states[|moves|];
    VmBoots(n, k, id);
    var m := Boot(Plain(false), n, Vm(id), BOOTS).0;
    OneMove(Plain(false), states, moves, BootPod(Vm(id), BOOTS), m);
    s, a := states + [m], moves + [BootPod(Vm(id), BOOTS)];
  }

  lemma Lengths(w: Wiring, states: seq<Node>, moves: seq<Move>)
    requires Moves(w, states, moves)
    ensures |states| == |moves| + 1
  {
  }

  lemma TwoVms() returns (states: seq<Node>, moves: seq<Move>)
    ensures Moves(Plain(false), states, moves) && New(0xAC1E_0000, 24).Ok?
    ensures states[0] == StartUp(New(0xAC1E_0000, 24).value)
    ensures var n := states[|moves|]; Opened(n, 2) && n.vms == {3, 4} && n.nextCid == 5 && n.gateOpen
  {
    hide MoveTo, Opened, New, VmOf;
    var n := Begin();
    states, moves := [n], [];
    states, moves := MoreVms(states, moves, 0, "a");
    states, moves := MoreVms(states, moves, 1, "b");
  }

  lemma Begin() returns (n: Node)
    ensures New(0xAC1E_0000, 24).Ok? && n == StartUp(New(0xAC1E_0000, 24).value) && Opened(n, 0)
  {
    var a := Slash24();
    n := StartUp(a);
  }

  /** A third MicroVM's boot fails after arming, and the two that run are left behind a closed
      gate. */
  lemma FailedBootClosesGate() returns (states: seq<Node>, moves: seq<Move>)
    ensures Moves(Plain(false), states, moves) && New(0xAC1E_0000, 24).Ok?
    ensures states[0] == StartUp(New(0xAC1E_0000, 24).value)
    ensures var last := states[|moves|]; last.vms == {3, 4} && !last.gateOpen
  {
    hide Boot, Opened, Moves, New;
    states, moves := TwoVms();
    Lengths(Plain(false), states, moves);
    var n, f := states[|moves|], BOOTS.(vmBooted := false);
    VmFails(n, 2, "c", f);
    var m := Boot(Plain(false), n, Vm("c"), f).0;
    OneMove(Plain(false), states, moves, BootPod(Vm("c"), f), m);
    states, moves := states + [m], moves + [BootPod(Vm("c"), f)];
  }

  lemma VmFails(n: Node, k: nat, id: string, f: BootOutcome)
    requires Opened(n, k) && k < 4 && f == BOOTS.(vmBooted := false)
    ensures Safe(n.alloc)
    ensures var (m, r) := Boot(Plain(false), n, Vm(id), f); r.BootFailed? && m.vms == n.vms && !m.gateOpen
  {
    hide PairOffset, AllocatePair, ReleasePair, Safe, Interface;
    NextPair(n.alloc, k, id);
  }

  /** One of three MicroVMs is evicted, and the two that run on are left behind a closed gate. */
  lemma EvictionClosesGate() returns (states: seq<Node>, moves: seq<Move>)
    ensures Moves(Plain(false), states, moves) && New(0xAC1E_0000, 24).Ok?
    ensures states[0] == StartUp(New(0xAC1E_0000, 24).value)
    ensures var last := states[|moves|]; last.vms == {3, 4} && !last.gateOpen
  {
    hide Evict, Opened, Moves, New;
    states, moves := TwoVms();
    states, moves := MoreVms(states, moves, 2, "c");
    Lengths(Plain(false), states, moves);
    var n := states[|moves|];
    VmGoes(n, "c", 5);
    var m := Evict(Plain(false), n, "c", RELEASES).0;
    OneMove(Plain(false), states, moves, EvictPod("c", RELEASES), m);
    states, moves := states + [m], moves + [EvictPod("c", RELEASES)];
  }

  lemma VmGoes(n: Node, id: string, cid: u32)
    requires VmOf(n, cid, id) && cid in n.vms
    ensures var m := Evict(Plain(false), n, id, RELEASES).0; m.vms == n.vms - {cid} && !m.gateOpen
  {
    hide ReleasePair, Interface;
  }

  /** Without a registry the /30 of a pod that is gone stays held. */
  lemma PairNeverReturned() returns (states: seq<Node>, moves: seq<Move>)
    ensures Moves(Plain(false), states, moves) && New(0xAC1E_0000, 24).Ok?
    ensures states[0] == StartUp(New(0xAC1E_0000, 24).value)
    ensures var last := states[|moves|]; last.pods == map[] && HeldBy(last.alloc, 0, "a")
  {
    hide Boot, Evict, Moves, Opened, New;
    var n0 := Begin();
    ContainerBoots(n0, "a");
    var w, n1 := Plain(false), Boot(Plain(false), n0, Container("a"), BOOTS).0;
    var n2 := Evict(w, n1, "a", RELEASES).0;
    ContainerGoes(n1, "a");
    NoMoves(w, n0);
    OneMove(w, [n0], [], BootPod(Container("a"), BOOTS), n1);
    OneMove(w, [n0] + [n1], [] + [BootPod(Container("a"), BOOTS)], EvictPod("a", RELEASES), n2);
    states := [n0] + [n1] + [n2];
    moves := [] + [BootPod(Container("a"), BOOTS)] + [EvictPod("a", RELEASES)];
  }

  lemma NoMoves(w: Wiring, n: Node)
    ensures Moves(w, [n], [])
  {
  }

  lemma ContainerBoots(n: Node, id: string)
    requires Opened(n, 0) && n.pods == map[] && n.sourceIps == map[]
    ensures Safe(n.alloc)
    ensures var m := Boot(Plain(false), n, Container(id), BOOTS).0;
            && m.pods.Keys == {id} && m.pods[id].runtime.Containerd? && m.sourceIps == map[] && HeldBy(m.alloc, 0, id)
            && Safe(m.alloc) && m.alloc.free == {} && m.alloc.next == 5 && m.alloc.hostCount == 256
  {
    hide Safe, PairOffset, AllocatePair, ReleasePair, Gateway;
    NextPair(n.alloc, 0, id);
  }

  lemma ContainerGoes(n: Node, id: string)
    requires n.pods.Keys == {id} && n.pods[id].runtime.Containerd? && n.sourceIps == map[]
    ensures var m := Evict(Plain(false), n, id, RELEASES).0; m.pods == map[] && m.alloc == n.alloc
  {
    hide Interface;
    assert Evict(Plain(false), n, id, RELEASES).0.pods.Keys == {};
  }

  /** A pod whose stop failed is still in the table when the failed boot of its id takes its /30
      away. */
  lemma RollbackTakesPair() returns (states: seq<Node>, moves: seq<Move>)
    ensures Moves(Plain(false), states, moves) && New(0xAC1E_0000, 24).Ok?
    ensures states[0] == StartUp(New(0xAC1E_0000, 24).value) && |moves| == 3
    ensures HeldBy(states[2].alloc, 0, "a") && moves[2].BootPod?
    ensures "a" in states[3].pods && HoldsNothing(states[3].alloc, "a")
  {
    hide Boot, Evict, Moves, Opened, New, HoldsNothing, HeldBy;
    var w, stuck, f := Plain(false), RELEASES.(stopped := false), BOOTS.(containerPid := None);
    var n0 := Begin();
    ContainerBoots(n0, "a");
    var n1 := Boot(w, n0, Container("a"), BOOTS).0;
    var n2 := Evict(w, n1, "a", stuck).0;
    EvictAddresses(w, n1, "a", stuck);
    EvictedPods(w, n1, "a", stuck);
    ContainerFails(n2, "a", f);
    var n3 := Boot(w, n2, Container("a"), f).0;
    NoMoves(w, n0);
    OneMove(w, [n0], [], BootPod(Container("a"), BOOTS), n1);
    OneMove(w, [n0] + [n1], [] + [BootPod(Container("a"), BOOTS)], EvictPod("a", stuck), n2);
    OneMove(w, [n0] + [n1] + [n2], [] + [BootPod(Container("a"), BOOTS)] + [EvictPod("a", stuck)],
      BootPod(Container("a"), f), n3);
    states := [n0] + [n1] + [n2] + [n3];
    moves := [] + [BootPod(Container("a"), BOOTS)] + [EvictPod("a", stuck)] + [BootPod(Container("a"), f)];
  }

  lemma ContainerFails(n: Node, id: string, f: BootOutcome)
    requires Safe(n.alloc) && n.alloc.free == {} && n.alloc.next == 5 && n.alloc.hostCount == 256
    requires f == BOOTS.(containerPid := None)
    ensures var m := Boot(Plain(false), n, Container(id), f).0; m.pods == n.pods && HoldsNothing(m.alloc, id)
  {
    hide Safe, PairOffset, AllocatePair, Gateway;
    NextPair(n.alloc, 1, id);
    var m := Boot(Plain(false), n, Container(id), f).0;
    assert m.alloc == ReleasePair(AllocatePair(n.alloc, id), id);
    assert forall o | o in m.alloc.held :: m.alloc.held[o] != id;
  }

  /** One frame lists a workload twice, everything succeeds, and the accounts no longer agree. */
  lemma ListedTwice() returns (frame: Frame, n: Node)
    ensures New(0xAC1E_0000, 24).Ok? && n == StartUp(New(0xAC1E_0000, 24).value) && Safe(n.alloc)
    ensures Accounted(Plain(true), n) && !Accounted(Plain(true), ReconcileFrame(Plain(true), n, frame).0)
    ensures frame.desired == [Container("a"), Container("a")] && frame.order == []
    ensures (forall id :: frame.evictions(id) == RELEASES) && forall i :: frame.boots(i) == BOOTS
  {
    hide Boot, Accounted, New, Opened, Safe, Identity, PairOffset;
    n := Begin();
    var w, a := Plain(true), Container("a");
    frame := Frame([a, a], [], _ => RELEASES, _ => BOOTS);
    StartUpAccounted(w, 0xAC1E_0000, 24);
    TwiceBooted(w, n, a, frame);
    RegisteredBoots(n, "a");
    var m := Boot(w, n, a, BOOTS).0;
    BootAccountedIff(w, n, a, BOOTS);
    BootAccountedIff(w, m, a, BOOTS);
  }

  lemma TwiceBooted(w: Wiring, n: Node, spec: WorkloadSpec, frame: Frame)
    requires Safe(n.alloc) && n.pods == map[] && frame == Frame([spec, spec], [], frame.evictions, _ => BOOTS)
    ensures ReconcileFrame(w, n, frame).0 == Boot(w, Boot(w, n, spec, BOOTS).0, spec, BOOTS).0
  {
    hide Boot, Safe;
    assert RunningIds(n.pods) == {};
    MissingAll(frame.desired);
    var specs, f := frame.desired, frame.boots;
    assert specs[..1] == [spec] && [spec][..0] == [];
    assert BootAll(w, n, [spec], f).0 == Boot(w, n, spec, f(0)).0;
    assert BootAll(w, n, specs, f).0 == Boot(w, BootAll(w, n, [spec], f).0, spec, f(1)).0;
    assert EvictAll(w, n, [], frame.evictions) == n;
  }

  lemma {:induction false} MissingAll(specs: seq<WorkloadSpec>)
    ensures Missing(specs, {}) == specs
  {
    if specs != [] { MissingAll(specs[1..]); }
  }

  lemma RegisteredBoots(n: Node, id: string)
    requires Opened(n, 0)
    ensures Safe(n.alloc)
    ensures var w := Plain(true);
            var m := Boot(w, n, Container(id), BOOTS).0;
            && id in m.pods && m.nextCid == n.nextCid && PairOffset(m.alloc).Some?
            && Identity(w, Container(id), BOOTS).Some?
  {
    hide Safe, PairOffset, AllocatePair, ReleasePair, Interface;
    NextPair(n.alloc, 0, id);
    NextPair(AllocatePair(n.alloc, id), 1, id);
  }

  /** A boot fails, its identity cannot be unregistered, and the entry stays. */
  lemma IdentityStays() returns (states: seq<Node>, moves: seq<Move>)
    ensures Moves(Plain(true), states, moves) && New(0xAC1E_0000, 24).Ok?
    ensures states[0] == StartUp(New(0xAC1E_0000, 24).value)
    ensures var last := states[|moves|]; last.pods == map[] && last.alloc.held == map[] && last.identities != map[]
  {
    hide Boot, Moves, Opened, New;
    var n0 := Begin();
    var f := BOOTS.(containerPid := None, unregistered := false);
    IdentityLeftBehind(n0, "a", f);
    var n1 := Boot(Plain(true), n0, Container("a"), f).0;
    NoMoves(Plain(true), n0);
    OneMove(Plain(true), [n0], [], BootPod(Container("a"), f), n1);
    states, moves := [n0] + [n1], [] + [BootPod(Container("a"), f)];
  }

  lemma IdentityLeftBehind(n: Node, id: string, f: BootOutcome)
    requires Opened(n, 0) && n.pods == map[] && n.alloc.held == map[]
    requires f == BOOTS.(containerPid := None, unregistered := false)
    ensures Safe(n.alloc)
    ensures var m := Boot(Plain(true), n, Container(id), f).0;
            m.pods == map[] && m.alloc.held == map[] && m.identities != map[]
  {
    hide Safe, PairOffset, AllocatePair, Interface;
    NextPair(n.alloc, 0, id);
    var m := Boot(Plain(true), n, Container(id), f).0;
    assert n.alloc.base + 2 in m.identities;
    assert PairOf(AllocatePair(n.alloc, id), id) == {1, 2};
  }
}
