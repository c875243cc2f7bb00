/** Probe results drive a pod between booting and running, restart it and emit events
    (src/workloads/probe_loop.rs), policy and route updates mark its readiness gates
    (src/wiring.rs), and eviction may take it at any point (src/workloads/pod_manager.rs). */
module PodLifecycle {
  import opened Base
  import opened Pods

  /** The events an input gives rise to. */
  datatype Events = Events(probeFailed: bool, started: bool, backOff: bool)

  const QUIET: Events := Events(false, false, false)

  /** What can happen to a pod: a probe result, the start of an eviction or its end, a policy
      sync that succeeded, or a route update that finds its dependencies routed or not. */
  datatype Input =
    | Tick(live: bool, ready: bool, allPassing: bool, failed: bool)
    | Evict
    | Finish
    | Enforce
    | Reroute(connected: bool)

  /** The readiness and liveness verdicts, and the flags that gate and edge-trigger the
      failure event. */
  function Marked(pod: Pod, x: Input): (Pod, bool)
    requires x.Tick?
  {
    var p := pod.(probeLive := x.live, probeReady := x.ready, probeEverPassed := pod.probeEverPassed || x.allPassing);
    if x.failed && p.probeEverPassed && !p.probeFailureReported then (p.(probeFailureReported := true), true)
    else if !x.failed then (p.(probeFailureReported := false), false)
    else (p, false)
  }

  /** Booting to running once all probes pass. */
  function Promoted(pod: Pod, x: Input): Pod
    requires x.Tick?
  {
    if pod.state.Booting? && x.allPassing then pod.(state := Running) else pod
  }

  /** A pod that is not live restarts, unless it has used up its restarts. */
  function Restarted(pod: Pod, max: nat): (Pod, bool) {
    if pod.restartCount >= max then (pod.(probeLive := false), true)
    else (pod.(restartCount := pod.restartCount + 1, state := Booting, probeFailureReported := false), false)
  }

  function Step(pod: Pod, x: Input, max: nat): (Pod, Events) {
    match x
    case Tick(_, _, _, _) =>
      var (p, probeFailed) := Marked(pod, x);
      var (q, backOff) := if pod.state.Running? && !x.live then Restarted(Promoted(p, x), max)
        else (Promoted(p, x), false);
      (q, Events(probeFailed, pod.state.Booting? && x.allPassing, backOff))
    case Evict => (BeginEviction(pod), QUIET)
    case Finish => (if pod.state.Terminating? then pod.(state := Stopped) else pod, QUIET)
    case Enforce => (pod.(policyEnforced := true), QUIET)
    case Reroute(connected) => (pod.(routerConnected := connected), QUIET)
  }

  /** A pod as booting leaves it. */
  ghost predicate Fresh(pod: Pod) {
    && pod.state.Booting? && pod.restartCount == 0 && !pod.probeEverPassed && !pod.probeFailureReported
    && pod.started && !pod.policyEnforced && !pod.routerConnected && !pod.probeLive && !pod.probeReady
  }

  ghost predicate Run(pods: seq<Pod>, xs: seq<Input>, max: nat) {
    && |pods| == |xs| + 1 && Fresh(pods[0])
    && forall i | 0 <= i < |xs| :: pods[i + 1] == Step(pods[i], xs[i], max).0
  }

  ghost function Emitted(pods: seq<Pod>, xs: seq<Input>, max: nat, i: nat): Events
    requires |pods| == |xs| + 1 && i < |xs|
  {
    Step(pods[i], xs[i], max).1
  }

  ghost function StartedEvents(pods: seq<Pod>, xs: seq<Input>, max: nat, n: nat): nat
    requires |pods| == |xs| + 1 && n <= |xs|
  {
    if n == 0 then 0 else StartedEvents(pods, xs, max, n - 1) + if Emitted(pods, xs, max, n - 1).started then 1 else 0
  }

  // ---------------------------------------------------------------- one tick

  /** What an input does to the state, the restart count and the events, by cases on where
      the pod was. */
  lemma StepMoves(pod: Pod, x: Input, max: nat)
    ensures var (q, events) := Step(pod, x, max);
            && (events.started <==> x.Tick? && pod.state.Booting? && x.allPassing)
            && (events.backOff <==> x.Tick? && pod.state.Running? && !x.live && pod.restartCount >= max)
            && q.restartCount == pod.restartCount + (if Restarts(pod, x, max) then 1 else 0)
            && q.state == match x
               case Evict => if Active(pod) then Terminating else pod.state
               case Finish => if pod.state.Terminating? then Stopped else pod.state
               case Enforce => pod.state
               case Reroute(_) => pod.state
               case Tick(_, _, _, _) =>
                 if pod.state.Booting? && x.allPassing then Running
                 else if Restarts(pod, x, max) then Booting
                 else pod.state
  {
    hide Marked, Promoted, Restarted;
    if x.Tick? {
      var p := Marked(pod, x).0;
      MarkedFields(pod, x);
      PromotedFields(p, x);
      RestartedFields(Promoted(p, x), max);
    }
  }

  ghost predicate Restarts(pod: Pod, x: Input, max: nat) {
    x.Tick? && pod.state.Running? && !x.live && pod.restartCount < max
  }

  lemma TickReports(pod: Pod, x: Input, max: nat)
    requires x.Tick?
    ensures var (q, events) := Step(pod, x, max);
            && (events.probeFailed <==> x.failed && (pod.probeEverPassed || x.allPassing) && !pod.probeFailureReported)
            && q.probeEverPassed == (pod.probeEverPassed || x.allPassing)
            && (q.probeFailureReported <==>
                 !Restarts(pod, x, max) && x.failed && (pod.probeFailureReported || events.probeFailed))
  {
    hide Marked, Promoted, Restarted;
    var p := Marked(pod, x).0;
    MarkedFields(pod, x);
    PromotedFields(p, x);
    RestartedFields(Promoted(p, x), max);
  }

  lemma MarkedFields(pod: Pod, x: Input)
    requires x.Tick?
    ensures var (p, probeFailed) := Marked(pod, x);
            && p.state == pod.state && p.restartCount == pod.restartCount
            && p.probeEverPassed == (pod.probeEverPassed || x.allPassing)
            && (probeFailed <==> x.failed && p.probeEverPassed && !pod.probeFailureReported)
            && (p.probeFailureReported <==> x.failed && (pod.probeFailureReported || probeFailed))
  {
  }

  lemma PromotedFields(pod: Pod, x: Input)
    requires x.Tick?
    ensures var p := Promoted(pod, x);
            && p.state == (if pod.state.Booting? && x.allPassing then Running else pod.state)
            && p.restartCount == pod.restartCount && p.probeEverPassed == pod.probeEverPassed &&
                 p.probeFailureReported == pod.probeFailureReported
  {
  }

  lemma RestartedFields(pod: Pod, max: nat)
    ensures var (p, backOff) := Restarted(pod, max);
            && (backOff <==> pod.restartCount >= max) && p.probeEverPassed == pod.probeEverPassed
            && (if backOff then p.state == pod.state && p.restartCount == pod.restartCount &&
                 p.probeFailureReported == pod.probeFailureReported
                else p.state == Booting && p.restartCount == pod.restartCount + 1 && !p.probeFailureReported)
  {
  }

  /** How an input bears on the failure flags. */
  lemma StepReports(pod: Pod, x: Input, max: nat)
    ensures var (q, events) := Step(pod, x, max);
            if x.Tick? then
              && (events.probeFailed <==>
                    x.failed && (pod.probeEverPassed || x.allPassing) && !pod.probeFailureReported)
              && q.probeEverPassed == (pod.probeEverPassed || x.allPassing)
              && (q.probeFailureReported <==>
                   !Restarts(pod, x, max) && x.failed && (pod.probeFailureReported || events.probeFailed))
            else
              !events.probeFailed && q.probeEverPassed == pod.probeEverPassed &&
                q.probeFailureReported == pod.probeFailureReported
  {
    hide Step;
    if x.Tick? { TickReports(pod, x, max); } else { OtherReports(pod, x, max); }
  }

  lemma OtherReports(pod: Pod, x: Input, max: nat)
    requires !x.Tick?
    ensures var (q, events) := Step(pod, x, max);
            events == QUIET && q.probeEverPassed == pod.probeEverPassed &&
              q.probeFailureReported == pod.probeFailureReported
  {
  }

  /** A tick stores its verdicts, also where it restarts the pod or backs off; nothing else
      touches them. */
  lemma StepVerdicts(pod: Pod, x: Input, max: nat)
    ensures var q := Step(pod, x, max).0;
            && q.probeLive == (if x.Tick? then x.live else pod.probeLive)
            && q.probeReady == (if x.Tick? then x.ready else pod.probeReady)
  {
    hide Marked, Promoted, Restarted;
    if x.Tick? {
      var p := Marked(pod, x).0;
      MarkedVerdicts(pod, x);
      PromotedVerdicts(p, x);
      RestartedVerdicts(Promoted(p, x), max);
    }
  }

  lemma MarkedVerdicts(pod: Pod, x: Input)
    requires x.Tick?
    ensures var p := Marked(pod, x).0; p.probeLive == x.live && p.probeReady == x.ready
  {
  }

  lemma PromotedVerdicts(pod: Pod, x: Input)
    requires x.Tick?
    ensures var p := Promoted(pod, x); p.probeLive == pod.probeLive && p.probeReady == pod.probeReady
  {
  }

  lemma RestartedVerdicts(pod: Pod, max: nat)
    ensures var p := Restarted(pod, max).0; (!pod.probeLive ==> !p.probeLive) && p.probeReady == pod.probeReady
  {
  }

  // ---------------------------------------------------------------- runs

  /** Over every run the stored verdicts are those of the last tick; before the first tick a pod
      is neither live nor ready. */
  lemma {:induction false} LastVerdicts(pods: seq<Pod>, xs: seq<Input>, max: nat, k: int, n: nat)
    requires Run(pods, xs, max) && -1 <= k < n <= |xs| && forall i | k < i < n :: !xs[i].Tick?
    requires k == -1 || xs[k].Tick?
    ensures pods[n].probeLive == (k >= 0 && xs[k].live) && pods[n].probeReady == (k >= 0 && xs[k].ready)
  {
    hide Step;
    if n > 0 {
      StepVerdicts(pods[n - 1], xs[n - 1], max);
      if k < n - 1 { LastVerdicts(pods, xs, max, k, n - 1); }
    }
  }

  /** Started events against restarts: equal while booting, one more while running; and
      restarts never exceed the maximum. */
  lemma {:induction false} StartsMatchRestarts(pods: seq<Pod>, xs: seq<Input>, max: nat, n: nat)
    requires Run(pods, xs, max) && n <= |xs|
    ensures pods[n].restartCount <= max
    ensures pods[n].state.Booting? ==> StartedEvents(pods, xs, max, n) == pods[n].restartCount
    ensures pods[n].state.Running? ==> StartedEvents(pods, xs, max, n) == pods[n].restartCount + 1
    ensures !pods[n].state.Pending?
    ensures pods[n].restartCount <= StartedEvents(pods, xs, max, n) <= pods[n].restartCount + 1
  {
    hide Step;
    if n > 0 {
      StartsMatchRestarts(pods, xs, max, n - 1);
      StepMoves(pods[n - 1], xs[n - 1], max);
    }
  }

  /** Once terminating or stopped, a pod is moved by no tick and never runs or restarts again. */
  lemma {:induction false} EvictedForGood(pods: seq<Pod>, xs: seq<Input>, max: nat, i: nat, j: nat)
    requires Run(pods, xs, max) && i <= j <= |xs| && (pods[i].state.Terminating? || pods[i].state.Stopped?)
    ensures pods[j].state.Terminating? || pods[j].state.Stopped?
    ensures pods[j].restartCount == pods[i].restartCount
    ensures j < |xs| && xs[j].Tick? ==>
              pods[j + 1].state == pods[j].state && !Emitted(pods, xs, max, j).started &&
              !Emitted(pods, xs, max, j).backOff
    decreases j - i
  {
    hide Step;
    if i < j {
      EvictedForGood(pods, xs, max, i, j - 1);
      StepMoves(pods[j - 1], xs[j - 1], max);
    }
    if j < |xs| { StepMoves(pods[j], xs[j], max); }
  }

  /** A pod counts as having passed exactly when some tick so far was all-passing. */
  lemma {:induction false} EverPassed(pods: seq<Pod>, xs: seq<Input>, max: nat, n: nat)
    requires Run(pods, xs, max) && n <= |xs|
    ensures pods[n].probeEverPassed <==> exists m | 0 <= m < n :: xs[m].Tick? && xs[m].allPassing
  {
    hide Step;
    if n > 0 {
      EverPassed(pods, xs, max, n - 1);
      StepReports(pods[n - 1], xs[n - 1], max);
    }
  }

  /** No failure is reported before the first all-passing tick. */
  lemma NoEarlyFailure(pods: seq<Pod>, xs: seq<Input>, max: nat, n: nat)
    requires Run(pods, xs, max) && n < |xs| && Emitted(pods, xs, max, n).probeFailed
    ensures exists m | 0 <= m <= n :: xs[m].Tick? && xs[m].allPassing
  {
    hide Step;
    EverPassed(pods, xs, max, n);
    StepReports(pods[n], xs[n], max);
  }

  /** Step `k` ends a failure episode: a tick without failure, or a restart. */
  ghost predicate Separates(pods: seq<Pod>, xs: seq<Input>, max: nat, k: nat)
    requires |pods| == |xs| + 1 && k < |xs|
  {
    (xs[k].Tick? && !xs[k].failed) || Restarts(pods[k], xs[k], max)
  }

  lemma {:induction false} SeparatorOrReported(pods: seq<Pod>, xs: seq<Input>, max: nat, i: nat, n: nat)
    returns (k: int)
    requires Run(pods, xs, max) && i < n <= |xs| && Emitted(pods, xs, max, i).probeFailed
    ensures k == -1 || (i <= k < n && Separates(pods, xs, max, k))
    ensures k == -1 ==> pods[n].probeFailureReported
    decreases n
  {
    hide Step;
    if n == i + 1 {
      StepReports(pods[i], xs[i], max);
      k := if Restarts(pods[i], xs[i], max) then i else -1;
    } else {
      k := SeparatorOrReported(pods, xs, max, i, n - 1);
      if k == -1 && Separates(pods, xs, max, n - 1) { k := n - 1; }
      StepReports(pods[n - 1], xs[n - 1], max);
    }
  }

  /** Between any two reported failures there is a tick without failure, or a restart no
      earlier than the first report. */
  lemma FailuresSeparated(pods: seq<Pod>, xs: seq<Input>, max: nat, i: nat, j: nat)
    requires Run(pods, xs, max) && i < j < |xs| && Emitted(pods, xs, max, i).probeFailed &&
              Emitted(pods, xs, max, j).probeFailed
    ensures exists k | i <= k < j :: Separates(pods, xs, max, k)
  {
    hide Step;
    var k := SeparatorOrReported(pods, xs, max, i, j);
    StepReports(pods[j], xs[j], max);
  }

  // ---------------------------------------------------------------- running and the gates

  /** Ready to serve: running, started, policy enforced and router connected. */
  predicate IsReady(pod: Pod) { pod.state.Running? && pod.started && pod.policyEnforced && pod.routerConnected }

  ghost predicate SameGates(p: Pod, q: Pod) {
    p.started == q.started && p.policyEnforced == q.policyEnforced && p.routerConnected == q.routerConnected
  }

  lemma TickKeepsGates(pod: Pod, x: Input, max: nat)
    requires x.Tick?
    ensures SameGates(pod, Step(pod, x, max).0)
  {
    hide Marked, Promoted, Restarted;
    var p := Marked(pod, x).0;
    MarkedGates(pod, x);
    PromotedGates(p, x);
    RestartedGates(Promoted(p, x), max);
  }

  lemma MarkedGates(pod: Pod, x: Input)
    requires x.Tick?
    ensures SameGates(pod, Marked(pod, x).0)
  {
  }

  lemma PromotedGates(pod: Pod, x: Input)
    requires x.Tick?
    ensures SameGates(pod, Promoted(pod, x))
  {
  }

  lemma RestartedGates(pod: Pod, max: nat)
    ensures SameGates(pod, Restarted(pod, max).0)
  {
  }

  /** Only a policy sync and a route update bear on the gates. */
  lemma StepGates(pod: Pod, x: Input, max: nat)
    ensures var q := Step(pod, x, max).0;
            && q.started == pod.started && q.policyEnforced == (pod.policyEnforced || x.Enforce?)
            && q.routerConnected == if x.Reroute? then x.connected else pod.routerConnected
  {
    if x.Tick? { TickKeepsGates(pod, x, max); }
  }

  /** Some policy sync has succeeded since the pod was booted. */
  ghost predicate Enforced(xs: seq<Input>, n: nat)
    requires n <= |xs|
  {
    exists i | 0 <= i < n :: xs[i].Enforce?
  }

  /** The latest route update since the pod was booted found it connected. */
  ghost predicate LatelyConnected(xs: seq<Input>, n: nat)
    requires n <= |xs|
  {
    exists i | 0 <= i < n :: LatestRoutes(xs, i, n) && xs[i].connected
  }

  ghost predicate LatestRoutes(xs: seq<Input>, i: nat, n: nat)
    requires i < n <= |xs|
  {
    xs[i].Reroute? && forall k | i < k < n :: !xs[k].Reroute?
  }

  lemma {:induction false} GatesOverRun(pods: seq<Pod>, xs: seq<Input>, max: nat, n: nat)
    requires Run(pods, xs, max) && n <= |xs|
    ensures pods[n].started && (pods[n].policyEnforced <==> Enforced(xs, n))
    ensures pods[n].routerConnected <==> LatelyConnected(xs, n)
  {
    hide Step;
    if n > 0 {
      GatesOverRun(pods, xs, max, n - 1);
      StepGates(pods[n - 1], xs[n - 1], max);
      assert Enforced(xs, n) <==> Enforced(xs, n - 1) || xs[n - 1].Enforce?;
      LatelySnoc(xs, n);
    }
  }

  lemma LatelySnoc(xs: seq<Input>, n: nat)
    requires 0 < n <= |xs|
    ensures LatelyConnected(xs, n) <==> if xs[n - 1].Reroute? then xs[n - 1].connected else LatelyConnected(xs, n - 1)
  {
    if xs[n - 1].Reroute? {
      assert LatestRoutes(xs, n - 1, n);
    } else {
      forall i | 0 <= i < n - 1 ensures LatestRoutes(xs, i, n) <==> LatestRoutes(xs, i, n - 1) {}
    }
  }

  /** Running does not imply the gates. Over every run, at every point, a running pod is ready
      exactly when some policy sync has succeeded since its boot and the latest route update
      since its boot found it connected; the probes that let it run have no say. */
  lemma RunningGatesIff(pods: seq<Pod>, xs: seq<Input>, max: nat, n: nat)
    requires Run(pods, xs, max) && n <= |xs| && pods[n].state.Running?
    ensures IsReady(pods[n]) <==> Enforced(xs, n) && LatelyConnected(xs, n)
  {
    hide Step, Enforced, LatelyConnected;
    GatesOverRun(pods, xs, max, n);
  }

  /** A pod that runs without its gates: all probes pass before any policy or route update. */
  lemma RunsUngated(pod: Pod) returns (pods: seq<Pod>, xs: seq<Input>)
    requires Fresh(pod)
    ensures Run(pods, xs, 3) && pods[0] == pod
    ensures var last := pods[|xs|]; last.state.Running? && !last.policyEnforced && !last.routerConnected
  {
    hide Marked, Promoted, Restarted, Step;
    xs := [Tick(true, true, true, false)];
    pods := [pod, Step(pod, xs[0], 3).0];
    StepMoves(pod, xs[0], 3);
    StepGates(pod, xs[0], 3);
  }

  /** A pod that was ready and goes on running when a route update disconnects it. */
  lemma RunsDisconnected(pod: Pod) returns (pods: seq<Pod>, xs: seq<Input>)
    requires Fresh(pod)
    ensures Run(pods, xs, 3) && pods[0] == pod && |xs| == 4 && IsReady(pods[3])
    ensures pods[4].state.Running? && !pods[4].routerConnected
  {
    hide Step;
    xs := [Enforce, Reroute(true), Tick(true, true, true, false), Reroute(false)];
    var p1 := Step(pod, xs[0], 3).0;
    var p2 := Step(p1, xs[1], 3).0;
    var p3 := Step(p2, xs[2], 3).0;
    pods := [pod, p1, p2, p3, Step(p3, xs[3], 3).0];
    forall i | 0 <= i < 4 ensures pods[i + 1] == Step(pods[i], xs[i], 3).0 {}
    StepMoves(pod, xs[0], 3);
    StepMoves(p1, xs[1], 3);
    StepMoves(p2, xs[2], 3);
    StepMoves(p3, xs[3], 3);
    GatesOverRun(pods, xs, 3, 3);
    GatesOverRun(pods, xs, 3, 4);
    assert LatestRoutes(xs, 1, 3) && LatestRoutes(xs, 3, 4) && xs[0].Enforce?;
  }

  // ---------------------------------------------------------------- the probe loop

  /** A route as the pods that depend on it see it: address 0 is a target not routed yet. */
  datatype Dependency = Dependency(sources: set<string>, dummyIp: u32)

  ghost predicate AllRouted(me: string, routes: seq<Dependency>) {
    forall r | r in routes && me in r.sources :: r.dummyIp != 0
  }

  /** A pod after a route update, seen by its own tenant and workload. */
  ghost function Rerouted(pod: Pod, routes: seq<Dependency>, identity: (string, string) -> string): Pod {
    Step(pod, Reroute(AllRouted(identity(pod.tenantId, pod.workloadId), routes)), 0).0
  }

  class PodManager {
    var pods: map<string, Pod>

    constructor ()
      ensures pods == map[]
    {
      pods := map[];
    }

    /** A result for an unknown pod does nothing; for a known one it takes the step above, and
        no other pod is touched. */
    method ProcessProbeResult(podId: string, x: Input, max: nat) returns (events: Events)
      requires x.Tick?
      modifies this
      ensures podId !in old(pods) ==> pods == old(pods) && events == QUIET
      ensures podId in old(pods) ==>
                var (pod, emitted) := Step(old(pods)[podId], x, max);
                pods == old(pods)[podId := pod] && events == emitted
    {
      hide Marked, Promoted, Restarted;
      if podId !in pods { return QUIET; }
      var pod := pods[podId];
      var wasRunning, started, backOff := pod.state == Running, pod.state == Booting && x.allPassing, false;
      MarkedFields(pod, x);
      PromotedFields(Marked(pod, x).0, x);
      var marked, probeFailed := MarkResult(pod, x);
      pod := Promote(marked, x);
      if wasRunning && !x.live { pod, backOff := RestartPod(pod, max); }
      pods := pods[podId := pod];
      events := Events(probeFailed, started, backOff);
    }

    static method MarkResult(before: Pod, x: Input) returns (pod: Pod, probeFailed: bool)
      requires x.Tick?
      ensures (pod, probeFailed) == Marked(before, x)
    {
      pod, probeFailed := before.(probeLive := x.live, probeReady := x.ready), false;
      if x.allPassing { pod := pod.(probeEverPassed := true); }
      if x.failed && pod.probeEverPassed && !pod.probeFailureReported {
        pod := pod.(probeFailureReported := true);
        probeFailed := true;
      } else if !x.failed {
        pod := pod.(probeFailureReported := false);
      }
    }

    static method Promote(before: Pod, x: Input) returns (pod: Pod)
      requires x.Tick?
      ensures pod == Promoted(before, x)
    {
      pod := before;
      if pod.state == Booting && x.allPassing { pod := pod.(state := Running); }
    }

    static method RestartPod(before: Pod, max: nat) returns (pod: Pod, backOff: bool)
      ensures (pod, backOff) == Restarted(before, max)
    {
      pod, backOff := before, false;
      if pod.restartCount >= max {
        pod := pod.(probeLive := false);
        backOff := true;
      } else {
        pod := pod.(restartCount := pod.restartCount + 1, state := Booting, probeFailureReported := false);
      }
    }

    method Evict(podId: string)
      modifies this
      ensures pods == if podId in old(pods) then old(pods)[podId := Step(old(pods)[podId], Input.Evict, 0).0]
                else old(pods)
    {
      if podId in pods { pods := pods[podId := BeginEviction(pods[podId])]; }
    }

    /** After a successful policy sync every pod is marked enforced, and nothing else changes. */
    method MarkAllPolicyEnforced()
      modifies this
      ensures pods.Keys == old(pods).Keys && forall p | p in pods :: pods[p] == Step(old(pods)[p], Enforce, 0).0
    {
      hide Step;
      ghost var was := pods;
      var left := pods.Keys;
      while left != {}
        invariant left <= was.Keys == pods.Keys
        invariant forall p | p in was :: pods[p] == if p in left then was[p] else Step(was[p], Enforce, 0).0
        decreases |left|
      {
        var p :| p in left;
        left := left - {p};
        var pod := EnforceOne(pods[p]);
        pods := pods[p := pod];
      }
    }

    static method EnforceOne(pod: Pod) returns (r: Pod)
      ensures r == Step(pod, Enforce, 0).0
    {
      r := pod.(policyEnforced := true);
    }

    /** After a route update every pod is connected exactly when all routes that name it as a
        source are routed; a pod no route names is connected. */
    method ReevaluateRouterConnected(routes: seq<Dependency>, identity: (string, string) -> string)
      modifies this
      ensures pods.Keys == old(pods).Keys
      ensures forall p | p in pods :: pods[p] == Rerouted(old(pods)[p], routes, identity)
    {
      hide Rerouted;
      ghost var was := pods;
      var left := pods.Keys;
      while left != {}
        invariant left <= was.Keys == pods.Keys
        invariant forall p | p in was :: pods[p] == if p in left then was[p] else Rerouted(was[p], routes, identity)
        decreases |left|
      {
        var p :| p in left;
        left := left - {p};
        var pod := RerouteOne(pods[p], routes, identity);
        pods := pods[p := pod];
      }
    }

    static method RerouteOne(pod: Pod, routes: seq<Dependency>, identity: (string, string) -> string) returns (r: Pod)
      ensures r == Rerouted(pod, routes, identity)
    {
      var connected := RouterConnected(identity(pod.tenantId, pod.workloadId), routes);
      r := pod.(routerConnected := connected);
    }

    static method RouterConnected(me: string, routes: seq<Dependency>) returns (connected: bool)
      ensures connected <==> forall r | r in routes && me in r.sources :: r.dummyIp != 0
    {
      var mine: seq<Dependency> := [];
      for i := 0 to |routes|
        invariant forall r :: r in mine <==> r in routes[..i] && me in r.sources
      {
        if me in routes[i].sources { mine := mine + [routes[i]]; }
      }
      assert routes[..|routes|] == routes;
      if mine == [] { return true; }
      connected := true;
      for i := 0 to |mine|
        invariant connected <==> forall r | r in mine[..i] :: r.dummyIp != 0
      {
        connected := connected && mine[i].dummyIp != 0;
      }
      assert mine[..|mine|] == mine;
    }
  }
}
