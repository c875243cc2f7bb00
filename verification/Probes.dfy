/** Probe state machines (src/workloads/probes/mod.rs and src/workloads/probe_manager.rs).
    Whether a probe is due and what it finds are inputs. */
module Probes {
  import opened Base

  datatype Phase = InitialDelay | Probing | Succeeded | Failed

  /** One probe's counters; both thresholds are at least 1. */
  datatype Runner = Runner(successThreshold: u32, failureThreshold: u32, successes: nat, failures: nat, phase: Phase)

  function NewRunner(successThreshold: u32, failureThreshold: u32): Runner {
    Runner(if successThreshold < 1 then 1 else successThreshold, if failureThreshold < 1 then 1
      else failureThreshold, 0, 0, InitialDelay)
  }

  function Probed(r: Runner, ok: bool): Runner {
    if ok then r.(successes := r.successes + 1, failures := 0, phase := if r.successes + 1 >= r.successThreshold
      then Succeeded else Probing)
    else r.(successes := 0, failures := r.failures + 1, phase := if r.failures + 1 >= r.failureThreshold then Failed
      else Probing)
  }

  function ProbedAll(r: Runner, outcomes: seq<bool>): Runner {
    if outcomes == [] then r else Probed(ProbedAll(r, outcomes[..|outcomes| - 1]), outcomes[|outcomes| - 1])
  }

  predicate LivePassing(r: Runner) { r.failures < r.failureThreshold }

  predicate ReadyPassing(r: Runner) { r.successes >= r.successThreshold }

  predicate IsPassing(r: Runner) { r.phase == Succeeded }

  // ---------------------------------------------------------------- counters against the history

  /** The last `n` outcomes exist and are all `v`. */
  ghost predicate LastAll(outcomes: seq<bool>, n: nat, v: bool) {
    n <= |outcomes| && forall i | |outcomes| - n <= i < |outcomes| :: outcomes[i] == v
  }

  /** How many outcomes at the end are `v`. */
  ghost function Tail(outcomes: seq<bool>, v: bool): (n: nat)
    ensures n <= |outcomes|
  {
    if outcomes == [] || outcomes[|outcomes| - 1] != v then 0 else Tail(outcomes[..|outcomes| - 1], v) + 1
  }

  lemma {:induction false} TailMeans(outcomes: seq<bool>, n: nat, v: bool)
    ensures n <= Tail(outcomes, v) <==> LastAll(outcomes, n, v)
  {
    if outcomes == [] || n == 0 {
    } else if outcomes[|outcomes| - 1] == v {
      var init := outcomes[..|outcomes| - 1];
      TailMeans(init, n - 1, v);
      if LastAll(init, n - 1, v) {
        forall i | |outcomes| - n <= i < |outcomes| ensures outcomes[i] == v { if i < |init| { assert init[i] == v; } }
      } else if n <= |outcomes| {
        var i :| |init| - (n - 1) <= i < |init| && init[i] != v;
        assert outcomes[i] != v;
      }
    }
  }

  lemma {:induction false} CountersAreTails(r: Runner, outcomes: seq<bool>)
    requires r == NewRunner(r.successThreshold, r.failureThreshold)
    ensures var q := ProbedAll(r, outcomes);
            && q.successes == Tail(outcomes, true) && q.failures == Tail(outcomes, false)
            && q.successThreshold == r.successThreshold && q.failureThreshold == r.failureThreshold
  {
    if outcomes != [] { CountersAreTails(r, outcomes[..|outcomes| - 1]); }
  }

  /** For every history: liveness fails exactly when the last `failureThreshold` outcomes all
      failed, readiness holds exactly when the last `successThreshold` all succeeded, and the
      phase says the same. */
  lemma Verdicts(r: Runner, outcomes: seq<bool>)
    requires r == NewRunner(r.successThreshold, r.failureThreshold)
    ensures var q := ProbedAll(r, outcomes);
            && (!LivePassing(q) <==> LastAll(outcomes, r.failureThreshold, false))
            && (ReadyPassing(q) <==> LastAll(outcomes, r.successThreshold, true))
            && (q.phase == Succeeded <==> ReadyPassing(q))
            && (q.phase == Failed <==> !LivePassing(q))
            && (q.phase == InitialDelay <==> outcomes == [])
  {
    CountersAreTails(r, outcomes);
    TailMeans(outcomes, r.failureThreshold, false);
    TailMeans(outcomes, r.successThreshold, true);
    if outcomes != [] { CountersAreTails(r, outcomes[..|outcomes| - 1]); }
  }

  lemma ProbedMore(r: Runner, outcomes: seq<bool>, ok: bool)
    ensures ProbedAll(r, outcomes + [ok]) == Probed(ProbedAll(r, outcomes), ok)
  {
    assert (outcomes + [ok])[..|outcomes|] == outcomes;
  }

  /** The runner as the agent keeps it: 32-bit counters, updated in place. */
  class ProbeRunner {
    const successThreshold: u32
    const failureThreshold: u32
    var consecutiveSuccesses: u32
    var consecutiveFailures: u32
    var phase: Phase
    ghost var outcomes: seq<bool>

    ghost predicate Valid()
      reads this
    {
      && NewRunner(successThreshold, failureThreshold).successThreshold == successThreshold
      && NewRunner(successThreshold, failureThreshold).failureThreshold == failureThreshold
      && Snapshot() == ProbedAll(NewRunner(successThreshold, failureThreshold), outcomes)
    }

    ghost function Snapshot(): Runner
      reads this
    {
      Runner(successThreshold, failureThreshold, consecutiveSuccesses, consecutiveFailures, phase)
    }

    constructor (successThreshold: u32, failureThreshold: u32)
      ensures Valid() && outcomes == [] && Snapshot() == NewRunner(successThreshold, failureThreshold)
    {
      this.successThreshold := if successThreshold < 1 then 1 else successThreshold;
      this.failureThreshold := if failureThreshold < 1 then 1 else failureThreshold;
      consecutiveSuccesses, consecutiveFailures, phase, outcomes := 0, 0, InitialDelay, [];
    }

    /** One probe. The run of equal outcomes must still fit 32 bits. */
    method Probe(ok: bool) returns (r: Phase)
      requires Valid() && (if ok then consecutiveSuccesses else consecutiveFailures) < 0xFFFF_FFFF
      modifies this
      ensures Valid() && outcomes == old(outcomes) + [ok] && r == phase
      ensures r == Succeeded <==> LastAll(outcomes, successThreshold, true)
      ensures r == Failed <==> LastAll(outcomes, failureThreshold, false)
    {
      hide ProbedAll, LastAll;
      phase := Probing;
      if ok {
        consecutiveSuccesses := consecutiveSuccesses + 1;
        consecutiveFailures := 0;
        phase := if consecutiveSuccesses >= successThreshold then Succeeded else Probing;
      } else {
        consecutiveFailures := consecutiveFailures + 1;
        consecutiveSuccesses := 0;
        phase := if consecutiveFailures >= failureThreshold then Failed else Probing;
      }
      r := phase;
      ProbedMore(NewRunner(successThreshold, failureThreshold), outcomes, ok);
      outcomes := outcomes + [ok];
      Verdicts(NewRunner(successThreshold, failureThreshold), outcomes);
    }

    method IsLivePassing() returns (r: bool)
      requires Valid()
      ensures !r <==> LastAll(outcomes, failureThreshold, false)
    {
      Verdicts(NewRunner(successThreshold, failureThreshold), outcomes);
      r := consecutiveFailures < failureThreshold;
    }

    method IsReadyPassing() returns (r: bool)
      requires Valid()
      ensures r <==> LastAll(outcomes, successThreshold, true)
    {
      Verdicts(NewRunner(successThreshold, failureThreshold), outcomes);
      r := consecutiveSuccesses >= successThreshold;
    }
  }

  // ---------------------------------------------------------------- probe sets

  datatype ProbeSet = ProbeSet(startup: Option<Runner>, liveness: Option<Runner>, readiness: Option<Runner>)

  /** What one tick meets: for each probe, whether it is due and what it would find. */
  datatype Sample = Sample(due: bool, ok: bool)

  datatype Samples = Samples(startup: Sample, liveness: Sample, readiness: Sample)

  predicate StartupDone(s: ProbeSet) { s.startup.None? || IsPassing(s.startup.value) }

  predicate Live(s: ProbeSet) { s.liveness.None? || LivePassing(s.liveness.value) }

  predicate Ready(s: ProbeSet) { s.readiness.None? || ReadyPassing(s.readiness.value) }

  predicate AllPassing(s: ProbeSet) { StartupDone(s) && Live(s) && Ready(s) }

  function RunIfDue(r: Option<Runner>, sample: Sample): Option<Runner> {
    if r.Some? && sample.due then Some(Probed(r.value, sample.ok)) else r
  }

  /** The startup probe goes first and gates the other two. */
  function Ticked(s: ProbeSet, x: Samples): ProbeSet {
    var t := s.(startup := RunIfDue(s.startup, x.startup));
    if !StartupDone(t) then t
    else t.(liveness := RunIfDue(t.liveness, x.liveness), readiness := RunIfDue(t.readiness, x.readiness))
  }

  function TickedAll(s: ProbeSet, xs: seq<Samples>): ProbeSet {
    if xs == [] then s else Ticked(TickedAll(s, xs[..|xs| - 1]), xs[|xs| - 1])
  }

  /** The outcomes a gated probe has seen: those of its due ticks with startup done. */
  ghost function Outcomes(s: ProbeSet, xs: seq<Samples>, readiness: bool): seq<bool> {
    if xs == [] then []
    else
      var x := xs[|xs| - 1];
      var sample := if readiness then x.readiness else x.liveness;
      Outcomes(s, xs[..|xs| - 1], readiness) + if sample.due && StartupDone(TickedAll(s, xs)) then [sample.ok] else []
  }

  lemma {:induction false} GatedHistory(s: ProbeSet, xs: seq<Samples>)
    ensures var t := TickedAll(s, xs);
            && (s.liveness.None? <==> t.liveness.None?) && (s.readiness.None? <==> t.readiness.None?)
            && (s.liveness.Some? ==> t.liveness.value == ProbedAll(s.liveness.value, Outcomes(s, xs, false)))
            && (s.readiness.Some? ==> t.readiness.value == ProbedAll(s.readiness.value, Outcomes(s, xs, true)))
  {
    if xs != [] {
      var init, x := xs[..|xs| - 1], xs[|xs| - 1];
      GatedHistory(s, init);
      var a, b := Outcomes(s, init, false), Outcomes(s, init, true);
      assert (a + [x.liveness.ok])[..|a|] == a && (b + [x.readiness.ok])[..|b|] == b && a + [] == a && b + [] == b;
    }
  }

  /** Over every run of ticks from fresh probes: the set reports live unless the last
      `failureThreshold` gated liveness outcomes all failed, and ready exactly when the last
      `successThreshold` gated readiness outcomes all succeeded. */
  lemma SetVerdicts(s: ProbeSet, xs: seq<Samples>)
    requires s.liveness.Some? ==>
               s.liveness.value == NewRunner(s.liveness.value.successThreshold, s.liveness.value.failureThreshold)
    requires s.readiness.Some? ==>
               s.readiness.value == NewRunner(s.readiness.value.successThreshold, s.readiness.value.failureThreshold)
    ensures var t := TickedAll(s, xs);
            && (!Live(t) <==>
                  s.liveness.Some? && LastAll(Outcomes(s, xs, false), s.liveness.value.failureThreshold, false))
            && (Ready(t) <==>
                  s.readiness.None? || LastAll(Outcomes(s, xs, true), s.readiness.value.successThreshold, true))
  {
    GatedHistory(s, xs);
    if s.liveness.Some? { Verdicts(s.liveness.value, Outcomes(s, xs, false)); }
    if s.readiness.Some? { Verdicts(s.readiness.value, Outcomes(s, xs, true)); }
  }

  /** A finished startup probe is not final: it stays done through a run of ticks, at every
      point of it, exactly when no due startup probe in the run fails. */
  lemma {:induction false} StartupStaysDoneIff(s: ProbeSet, xs: seq<Samples>)
    requires StartupDone(s)
    requires s.startup.Some? ==> ReadyPassing(s.startup.value) && s.startup.value.successThreshold >= 1
    ensures (forall n | 0 <= n <= |xs| :: StartupDone(TickedAll(s, xs[..n]))) <==>
            (forall i | 0 <= i < |xs| :: s.startup.Some? && xs[i].startup.due ==> xs[i].startup.ok)
    ensures (forall i | 0 <= i < |xs| :: s.startup.Some? && xs[i].startup.due ==> xs[i].startup.ok) &&
              s.startup.Some? ==>
            var t := TickedAll(s, xs).startup; t.Some? && ReadyPassing(t.value) && t.value.successThreshold >= 1
  {
    hide Ticked, StartupDone, ReadyPassing;
    if xs == [] {
      assert xs[..0] == [];
    } else {
      var init, x := xs[..|xs| - 1], xs[|xs| - 1];
      StartupStaysDoneIff(s, init);
      SetShape(s, init);
      StartupTick(TickedAll(s, init), x);
      assert forall n | 0 <= n <= |init| :: xs[..n] == init[..n];
      assert xs[..|xs|] == xs && init[..|init|] == init;
      assert forall i | 0 <= i < |init| :: xs[i] == init[i];
    }
  }

  lemma StartupTick(s: ProbeSet, x: Samples)
    ensures var t := Ticked(s, x);
            && (s.startup.None? ==> t.startup.None? && StartupDone(t))
            && (s.startup.Some? ==>
                  t.startup.Some? && t.startup.value.successThreshold == s.startup.value.successThreshold)
            && (&& s.startup.Some? && StartupDone(s) && ReadyPassing(s.startup.value)
                && s.startup.value.successThreshold >= 1 ==>
                  if x.startup.due && !x.startup.ok then !StartupDone(t)
                  else StartupDone(t) && ReadyPassing(t.startup.value))
  {
  }

  lemma {:induction false} SetShape(s: ProbeSet, xs: seq<Samples>)
    ensures TickedAll(s, xs).startup.Some? <==> s.startup.Some?
    ensures s.startup.Some? ==> TickedAll(s, xs).startup.value.successThreshold == s.startup.value.successThreshold
  {
    hide Ticked, StartupDone, ReadyPassing;
    if xs != [] {
      SetShape(s, xs[..|xs| - 1]);
      StartupTick(TickedAll(s, xs[..|xs| - 1]), xs[|xs| - 1]);
    }
  }

  class ProbeSetRunner {
    var startup: Option<Runner>
    var liveness: Option<Runner>
    var readiness: Option<Runner>

    constructor (s: ProbeSet)
      ensures Snapshot() == s
    {
      startup, liveness, readiness := s.startup, s.liveness, s.readiness;
    }

    ghost function Snapshot(): ProbeSet
      reads this
    {
      ProbeSet(startup, liveness, readiness)
    }

    /** All due probes, in the order startup, liveness, readiness. All probes pass afterwards
        exactly when startup is done and both reported values hold. */
    method RunProbes(x: Samples) returns (live: bool, ready: bool)
      modifies this
      ensures Snapshot() == Ticked(old(Snapshot()), x)
      ensures AllPassing(Snapshot()) <==> StartupDone(Snapshot()) && live && ready
      ensures if StartupDone(Snapshot()) then live == Live(Snapshot()) && ready == Ready(Snapshot()) else live && ready
    {
      if startup.Some? && x.startup.due { startup := Some(Probed(startup.value, x.startup.ok)); }
      if startup.Some? && startup.value.phase != Succeeded { return true, true; }
      live, ready := true, true;
      if liveness.Some? {
        if x.liveness.due { liveness := Some(Probed(liveness.value, x.liveness.ok)); }
        live := LivePassing(liveness.value);
      }
      if readiness.Some? {
        if x.readiness.due { readiness := Some(Probed(readiness.value, x.readiness.ok)); }
        ready := ReadyPassing(readiness.value);
      }
    }
  }

  // ---------------------------------------------------------------- the probe manager

  datatype TickResult = TickResult(podId: string, live: bool, ready: bool, allPassing: bool, failed: bool)

  /** The report on one pod after its tick: nothing fails before startup is done. */
  function Report(podId: string, s: ProbeSet): TickResult {
    var live, ready := StartupDone(s) ==> Live(s), StartupDone(s) ==> Ready(s);
    TickResult(podId, live, ready, AllPassing(s), !live || !ready)
  }

  /** The outcomes the startup probe has seen: those of all its due ticks. */
  ghost function StartupOutcomes(xs: seq<Samples>): seq<bool> {
    if xs == [] then []
    else
      var x := xs[|xs| - 1].startup;
      StartupOutcomes(xs[..|xs| - 1]) + if x.due then [x.ok] else []
  }

  lemma {:induction false} StartupHistory(s: ProbeSet, xs: seq<Samples>)
    ensures var t := TickedAll(s, xs);
            && (s.startup.None? <==> t.startup.None?)
            && (s.startup.Some? ==> t.startup.value == ProbedAll(s.startup.value, StartupOutcomes(xs)))
  {
    if xs != [] {
      var init, x := xs[..|xs| - 1], xs[|xs| - 1];
      StartupHistory(s, init);
      var a := StartupOutcomes(init);
      assert (a + [x.startup.ok])[..|a|] == a && a + [] == a;
    }
  }

  ghost predicate FreshProbes(s: ProbeSet) {
    && (s.startup.Some? ==> IsFresh(s.startup.value))
    && (s.liveness.Some? ==> IsFresh(s.liveness.value))
    && (s.readiness.Some? ==> IsFresh(s.readiness.value))
  }

  ghost predicate IsFresh(r: Runner) { r == NewRunner(r.successThreshold, r.failureThreshold) }

  /** The report after every run of ticks from fresh probes, by the outcomes alone: until the
      last due startup outcomes pass it is live, ready and not failed; from then on live and
      ready are the verdicts of the gated outcomes, a tick fails when either does not hold, and
      all pass when both do. */
  lemma ReportVerdicts(podId: string, s: ProbeSet, xs: seq<Samples>)
    requires FreshProbes(s)
    ensures var r := Report(podId, TickedAll(s, xs));
            var up := s.startup.None? || LastAll(StartupOutcomes(xs), s.startup.value.successThreshold, true);
            var dead := s.liveness.Some? && LastAll(Outcomes(s, xs, false), s.liveness.value.failureThreshold, false);
            var ready := s.readiness.None? || LastAll(Outcomes(s, xs, true), s.readiness.value.successThreshold, true);
            && r.podId == podId && r.live == (up ==> !dead) && r.ready == (up ==> ready)
            && r.allPassing == (up && !dead && ready) && r.failed == (up && (dead || !ready))
  {
    hide TickedAll, ProbedAll, LastAll, Outcomes, StartupOutcomes;
    SetVerdicts(s, xs);
    StartupHistory(s, xs);
    if s.startup.Some? { Verdicts(s.startup.value, StartupOutcomes(xs)); }
  }

  /** A done startup probe that fails once is no longer done, and the tick then reports live
      and ready although liveness had failed and was reported so. */
  lemma StartupRegresses()
    ensures var s := ProbeSet(Some(NewRunner(1, 3)), Some(NewRunner(1, 1)), None);
            var t := Ticked(s, Samples(Sample(true, true), Sample(true, false), Sample(true, true)));
            var u := Ticked(t, Samples(Sample(true, false), Sample(true, false), Sample(true, true)));
            && StartupDone(t) && !Live(t) && Report("p", t) == TickResult("p", false, true, false, true)
            && !StartupDone(u) && !Live(u) && Report("p", u) == TickResult("p", true, true, false, false)
  {
  }

  /** What the manager is asked to do. */
  datatype Op =
    | Register(podId: string, probes: ProbeSet)
    | Unregister(podId: string)
    | TickAll(samples: string -> Samples)

  function Managed(runners: map<string, ProbeSet>, op: Op): map<string, ProbeSet> {
    match op
    case Register(podId, probes) => runners[podId := probes]
    case Unregister(podId) => runners - {podId}
    case TickAll(samples) => map p | p in runners :: Ticked(runners[p], samples(p))
  }

  function ManagedAll(ops: seq<Op>): map<string, ProbeSet> {
    if ops == [] then map[] else Managed(ManagedAll(ops[..|ops| - 1]), ops[|ops| - 1])
  }

  predicate About(op: Op, podId: string) { !op.TickAll? && op.podId == podId }

  /** The samples a pod meets in a series of requests. */
  function SamplesOf(ops: seq<Op>, podId: string): seq<Samples> {
    if ops == [] then []
    else SamplesOf(ops[..|ops| - 1], podId) + if ops[|ops| - 1].TickAll? then [ops[|ops| - 1].samples(podId)] else []
  }

  /** Over every run: a pod is probed exactly when the last request about it registered it,
      and its probes are those registered then, ticked on its own samples since. */
  lemma {:induction false} SinceRegistration(ops: seq<Op>, podId: string, i: nat)
    requires i < |ops| && About(ops[i], podId) && forall k | i < k < |ops| :: !About(ops[k], podId)
    ensures podId in ManagedAll(ops) <==> ops[i].Register?
    ensures ops[i].Register? ==> ManagedAll(ops)[podId] == TickedAll(ops[i].probes, SamplesOf(ops[i + 1..], podId))
  {
    hide Ticked, TickedAll, SamplesOf, Managed, ManagedAll;
    var n := |ops| - 1;
    if i == n {
      JustAsked(ops, podId);
    } else {
      SinceRegistration(ops[..n], podId, i);
      NotAsked(ops, podId);
      var later := ops[i + 1..];
      assert later[..|later| - 1] == ops[..n][i + 1..] && later[|later| - 1] == ops[n];
      SamplesMore(later, podId);
      if ops[n].TickAll? && ops[i].Register? {
        TickedMore(ops[i].probes, SamplesOf(ops[..n][i + 1..], podId), ops[n].samples(podId));
      }
    }
  }

  lemma JustAsked(ops: seq<Op>, podId: string)
    requires ops != [] && About(ops[|ops| - 1], podId)
    ensures podId in ManagedAll(ops) <==> ops[|ops| - 1].Register?
    ensures ops[|ops| - 1].Register? ==>
              ManagedAll(ops)[podId] == TickedAll(ops[|ops| - 1].probes, SamplesOf(ops[|ops|..], podId))
  {
    hide Ticked;
    assert ops[|ops|..] == [];
  }

  lemma NotAsked(ops: seq<Op>, podId: string)
    requires ops != [] && !About(ops[|ops| - 1], podId)
    ensures var op, before, after := ops[|ops| - 1], ManagedAll(ops[..|ops| - 1]), ManagedAll(ops);
            && (podId in after <==> podId in before)
            && (podId in before ==>
                  after[podId] == if op.TickAll? then Ticked(before[podId], op.samples(podId)) else before[podId])
  {
    hide Ticked;
  }

  lemma SamplesMore(ops: seq<Op>, podId: string)
    requires ops != []
    ensures var op, before := ops[|ops| - 1], SamplesOf(ops[..|ops| - 1], podId);
            SamplesOf(ops, podId) == if op.TickAll? then before + [op.samples(podId)] else before
  {
  }

  lemma TickedMore(s: ProbeSet, xs: seq<Samples>, x: Samples)
    ensures TickedAll(s, xs + [x]) == Ticked(TickedAll(s, xs), x)
  {
    hide Ticked;
    assert (xs + [x])[..|xs|] == xs;
  }

  lemma {:induction false} NeverRegistered(ops: seq<Op>, podId: string)
    requires forall k | 0 <= k < |ops| :: !About(ops[k], podId)
    ensures podId !in ManagedAll(ops)
  {
    if ops != [] { NeverRegistered(ops[..|ops| - 1], podId); }
  }

  class ProbeManager {
    var runners: map<string, ProbeSet>

    constructor ()
      ensures runners == map[]
    {
      runners := map[];
    }

    method RegisterPod(podId: string, s: ProbeSet)
      modifies this
      ensures runners == Managed(old(runners), Register(podId, s))
    {
      runners := runners[podId := s];
    }

    method UnregisterPod(podId: string)
      modifies this
      ensures runners == Managed(old(runners), Unregister(podId))
    {
      runners := runners - {podId};
    }

    /** Every registered pod is ticked once, on its own samples only, and reported once; no
        pod is added or dropped. */
    method Tick(samples: string -> Samples) returns (results: seq<TickResult>, ghost order: seq<string>)
      modifies this
      ensures runners == Managed(old(runners), TickAll(samples))
      ensures Distinct(order) && Members(order) == runners.Keys && |results| == |order|
      ensures forall i | 0 <= i < |results| :: order[i] in runners && results[i] == Report(order[i], runners[order[i]])
    {
      hide Ticked, Report, Members, Distinct;
      ghost var was := runners;
      var podIds := ListPods(runners.Keys);
      results := [];
      for i := 0 to |podIds|
        invariant runners.Keys == was.Keys && |results| == i
        invariant forall p | p in was :: runners[p] == if p in podIds[..i] then Ticked(was[p], samples(p)) else was[p]
        invariant forall k | 0 <= k < i :: results[k] == Report(podIds[k], Ticked(was[podIds[k]], samples(podIds[k])))
      {
        var p := podIds[i];
        NotYet(podIds, i);
        var after, result := TickOne(p, runners[p], samples(p));
        runners := runners[p := after];
        results := results + [result];
      }
      Listed(podIds);
      assert podIds[..|podIds|] == podIds;
      order := podIds;
    }

    static method ListPods(pods: set<string>) returns (order: seq<string>)
      ensures Distinct(order) && Members(order) == pods && forall i | 0 <= i < |order| :: order[i] in pods
    {
      order := [];
      var left := pods;
      while left != {}
        invariant left <= pods && Distinct(order) && Members(order) == pods - left
        decreases |left|
      {
        var p :| p in left;
        left := left - {p};
        MembersSnoc(order, p);
        order := order + [p];
      }
      Listed(order);
    }

    static lemma NotYet(order: seq<string>, i: nat)
      requires Distinct(order) && i < |order|
      ensures order[i] !in order[..i] && forall p :: p in order[..i + 1] <==> p in order[..i] || p == order[i]
    {
      assert order[..i + 1] == order[..i] + [order[i]];
    }

    static lemma Listed(order: seq<string>)
      ensures forall p :: p in order <==> p in Members(order)
      ensures forall i | 0 <= i < |order| :: order[i] in Members(order)
    {
    }

    static method TickOne(podId: string, s: ProbeSet, x: Samples) returns (t: ProbeSet, result: TickResult)
      ensures t == Ticked(s, x) && result == Report(podId, t) && result.podId == podId
    {
      var runner := new ProbeSetRunner(s);
      var live, ready := runner.RunProbes(x);
      t := ProbeSet(runner.startup, runner.liveness, runner.readiness);
      result := TickResult(podId, live, ready, AllPassing(t), !live || !ready);
    }
  }
}
