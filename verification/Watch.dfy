/** The reconnecting versioned watches (src/client/watch.rs) and what they feed
    (`run_sag_watch` and `run_routes_watch` in src/wiring.rs). A run is the list of sessions
    the endless loop has gone through so far. */
module Watch {
  import opened Base
  import opened Retry
  import KernelTables
  import PolicySync
  import RouteSync

  datatype Update<P> = Update(version: u64, payload: P)

  /** No channel; a refused subscription; or a stream of updates that is closed by the
      server (`None`) or breaks with a status. */
  datatype Session<P> = NoChannel | Refused(status: Status) | Stream(updates: seq<Update<P>>, end: Option<Status>)

  /** What the consumer sees. */
  datatype Item<P> = Delivered(update: Update<P>) | Trouble

  /** Everything the server ever sent, over all connections. */
  function Received<P>(sessions: seq<Session<P>>): seq<Update<P>> {
    if sessions == [] then []
    else Received(sessions[..|sessions| - 1]) + if sessions[|sessions| - 1].Stream?
      then sessions[|sessions| - 1].updates else []
  }

  /** An update newer than everything received before it. */
  ghost predicate IsRecord<P>(us: seq<Update<P>>, i: nat)
    requires i < |us|
  {
    us[i].version > 0 && forall j | 0 <= j < i :: us[j].version < us[i].version
  }

  ghost function Records<P>(us: seq<Update<P>>): seq<Update<P>> {
    if us == [] then []
    else Records(us[..|us| - 1]) + if IsRecord(us, |us| - 1) then [us[|us| - 1]] else []
  }

  /** The newest version received, 0 for none. */
  ghost predicate Newest<P>(us: seq<Update<P>>, v: u64) {
    (forall u | u in us :: u.version <= v) && (v == 0 || exists u | u in us :: u.version == v)
  }

  function Updates<P>(items: seq<Item<P>>): seq<Update<P>> {
    if items == [] then []
    else Updates(items[..|items| - 1]) + if items[|items| - 1].Delivered? then [items[|items| - 1].update] else []
  }

  lemma UpdatesSnoc<P>(items: seq<Item<P>>, it: Item<P>)
    ensures Updates(items + [it]) == if it.Delivered? then Updates(items) + [it.update] else Updates(items)
  {
    assert (items + [it])[..|items|] == items;
    assert Updates(items) + [] == Updates(items);
  }

  lemma RecordsSnoc<P>(us: seq<Update<P>>, u: Update<P>, v: u64)
    requires Newest(us, v)
    ensures Records(us + [u]) == if u.version > v then Records(us) + [u] else Records(us)
    ensures Newest(us + [u], if u.version > v then u.version else v)
  {
    var us' := us + [u];
    assert us'[..|us|] == us;
    assert Records(us) + [] == Records(us);
    if u.version > v {
      forall j | 0 <= j < |us| ensures us'[j].version < us'[|us|].version { assert us'[j] == us[j] && us[j] in us; }
      assert IsRecord(us', |us|);
      assert us'[|us|] in us';
    } else {
      assert v > 0 ==> !IsRecord(us', |us|) by {
        if v > 0 {
          var w :| w in us && w.version == v;
          var j :| 0 <= j < |us| && us[j] == w;
          assert us'[j] == w;
        }
      }
      assert forall w | w in us :: w in us';
    }
  }

  lemma {:induction false} RecordsReceived<P>(us: seq<Update<P>>)
    ensures forall r | r in Records(us) :: r.version > 0 && r in us
  {
    if us != [] { RecordsReceived(us[..|us| - 1]); }
  }

  /** Strictly increasing and above 0. */
  lemma {:induction false} RecordsIncrease<P>(us: seq<Update<P>>)
    ensures forall i | 0 <= i < |Records(us)| :: Records(us)[i].version > 0
    ensures forall i, j | 0 <= i < j < |Records(us)| :: Records(us)[i].version < Records(us)[j].version
  {
    RecordsReceived(us);
    if us != [] {
      var n := |us| - 1;
      RecordsIncrease(us[..n]);
      RecordsReceived(us[..n]);
      forall r | r in Records(us[..n]) && IsRecord(us, n) ensures r.version < us[n].version {
        var j :| 0 <= j < n && us[..n][j] == r;
        assert us[j] == r;
      }
    }
  }

  /** And none is missing: an update newer than all before it is a record. */
  lemma {:induction false} RecordsComplete<P>(us: seq<Update<P>>, i: nat)
    requires i < |us| && IsRecord(us, i)
    ensures us[i] in Records(us)
  {
    var n := |us| - 1;
    if i < n {
      assert us[..n][i] == us[i] && IsRecord(us[..n], i);
      RecordsComplete(us[..n], i);
    }
  }

  // ---------------------------------------------------------------- the loop

  datatype Counters = Counters(hops: nat, failures: nat)

  function Redirected(status: Status, c: Counters): Counters {
    if Classify(status, c.hops).RedirectAndRetry? then c.(hops := c.hops + 1) else c
  }

  /** A session's effect on the redirect and failure counters. */
  function Count<P>(c: Counters, session: Session<P>): Counters {
    match session
    case NoChannel => c
    case Refused(status) => if Classify(status, c.hops).GiveUp? then c.(failures := c.failures + 1)
      else Redirected(status, c)
    case Stream(_, end) => if end.Some? then Redirected(end.value, Counters(0, 0)) else Counters(0, 0)
  }

  function CountAll<P>(sessions: seq<Session<P>>): Counters {
    if sessions == [] then Counters(0, 0) else Count(CountAll(sessions[..|sessions| - 1]), sessions[|sessions| - 1])
  }

  function LeaderOf(status: Status): seq<string> { if Redirects(status) then [Trim(status.leader.value)] else [] }

  /** Where a session sends the client: a refusal redirects while fewer than six redirects are
      counted, the end of a stream always may. */
  function SentTo<P>(session: Session<P>, hops: nat): seq<string> {
    match session
    case NoChannel => []
    case Refused(status) => if hops <= MAX_REDIRECT_HOPS then LeaderOf(status) else []
    case Stream(_, end) => if end.Some? then LeaderOf(end.value) else []
  }

  /** Whether the consumer is told of an error: when no channel is to be had, and when a refusal
      is given up. */
  predicate Complains<P>(session: Session<P>, hops: nat) {
    session.NoChannel? || (session.Refused? && (!session.status.unavailable || hops > MAX_REDIRECT_HOPS))
  }

  function Targets<P>(sessions: seq<Session<P>>): seq<string> {
    if sessions == [] then []
    else
      var init := sessions[..|sessions| - 1];
      Targets(init) + SentTo(sessions[|sessions| - 1], CountAll(init).hops)
  }

  function Errors<P>(sessions: seq<Session<P>>): nat {
    if sessions == [] then 0
    else
      var init := sessions[..|sessions| - 1];
      Errors(init) + if Complains(sessions[|sessions| - 1], CountAll(init).hops) then 1 else 0
  }

  /** How many subscriptions were opened. */
  function Subscriptions<P>(sessions: seq<Session<P>>): nat {
    if sessions == [] then 0
    else Subscriptions(sessions[..|sessions| - 1]) + if sessions[|sessions| - 1].NoChannel? then 0 else 1
  }

  function Troubles<P>(items: seq<Item<P>>): nat {
    if items == [] then 0 else Troubles(items[..|items| - 1]) + if items[|items| - 1].Trouble? then 1 else 0
  }

  lemma TroublesSnoc<P>(items: seq<Item<P>>, it: Item<P>)
    ensures Troubles(items + [it]) == Troubles(items) + if it.Trouble? then 1 else 0
  {
    assert (items + [it])[..|items|] == items;
  }

  /** Each subscription asks for what is newer than everything received before it. */
  ghost predicate AskedNewest<P>(sessions: seq<Session<P>>, requested: seq<u64>) {
    && |requested| == Subscriptions(sessions)
    && (sessions != [] ==>
          var init := sessions[..|sessions| - 1];
          if sessions[|sessions| - 1].NoChannel? then AskedNewest(init, requested)
          else
            && AskedNewest(init, requested[..|requested| - 1])
            && Newest(Received(init), requested[|requested| - 1]))
  }

  class VersionedWatch<P> {
    var lastKnownVersion: u64
    var redirectHops: nat
    var consecutiveFailures: nat
    var items: seq<Item<P>>
    var targets: seq<string>
    /** The versions subscriptions were opened with. */
    var requested: seq<u64>

    constructor ()
      ensures lastKnownVersion == 0 && redirectHops == 0 && consecutiveFailures == 0 && items == [] && targets == [] &&
                requested == []
    {
      lastKnownVersion, redirectHops, consecutiveFailures, items, targets, requested := 0, 0, 0, [], [], [];
    }

    method Redirect(status: Status) returns (action: Action)
      modifies this`redirectHops, this`targets
      ensures action == Classify(status, old(redirectHops))
      ensures redirectHops == Redirected(status, Counters(old(redirectHops), 0)).hops
      ensures targets == if action.RedirectAndRetry? then old(targets) + [action.target] else old(targets)
    {
      action := Classify(status, redirectHops);
      if action.RedirectAndRetry? {
        redirectHops := redirectHops + 1;
        targets := targets + [action.target];
      }
    }

    /** One stream to its end: each update newer than all before it is passed on. */
    method Drain(updates: seq<Update<P>>, ghost before: seq<Update<P>>)
      requires Newest(before, lastKnownVersion) && Updates(items) == Records(before)
      modifies this`lastKnownVersion, this`items
      ensures Newest(before + updates, lastKnownVersion) && Updates(items) == Records(before + updates)
      ensures old(items) <= items && Troubles(items) == old(Troubles(items))
    {
      hide Records, Updates, Newest, Troubles;
      assert before + [] == before;
      for i := 0 to |updates|
        invariant Newest(before + updates[..i], lastKnownVersion) && Updates(items) == Records(before + updates[..i])
        invariant old(items) <= items && Troubles(items) == old(Troubles(items))
      {
        var u := updates[i];
        assert before + updates[..i + 1] == before + updates[..i] + [u];
        RecordsSnoc(before + updates[..i], u, lastKnownVersion);
        if u.version > lastKnownVersion {
          lastKnownVersion := u.version;
          UpdatesSnoc(items, Delivered(u));
          TroublesSnoc(items, Delivered(u));
          items := items + [Delivered(u)];
        }
      }
      assert updates[..|updates|] == updates;
    }

    /** One turn of the outer loop. */
    method Turn(session: Session<P>, ghost before: seq<Update<P>>)
      requires Newest(before, lastKnownVersion) && Updates(items) == Records(before)
      modifies this
      ensures var got := if session.Stream? then before + session.updates else before;
              Newest(got, lastKnownVersion) && Updates(items) == Records(got)
      ensures Counters(redirectHops, consecutiveFailures) ==
                Count(old(Counters(redirectHops, consecutiveFailures)), session)
      ensures requested == if session.NoChannel? then old(requested) else old(requested) + [old(lastKnownVersion)]
      ensures targets == old(targets) + SentTo(session, old(redirectHops))
      ensures Troubles(items) == old(Troubles(items)) + if Complains(session, old(redirectHops)) then 1 else 0
    {
      hide Records, Updates, Newest, Troubles;
      match session {
        case NoChannel =>
          UpdatesSnoc(items, Trouble);
          TroublesSnoc(items, Trouble);
          items := items + [Trouble];
        case Refused(status) =>
          requested := requested + [lastKnownVersion];
          var action := Redirect(status);
          if action.GiveUp? {
            consecutiveFailures := consecutiveFailures + 1;
            UpdatesSnoc(items, Trouble);
            TroublesSnoc(items, Trouble);
            items := items + [Trouble];
          }
        case Stream(updates, end) =>
          requested := requested + [lastKnownVersion];
          consecutiveFailures, redirectHops := 0, 0;
          Drain(updates, before);
          if end.Some? { var _ := Redirect(end.value); }
      }
    }

    /** Over every sequence of connects, closes, errors and redirects, the updates passed on
        are exactly the records of what was received, and the last known version is the
        newest received. */
    method Follow(sessions: seq<Session<P>>)
      requires lastKnownVersion == 0 && redirectHops == 0 && consecutiveFailures == 0
      requires items == [] && requested == [] && targets == []
      modifies this
      ensures Updates(items) == Records(Received(sessions)) && Newest(Received(sessions), lastKnownVersion)
      ensures Counters(redirectHops, consecutiveFailures) == CountAll(sessions)
      ensures redirectHops <= MAX_REDIRECT_HOPS + 1
      ensures AskedNewest(sessions, requested) && targets == Targets(sessions) && Troubles(items) == Errors(sessions)
    {
      hide Records, Updates, Newest, Count, SentTo, Complains, Received, Troubles;
      Nothing<P>();
      for i := 0 to |sessions|
        invariant Updates(items) == Records(Received(sessions[..i])) &&
                    Newest(Received(sessions[..i]), lastKnownVersion)
        invariant Counters(redirectHops, consecutiveFailures) == CountAll(sessions[..i])
        invariant AskedNewest(sessions[..i], requested)
        invariant targets == Targets(sessions[..i]) && Troubles(items) == Errors(sessions[..i])
      {
        assert sessions[..i + 1][..i] == sessions[..i];
        ReceivedSnoc(sessions[..i], sessions[i]);
        assert sessions[..i] + [sessions[i]] == sessions[..i + 1];
        ghost var was := requested;
        Turn(sessions[i], Received(sessions[..i]));
        assert (was + requested[|was|..])[..|was|] == was;
      }
      assert sessions[..|sessions|] == sessions;
      HopsBounded(sessions);
    }
  }

  lemma Nothing<P>()
    ensures Updates<P>([]) == Records<P>([]) == Received<P>([]) == [] && Newest<P>([], 0) && Troubles<P>([]) == 0
  {
  }

  lemma ReceivedSnoc<P>(sessions: seq<Session<P>>, last: Session<P>)
    ensures Received(sessions + [last]) ==
            if last.Stream? then Received(sessions) + last.updates else Received(sessions)
  {
    assert (sessions + [last])[..|sessions|] == sessions;
    assert Received(sessions) + [] == Received(sessions);
  }

  // ---------------------------------------------------------------- counters

  /** Six redirects in a row are followed, never more, and the count is kept until a
      subscription is accepted again. */
  lemma {:induction false} HopsBounded<P>(sessions: seq<Session<P>>)
    ensures CountAll(sessions).hops <= MAX_REDIRECT_HOPS + 1
  {
    if sessions != [] { HopsBounded(sessions[..|sessions| - 1]); }
  }

  /** How many of the sessions are refusals that redirect. */
  function RedirectsIn<P>(sessions: seq<Session<P>>): nat {
    if sessions == [] then 0
    else
      var last := sessions[|sessions| - 1];
      RedirectsIn(sessions[..|sessions| - 1]) + if last.Refused? && Redirects(last.status) then 1 else 0
  }

  /** How many are refusals that are given up, when `hops` redirects precede them: those that are
      not UNAVAILABLE, and all that come after the sixth redirect. */
  function FailuresIn<P>(sessions: seq<Session<P>>, hops: nat): nat {
    if sessions == [] then 0
    else
      var init, last := sessions[..|sessions| - 1], sessions[|sessions| - 1];
      FailuresIn(init, hops) +
      if last.Refused? && (!last.status.unavailable || hops + RedirectsIn(init) > MAX_REDIRECT_HOPS) then 1 else 0
  }

  /** An accepted subscription starts the counters afresh: whatever came before it, they count
      the redirects (six at most) and failures since, the redirect that ends its stream
      included. With none accepted yet they count from the beginning. */
  lemma {:induction false} CountsSince<P>(before: seq<Session<P>>, since: seq<Session<P>>)
    requires before == [] || before[|before| - 1].Stream?
    requires forall i | 0 <= i < |since| :: !since[i].Stream?
    ensures var end := if before == [] then None else before[|before| - 1].end;
            var hops := if end.Some? && Redirects(end.value) then 1 else 0;
            var total := hops + RedirectsIn(since);
            CountAll(before + since) ==
            Counters(if total <= MAX_REDIRECT_HOPS then total else MAX_REDIRECT_HOPS + 1, FailuresIn(since, hops))
  {
    if since == [] {
      assert before + since == before;
    } else {
      var init := since[..|since| - 1];
      assert (before + since)[..|before + since| - 1] == before + init;
      CountsSince(before, init);
    }
  }

  /** After the sixth redirect every refusal is a failure, whatever its status, until a
      subscription is accepted. */
  lemma {:induction false} NoMoreRedirects<P>(before: seq<Session<P>>, more: seq<Session<P>>)
    requires CountAll(before).hops == MAX_REDIRECT_HOPS + 1
    requires forall i | 0 <= i < |more| :: more[i].Refused?
    ensures CountAll(before + more) == Counters(MAX_REDIRECT_HOPS + 1, CountAll(before).failures + |more|)
  {
    if more == [] {
      assert before + more == before;
    } else {
      var init := more[..|more| - 1];
      assert (before + more)[..|before + more| - 1] == before + init;
      NoMoreRedirects(before, init);
    }
  }

  /** The backoff after a failure, when it is representable in 64 bits. */
  function Backoff(failures: nat): Option<nat> {
    if Doubled(failures) < Pow2(64) then Some(Capped(failures)) else None
  }

  /** The doubled delay fits a u64 exactly up to the 57th failure in a row. */
  lemma BackoffFitsIff(failures: nat)
    ensures Backoff(failures).Some? <==> failures <= 57
    ensures Backoff(failures).Some? ==> Backoff(failures).value == if failures < 6 then 100 * Pow2(failures) else 5000
  {
    hide Pow2;
    Pow2Splits(57, 7);
    Pow2Splits(58, 6);
    SmallPowers();
    if failures <= 57 { Pow2Monotone(failures, 57); } else { Pow2Monotone(58, failures); }
    if failures >= 6 { Pow2Monotone(6, failures); } else { Pow2Monotone(failures, 5); }
  }

  /** Every refusal with another status than UNAVAILABLE counts, so the 58th in a row is the
      first whose doubled delay no longer fits. */
  lemma {:induction false} RefusalsCount<P>(sessions: seq<Session<P>>)
    requires forall i | 0 <= i < |sessions| :: sessions[i].Refused? && !sessions[i].status.unavailable
    ensures CountAll(sessions) == Counters(0, |sessions|)
    ensures Backoff(CountAll(sessions).failures).None? <==> |sessions| >= 58
  {
    hide Backoff;
    if sessions != [] { RefusalsCount(sessions[..|sessions| - 1]); }
    BackoffFitsIff(|sessions|);
  }

  lemma SmallPowers()
    ensures Pow2(5) == 32 && Pow2(6) == 64 && Pow2(7) == 128
  {
    assert Pow2(1) == 2 && Pow2(2) == 4 && Pow2(3) == 8 && Pow2(4) == 16 && Pow2(5) == 32;
  }

  // ---------------------------------------------------------------- the second staleness guard

  /** Composed with policy sync: a delivered update is never stale to it, whatever became of
      the updates before it. */
  lemma {:induction false} PolicyNeverStale(us: seq<Update<Option<seq<PolicySync.Entry>>>>,
                                            states: seq<PolicySync.Policy>, frames: seq<PolicySync.Frame>)
    requires PolicySync.Run(states, frames) && states[0] == PolicySync.FRESH
    requires |frames| == |Records(us)| && forall i | 0 <= i < |frames| :: frames[i].version == Records(us)[i].version
    ensures forall i | 0 <= i < |frames| :: PolicySync.Sync(states[i], frames[i]).1 != KernelTables.Stale
  {
    hide Records, PolicySync.Ordered, KernelTables.PutAll, PolicySync.Rows, KernelTables.Diff, KernelTables.KeysOf;
    RecordsIncrease(us);
    forall i | 0 <= i < |frames| ensures PolicySync.Sync(states[i], frames[i]).1 != KernelTables.Stale {
      PolicyVersion(states, frames, i);
    }
  }

  lemma {:induction false} PolicyVersion(states: seq<PolicySync.Policy>, frames: seq<PolicySync.Frame>, i: nat)
    requires PolicySync.Run(states, frames) && states[0] == PolicySync.FRESH && i < |frames|
    requires forall i | 0 <= i < |frames| :: frames[i].version > 0
    requires forall i, j | 0 <= i < j < |frames| :: frames[i].version < frames[j].version
    ensures states[i].version < frames[i].version
  {
    hide PolicySync.Ordered, KernelTables.PutAll, PolicySync.Rows, KernelTables.Diff, KernelTables.KeysOf;
    if i > 0 { PolicyVersion(states, frames, i - 1); }
  }

  lemma {:induction false} LastRecordNewest<P>(us: seq<Update<P>>)
    ensures if Records(us) == [] then Newest(us, 0) else Newest(us, Records(us)[|Records(us)| - 1].version)
  {
    hide Records, Newest;
    if us == [] {
      Nothing<P>();
    } else {
      var init, u := us[..|us| - 1], us[|us| - 1];
      LastRecordNewest(init);
      var v := if Records(init) == [] then 0 else Records(init)[|Records(init)| - 1].version;
      RecordsSnoc(init, u, v);
      assert init + [u] == us;
    }
  }

  /** Watch and sync together, over any sessions: when every delivered update compiles and no
      kernel write fails, both policy tables hold exactly the keys of the newest update ever
      received, under its version. */
  lemma NewestPolicyInKernel(us: seq<Update<Option<seq<PolicySync.Entry>>>>, states: seq<PolicySync.Policy>,
                             frames: seq<PolicySync.Frame>)
    requires PolicySync.Run(states, frames) && states[0] == PolicySync.FRESH
    requires |frames| == |Records(us)| > 0
    requires forall i | 0 <= i < |frames| ::
              frames[i].version == Records(us)[i].version && frames[i].compiled == Records(us)[i].payload
    requires forall i | 0 <= i < |frames| ::
              PolicySync.Sync(states[i], frames[i]).1 !in {KernelTables.Rejected, KernelTables.MapError}
    ensures var newest, p := Records(us)[|frames| - 1], states[|frames|];
            && Newest(us, newest.version) && p.version == newest.version && newest.payload.Some?
            && p.exact.Keys == KernelTables.KeysOf(PolicySync.Rows(newest.payload.value, true))
            && p.wildcard.Keys == KernelTables.KeysOf(PolicySync.Rows(newest.payload.value, false))
  {
    hide Records, Newest, PolicySync.Ordered, KernelTables.PutAll, PolicySync.Rows, KernelTables.Diff,
      KernelTables.KeysOf, KernelTables.Introduced;
    var n := |frames| - 1;
    LastRecordNewest(us);
    PolicyNeverStale(us, states, frames);
    assert PolicySync.Sync(states[n], frames[n]).1 == KernelTables.Applied;
    PolicySync.RunSynced(states, frames);
  }

  lemma {:induction false} RoutesNeverStale(env: RouteSync.Env, us: seq<Update<seq<RouteSync.RouteEntry>>>,
                                            states: seq<RouteSync.Routes>, frames: seq<RouteSync.Frame>)
    requires RouteSync.Run(env, states, frames) && states[0] == RouteSync.FRESH
    requires |frames| == |Records(us)| && forall i | 0 <= i < |frames| :: frames[i].version == Records(us)[i].version
    ensures forall i | 0 <= i < |frames| :: RouteSync.Sync(env, states[i], frames[i]).1 != KernelTables.Stale
  {
    hide Records, RouteSync.Ordered, RouteSync.WriteAll, RouteSync.Mutations, RouteSync.ResolveAll, KernelTables.KeysOf;
    RecordsIncrease(us);
    forall i | 0 <= i < |frames| ensures RouteSync.Sync(env, states[i], frames[i]).1 != KernelTables.Stale {
      RouteVersion(env, states, frames, i);
    }
  }

  lemma {:induction false} RouteVersion(env: RouteSync.Env, states: seq<RouteSync.Routes>, frames: seq<RouteSync.Frame>,
                                        i: nat)
    requires RouteSync.Run(env, states, frames) && states[0] == RouteSync.FRESH && i < |frames|
    requires forall i | 0 <= i < |frames| :: frames[i].version > 0
    requires forall i, j | 0 <= i < j < |frames| :: frames[i].version < frames[j].version
    ensures states[i].version < frames[i].version
  {
    hide RouteSync.Ordered, RouteSync.WriteAll, RouteSync.Mutations, RouteSync.ResolveAll, KernelTables.KeysOf;
    if i > 0 { RouteVersion(env, states, frames, i - 1); }
  }
}
