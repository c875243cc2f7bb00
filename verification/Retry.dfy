/** Error classification and the retry loop of the unary calls (src/client/retry.rs and
    src/client/unary.rs). A server is any function from attempt number to what that attempt
    meets. */
module Retry {
  import opened Base

  const MAX_REDIRECT_HOPS: nat := 5
  const BASE_RETRY_DELAY_MS: nat := 100
  const MAX_RETRY_DELAY_MS: nat := 5000
  const MAX_TRANSIENT_RETRIES: nat := 3

  /** A failed call: whether its code is UNAVAILABLE, and its leader metadata when that is
      present and readable as text. */
  datatype Status = Status(unavailable: bool, leader: Option<string>)

  datatype Action = RetrySameTarget(delay: nat) | RedirectAndRetry(target: string, delay: nat) | GiveUp

  /** Readable metadata is visible ASCII, so its white space is blanks and tabs. */
  predicate Blank(c: char) { c == ' ' || c == '\t' }

  function Trim(s: string): (r: string)
    ensures r != "" ==> !Blank(r[0]) && !Blank(r[|r| - 1])
    ensures r == "" <==> forall i | 0 <= i < |s| :: Blank(s[i])
  {
    if s == "" then ""
    else if Blank(s[0]) then Trim(s[1..])
    else if Blank(s[|s| - 1]) then Trim(s[..|s| - 1])
    else s
  }

  /** Trimming takes blanks and tabs off both ends, all of them, and nothing else. */
  lemma TrimTakes(s: string) returns (from: nat, to: nat)
    ensures from <= to <= |s| && Trim(s) == s[from..to]
    ensures forall k | 0 <= k < from || to <= k < |s| :: s[k] == ' ' || s[k] == '\t'
    ensures from < to ==> s[from] !in {' ', '\t'} && s[to - 1] !in {' ', '\t'}
  {
    from, to := TrimSlice(s);
    if from < to { assert Trim(s)[0] == s[from] && Trim(s)[|Trim(s)| - 1] == s[to - 1]; }
  }

  lemma {:induction false} TrimSlice(s: string) returns (from: nat, to: nat)
    ensures from <= to <= |s| && Trim(s) == s[from..to]
    ensures forall k | 0 <= k < from || to <= k < |s| :: Blank(s[k])
  {
    hide Blank;
    if s == "" {
      from, to := 0, 0;
    } else if Blank(s[0]) {
      var t := s[1..];
      var i, j := TrimSlice(t);
      from, to := i + 1, j + 1;
      forall k | 1 <= k < from || to <= k < |s| ensures Blank(s[k]) { assert s[k] == t[k - 1]; }
    } else if Blank(s[|s| - 1]) {
      var t := s[..|s| - 1];
      from, to := TrimSlice(t);
      forall k | 0 <= k < from || to <= k < |s| ensures Blank(s[k]) { if k < |t| { assert s[k] == t[k]; } }
    } else {
      from, to := 0, |s|;
    }
  }

  function Doubled(n: nat): nat { BASE_RETRY_DELAY_MS * Pow2(n) }

  function Capped(n: nat): nat { if Doubled(n) < MAX_RETRY_DELAY_MS then Doubled(n) else MAX_RETRY_DELAY_MS }

  predicate Redirects(status: Status) { status.unavailable && status.leader.Some? && Trim(status.leader.value) != "" }

  function Classify(status: Status, hops: nat): Action {
    if hops > MAX_REDIRECT_HOPS then GiveUp
    else if status.unavailable then
      if status.leader.Some? && Trim(status.leader.value) != "" then RedirectAndRetry(Trim(status.leader.value), 0)
      else RetrySameTarget(Capped(hops))
    else GiveUp
  }

  /** What becomes of an error after so many redirects: past the fifth nothing is retried; an
      UNAVAILABLE with a leader that is not blank redirects there at once, without one it is
      retried after 100 ms doubled once per redirect; any other status is final. */
  lemma ClassifyIff(status: Status, hops: nat)
    ensures var hinted := status.leader.Some? && Trim(status.leader.value) != "";
            var action := Classify(status, hops);
            && (action.GiveUp? <==> hops > 5 || !status.unavailable)
            && (action.RedirectAndRetry? <==> hops <= 5 && status.unavailable && hinted)
            && (action.RedirectAndRetry? ==> action == RedirectAndRetry(Trim(status.leader.value), 0))
            && (action.RetrySameTarget? ==> action.delay == 100 * Pow2(hops))
  {
    hide Trim, Pow2, Capped;
    if Classify(status, hops).RetrySameTarget? { CapNeverBinds(status, hops); }
  }

  /** The 5000 ms cap never binds: a retry waits 100 ms doubled once per redirect so far. */
  lemma CapNeverBinds(status: Status, hops: nat)
    requires Classify(status, hops).RetrySameTarget?
    ensures Classify(status, hops).delay == Doubled(hops) <= 3200
  {
    assert Pow2(5) == 32 by { assert Pow2(0) == 1 && Pow2(1) == 2 && Pow2(2) == 4 && Pow2(3) == 8 && Pow2(4) == 16; }
    Pow2Monotone(hops, 5);
  }

  // ---------------------------------------------------------------- one call against any server

  datatype Attempt = NoChannel | Reply | Failed(status: Status)

  type Server = nat -> Attempt

  predicate IsRedirect(a: Attempt) { a.Failed? && Redirects(a.status) }

  predicate IsTransient(a: Attempt) { a.Failed? && a.status.unavailable && !Redirects(a.status) }

  function RedirectsBefore(s: Server, n: nat): (r: nat)
    ensures r <= n
  {
    if n == 0 then 0 else RedirectsBefore(s, n - 1) + if IsRedirect(s(n - 1)) then 1 else 0
  }

  function TransientsBefore(s: Server, n: nat): (r: nat)
    ensures r <= n
  {
    if n == 0 then 0 else TransientsBefore(s, n - 1) + if IsTransient(s(n - 1)) then 1 else 0
  }

  /** The addresses the first `n` attempts redirected to. */
  function Leaders(s: Server, n: nat): (r: seq<string>)
    ensures |r| == RedirectsBefore(s, n)
  {
    if n == 0 then []
    else Leaders(s, n - 1) + if IsRedirect(s(n - 1)) then [Trim(s(n - 1).status.leader.value)] else []
  }

  function SleptBefore(s: Server, n: nat): nat {
    if n == 0 then 0 else SleptBefore(s, n - 1) + if IsTransient(s(n - 1)) then Doubled(RedirectsBefore(s, n - 1))
      else 0
  }

  /** Attempt `i` fails in a way that lets the call go on. */
  predicate GoesOn(s: Server, i: nat) {
    && (IsRedirect(s(i)) || IsTransient(s(i)))
    && RedirectsBefore(s, i) <= MAX_REDIRECT_HOPS
    && TransientsBefore(s, i + 1) <= MAX_TRANSIENT_RETRIES
  }

  datatype CallResult = Success | ChannelError | Exhausted | Fatal

  /** The call makes attempts until the first that cannot go on. It succeeds exactly when
      that one is a reply; the targets and the sleep are those of the attempts before it. */
  method Call(s: Server) returns (result: CallResult, attempts: nat, targets: seq<string>, slept: nat)
    ensures attempts >= 1 && !GoesOn(s, attempts - 1) && forall i | 0 <= i < attempts - 1 :: GoesOn(s, i)
    ensures targets == Leaders(s, attempts - 1) && slept == SleptBefore(s, attempts - 1)
    ensures result == Success <==> s(attempts - 1).Reply?
    ensures result == ChannelError <==> s(attempts - 1).NoChannel?
    ensures result == Exhausted <==>
              IsTransient(s(attempts - 1)) && RedirectsBefore(s, attempts - 1) <= MAX_REDIRECT_HOPS
    ensures attempts <= 10 && |targets| <= 6 && slept <= 9600
  {
    hide Trim, Capped, Doubled, RedirectsBefore, TransientsBefore, Leaders, SleptBefore;
    var hops, retries := 0, 0;
    attempts, targets, slept := 0, [], 0;
    NoneBefore(s);
    while true
      invariant hops == RedirectsBefore(s, attempts) && retries == TransientsBefore(s, attempts)
      invariant targets == Leaders(s, attempts) && slept == SleptBefore(s, attempts)
      invariant forall i | 0 <= i < attempts :: GoesOn(s, i)
      invariant hops <= 6 && retries <= 3
      decreases (6 - hops) + (3 - retries)
    {
      var attempt := s(attempts);
      CallBounds(s, attempts);
      OneMore(s, attempts);
      attempts := attempts + 1;
      if attempt.NoChannel? { return ChannelError, attempts, targets, slept; }
      if attempt.Reply? { return Success, attempts, targets, slept; }
      match Classify(attempt.status, hops) {
        case RedirectAndRetry(target, _) =>
          hops := hops + 1;
          targets := targets + [target];
        case RetrySameTarget(delay) =>
          CapNeverBinds(attempt.status, hops);
          retries := retries + 1;
          if retries > MAX_TRANSIENT_RETRIES { return Exhausted, attempts, targets, slept; }
          slept := slept + delay;
        case GiveUp =>
          return Fatal, attempts, targets, slept;
      }
    }
  }

  lemma NoneBefore(s: Server)
    ensures RedirectsBefore(s, 0) == 0 && TransientsBefore(s, 0) == 0 && Leaders(s, 0) == [] && SleptBefore(s, 0) == 0
  {
  }

  lemma OneMore(s: Server, n: nat)
    ensures RedirectsBefore(s, n + 1) == RedirectsBefore(s, n) + if IsRedirect(s(n)) then 1 else 0
    ensures TransientsBefore(s, n + 1) == TransientsBefore(s, n) + if IsTransient(s(n)) then 1 else 0
    ensures Leaders(s, n + 1) == if IsRedirect(s(n)) then Leaders(s, n) + [Trim(s(n).status.leader.value)]
              else Leaders(s, n)
    ensures SleptBefore(s, n + 1) == SleptBefore(s, n) + if IsTransient(s(n)) then Doubled(RedirectsBefore(s, n)) else 0
  {
    assert Leaders(s, n) + [] == Leaders(s, n);
  }

  /** Against any server: at most 10 attempts, 6 redirects and 9600 ms of sleep. */
  lemma {:induction false} CallBounds(s: Server, n: nat)
    requires forall i | 0 <= i < n :: GoesOn(s, i)
    ensures n == RedirectsBefore(s, n) + TransientsBefore(s, n)
    ensures n <= 9 && RedirectsBefore(s, n) <= 6 && TransientsBefore(s, n) <= 3 &&
              SleptBefore(s, n) <= 3200 * TransientsBefore(s, n) <= 9600
  {
    if n > 0 {
      CallBounds(s, n - 1);
      assert GoesOn(s, n - 1);
      if IsTransient(s(n - 1)) { CapNeverBinds(s(n - 1).status, RedirectsBefore(s, n - 1)); }
    }
  }

  const REDIRECT: Attempt := Failed(Status(true, Some("a")))
  const TRANSIENT: Attempt := Failed(Status(true, None))

  /** Five redirects, three retries, a sixth redirect, an end. */
  function Worst(i: nat): Attempt { if i < 5 || i == 8 then REDIRECT else TRANSIENT }

  lemma WorstKinds(i: nat)
    ensures if i < 5 || i == 8 then IsRedirect(Worst(i)) else IsTransient(Worst(i))
  {
    assert Trim("a") == "a";
  }

  lemma {:induction false} WorstCounts(n: nat)
    requires n <= 9
    ensures RedirectsBefore(Worst, n) == if n <= 5 then n else if n <= 8 then 5 else 6
    ensures TransientsBefore(Worst, n) == if n <= 5 then 0 else if n <= 8 then n - 5 else 3
    ensures SleptBefore(Worst, n) == 3200 * TransientsBefore(Worst, n)
  {
    hide IsRedirect, IsTransient, Worst, Doubled;
    if n == 0 {
    } else {
      WorstCounts(n - 1);
      WorstKinds(n - 1);
      OneKind(Worst(n - 1));
      LongestDelay();
    }
  }

  lemma OneKind(a: Attempt)
    ensures !(IsRedirect(a) && IsTransient(a))
  {
  }

  lemma LongestDelay()
    ensures Doubled(5) == 3200
  {
    assert Pow2(1) == 2 && Pow2(2) == 4 && Pow2(3) == 8 && Pow2(4) == 16;
  }

  /** All three bounds are met at once. */
  lemma BoundsAttained()
    ensures (forall i | 0 <= i < 9 :: GoesOn(Worst, i)) && !GoesOn(Worst, 9)
    ensures RedirectsBefore(Worst, 9) == 6 && SleptBefore(Worst, 9) == 9600
  {
    hide IsRedirect, IsTransient, Worst, SleptBefore, RedirectsBefore, TransientsBefore;
    WorstCounts(9);
    forall i | 0 <= i < 9 ensures GoesOn(Worst, i) {
      WorstCounts(i);
      WorstCounts(i + 1);
      WorstKinds(i);
    }
  }
}
