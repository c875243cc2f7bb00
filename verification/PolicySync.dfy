/** Policy frames to POLICY_EXACT and POLICY_WILDCARD (src/policy/sync.rs and `sync_policy` in
    src/wiring.rs). The policy compiler is external: a frame carries the entries it yields,
    or nothing when conversion or compilation fails. */
module PolicySync {
  import opened Base
  import opened KernelTables

  const EXACT_MAX: nat := 8192
  const WILDCARD_MAX: nat := 4096

  /** A compiled entry; `None` is an entry for which no kernel key exists. */
  datatype Entry = Exact(key: Option<Bytes>, value: Bytes) | Wildcard(key: Option<Bytes>, value: Bytes)

  /** The rows a frame wants in each table, in frame order. */
  function Rows(entries: seq<Entry>, exact: bool): seq<(Bytes, Bytes)> {
    if entries == [] then []
    else
      var e := entries[|entries| - 1];
      Rows(entries[..|entries| - 1], exact) + if e.Exact? == exact && e.key.Some? then [(e.key.value, e.value)] else []
  }

  /** Exact entries go to one table and wildcard entries to the other, under their own key and
      value, and entries without a key to neither. */
  lemma {:induction false} RowsIff(entries: seq<Entry>, key: Bytes, value: Bytes)
    ensures (key, value) in Rows(entries, true) <==> Exact(Some(key), value) in entries
    ensures (key, value) in Rows(entries, false) <==> Wildcard(Some(key), value) in entries
  {
    if entries != [] {
      RowsIff(entries[..|entries| - 1], key, value);
      assert entries == entries[..|entries| - 1] + [entries[|entries| - 1]];
    }
  }

  /** The userspace mirror, and the two kernel tables it mirrors. */
  datatype Policy = Policy(
    version: u64,
    exactKeys: set<Bytes>,
    wildcardKeys: set<Bytes>,
    exact: map<Bytes, Bytes>,
    wildcard: map<Bytes, Bytes>)

  /** A frame, the order in which the mirror's hash sets list removals, whether the manager's
      lock is to be had, and after how many kernel writes the next one fails. */
  datatype Frame = Frame(
    version: u64,
    compiled: Option<seq<Entry>>,
    exactOrder: seq<Bytes>,
    wildcardOrder: seq<Bytes>,
    lock: bool,
    budget: nat)

  ghost predicate Ordered(p: Policy, frame: Frame) {
    frame.version > p.version && frame.compiled.Some? ==>
      && Obsolete(Rows(frame.compiled.value, true), p.exactKeys, frame.exactOrder)
      && Obsolete(Rows(frame.compiled.value, false), p.wildcardKeys, frame.wildcardOrder)
  }

  /** Writes go to the kernel first; the mirror and version follow only when all succeed. */
  function Sync(p: Policy, frame: Frame): (Policy, Outcome) {
    if frame.version <= p.version then (p, Stale)
    else if frame.compiled.None? then (p, Rejected)
    else if !frame.lock then (p, MapError)
    else
      var xs, ws := Rows(frame.compiled.value, true), Rows(frame.compiled.value, false);
      var dx, dw := Diff(xs, p.exactKeys, frame.exactOrder), Diff(ws, p.wildcardKeys, frame.wildcardOrder);
      var (exact, ok) := PutAll(p.exact, EXACT_MAX, dx, frame.budget);
      if !ok then (p.(exact := exact), MapError)
      else
        var (wildcard, ok') := PutAll(p.wildcard, WILDCARD_MAX, dw, frame.budget - |dx|);
        if !ok' then (p.(exact := exact, wildcard := wildcard), MapError)
        else (Policy(frame.version, KeysOf(xs), KeysOf(ws), exact, wildcard), Applied)
  }

  const FRESH: Policy := Policy(0, {}, {}, map[], map[])

  /** What a frame comes to: one that is not newer is stale, a newer one that does not compile is
      rejected, and both change nothing. The version is the frame's once it is applied and stays
      until then, and so do the mirrors. */
  lemma OutcomeIff(p: Policy, frame: Frame)
    ensures var (q, outcome) := Sync(p, frame);
            && (outcome == Stale <==> frame.version <= p.version)
            && (outcome == Rejected <==> frame.version > p.version && frame.compiled.None?)
            && (outcome in {Stale, Rejected} ==> q == p)
            && (outcome == MapError ==> q == p.(exact := q.exact, wildcard := q.wildcard))
            && (outcome == Applied ==>
                  && q.version == frame.version
                  && q.exactKeys == (set e | e in frame.compiled.value && e.Exact? && e.key.Some? :: e.key.value)
                  && q.wildcardKeys == (set e | e in frame.compiled.value && e.Wildcard? && e.key.Some? :: e.key.value))
  {
    hide PutAll, Diff, Rows, KeysOf;
    if frame.compiled.Some? { RowKeys(frame.compiled.value); }
  }

  lemma {:induction false} RowKeys(entries: seq<Entry>)
    ensures KeysOf(Rows(entries, true)) == (set e | e in entries && e.Exact? && e.key.Some? :: e.key.value)
    ensures KeysOf(Rows(entries, false)) == (set e | e in entries && e.Wildcard? && e.key.Some? :: e.key.value)
  {
    var xs, ws := Rows(entries, true), Rows(entries, false);
    forall i | 0 <= i < |xs| ensures Exact(Some(xs[i].0), xs[i].1) in entries { RowsIff(entries, xs[i].0, xs[i].1); }
    forall i | 0 <= i < |ws| ensures Wildcard(Some(ws[i].0), ws[i].1) in entries { RowsIff(entries, ws[i].0, ws[i].1); }
    forall e | e in entries && e.key.Some?
      ensures if e.Exact? then e.key.value in KeysOf(xs) else e.key.value in KeysOf(ws)
    {
      RowsIff(entries, e.key.value, e.value);
      InKeys(if e.Exact? then xs else ws, e.key.value, e.value);
    }
  }

  lemma InKeys(rows: seq<(Bytes, Bytes)>, key: Bytes, value: Bytes)
    requires (key, value) in rows
    ensures key in KeysOf(rows)
  {
    var i :| 0 <= i < |rows| && rows[i] == (key, value);
    assert rows[i].0 == key;
  }

  ghost predicate Fits(p: Policy) { |p.exact| <= EXACT_MAX && |p.wildcard| <= WILDCARD_MAX }

  ghost predicate InStep(p: Policy) { p.exactKeys == p.exact.Keys && p.wildcardKeys == p.wildcard.Keys && Fits(p) }

  // ---------------------------------------------------------------- one frame

  /** A table that differs from its mirror only by keys the frame adds or drops: every kept
      key is there, and none but old and desired keys are. */
  ghost predicate Within<K, V>(mirror: set<K>, t: map<K, V>, desired: set<K>) {
    t.Keys - mirror <= desired - mirror && mirror - t.Keys <= mirror - desired
  }

  lemma InStepWithin<K, V>(t: map<K, V>, cap: nat, entries: seq<(K, V)>, order: seq<K>, budget: nat)
    requires Obsolete(entries, t.Keys, order) && |t| <= cap
    ensures var u := PutAll(t, cap, Diff(entries, t.Keys, order), budget).0;
            |u| <= cap && Within(t.Keys, u, KeysOf(entries))
  {
    hide PutAll, KeysOf, Diff, Obsolete;
    SyncTable(t, cap, entries, t.Keys, order, budget);
  }

  lemma UnwrittenWithin<K, V>(t: map<K, V>, desired: set<K>)
    ensures Within(t.Keys, t, desired)
  {
  }

  /** A frame that stops part way leaves the mirror and version alone, and the kernel differs
      from the mirror only in keys that the frame was inserting or removing. */
  lemma StoppedFrame(p: Policy, frame: Frame)
    requires InStep(p) && Ordered(p, frame) && Sync(p, frame).1 == MapError
    ensures var q := Sync(p, frame).0;
            var xs, ws := Rows(frame.compiled.value, true), Rows(frame.compiled.value, false);
            && q == p.(exact := q.exact, wildcard := q.wildcard) && Fits(q)
            && Within(p.exactKeys, q.exact, KeysOf(xs)) && Within(p.wildcardKeys, q.wildcard, KeysOf(ws))
  {
    hide PutAll, Rows, KeysOf, Diff, Obsolete, Within;
    var xs, ws := Rows(frame.compiled.value, true), Rows(frame.compiled.value, false);
    var dx := Diff(xs, p.exactKeys, frame.exactOrder);
    UnwrittenWithin(p.exact, KeysOf(xs));
    UnwrittenWithin(p.wildcard, KeysOf(ws));
    InStepWithin(p.exact, EXACT_MAX, xs, frame.exactOrder, frame.budget);
    if PutAll(p.exact, EXACT_MAX, dx, frame.budget).1 {
      InStepWithin(p.wildcard, WILDCARD_MAX, ws, frame.wildcardOrder, frame.budget - |dx|);
    }
  }

  /** From any state, a newer frame that compiles is applied exactly when the lock is had, no
      write fails of itself, and each table can take it: there is room, and the frame lists
      every mirrored key that the table has lost. */
  lemma AppliedIff(p: Policy, frame: Frame)
    requires Fits(p) && Ordered(p, frame) && frame.version > p.version && frame.compiled.Some?
    ensures var xs, ws := Rows(frame.compiled.value, true), Rows(frame.compiled.value, false);
            Sync(p, frame).1 == Applied <==>
              && frame.lock
              && |Diff(xs, p.exactKeys, frame.exactOrder)| + |Diff(ws, p.wildcardKeys, frame.wildcardOrder)| <=
                   frame.budget
              && Receives(p.exact, EXACT_MAX, xs, p.exactKeys) && Receives(p.wildcard, WILDCARD_MAX, ws, p.wildcardKeys)
  {
    hide PutAll, Rows, Diff, Obsolete, Receives;
    var xs, ws := Rows(frame.compiled.value, true), Rows(frame.compiled.value, false);
    var dx := Diff(xs, p.exactKeys, frame.exactOrder);
    ReceivesIff(p.exact, EXACT_MAX, xs, p.exactKeys, frame.exactOrder, frame.budget);
    if PutAll(p.exact, EXACT_MAX, dx, frame.budget).1 {
      ReceivesIff(p.wildcard, WILDCARD_MAX, ws, p.wildcardKeys, frame.wildcardOrder, frame.budget - |dx|);
    }
  }

  /** In step, the tables can take a frame exactly when old and desired keys fit together, so
      no capacity error arises when they do. */
  lemma InStepReceivesIff(p: Policy, xs: seq<(Bytes, Bytes)>, ws: seq<(Bytes, Bytes)>)
    requires InStep(p)
    ensures Receives(p.exact, EXACT_MAX, xs, p.exactKeys) <==> FitTogether(p.exactKeys, xs, 8192)
    ensures Receives(p.wildcard, WILDCARD_MAX, ws, p.wildcardKeys) <==> FitTogether(p.wildcardKeys, ws, 4096)
  {
    hide Receives, FitTogether;
    ReceivesInStep(p.exact, EXACT_MAX, xs);
    ReceivesInStep(p.wildcard, WILDCARD_MAX, ws);
  }

  // ---------------------------------------------------------------- runs

  /** The states a series of frames passes through. */
  ghost predicate Run(states: seq<Policy>, frames: seq<Frame>) {
    && |states| == |frames| + 1
    && forall i | 0 <= i < |frames| :: Ordered(states[i], frames[i]) && states[i + 1] == Sync(states[i], frames[i]).0
  }

  /** The entries of the frames that were applied, oldest first. */
  ghost function History(states: seq<Policy>, frames: seq<Frame>): seq<seq<Entry>>
    requires |states| == |frames| + 1
  {
    if frames == [] then []
    else
      var n := |frames| - 1;
      History(states[..n + 1], frames[..n]) +
      if Sync(states[n], frames[n]).1 == Applied then [frames[n].compiled.value] else []
  }

  function RowsOfAll(h: seq<seq<Entry>>, exact: bool): (r: seq<seq<(Bytes, Bytes)>>)
    ensures |r| == |h|
  {
    if h == [] then [] else RowsOfAll(h[..|h| - 1], exact) + [Rows(h[|h| - 1], exact)]
  }

  /** What the run amounts to: both tables and mirrors track the applied frames. */
  ghost predicate Synced(p: Policy, h: seq<seq<Entry>>) {
    && Fits(p)
    && Tracks(RowsOfAll(h, true), p.exact, p.exactKeys)
    && Tracks(RowsOfAll(h, false), p.wildcard, p.wildcardKeys)
  }

  /** An applied frame in terms of its two tables. */
  lemma AppliedTables(p: Policy, frame: Frame)
    requires Sync(p, frame).1 == Applied
    ensures frame.version > p.version && frame.compiled.Some?
    ensures var xs, ws := Rows(frame.compiled.value, true), Rows(frame.compiled.value, false);
            var dx, dw := Diff(xs, p.exactKeys, frame.exactOrder), Diff(ws, p.wildcardKeys, frame.wildcardOrder);
            var x := PutAll(p.exact, EXACT_MAX, dx, frame.budget);
            && x.1 && |dx| <= frame.budget
            && PutAll(p.wildcard, WILDCARD_MAX, dw, frame.budget - |dx|).1
            && Sync(p, frame).0 == Policy(frame.version, KeysOf(xs), KeysOf(ws), x.0,
                 PutAll(p.wildcard, WILDCARD_MAX, dw, frame.budget - |dx|).0)
  {
    hide PutAll, Rows, KeysOf, Diff;
  }

  lemma SyncedStep(p: Policy, h: seq<seq<Entry>>, frame: Frame)
    requires Synced(p, h) && Ordered(p, frame) && Sync(p, frame).1 == Applied
    ensures Synced(Sync(p, frame).0, h + [frame.compiled.value])
  {
    hide PutAll, Rows, KeysOf, Diff, Obsolete, Tracks;
    var entries := frame.compiled.value;
    var xs, ws := Rows(entries, true), Rows(entries, false);
    var dx := Diff(xs, p.exactKeys, frame.exactOrder);
    TracksStep(RowsOfAll(h, true), p.exact, EXACT_MAX, xs, p.exactKeys, frame.exactOrder, frame.budget);
    TracksStep(RowsOfAll(h, false), p.wildcard, WILDCARD_MAX, ws, p.wildcardKeys, frame.wildcardOrder,
      frame.budget - |dx|);
    assert (h + [entries])[..|h|] == h;
  }

  /** Over every run in which no kernel write fails: in both tables kernel keys, mirror keys
      and the last applied frame's keys are the same, and each stored value is the last one
      compiled for its key in the frame that most recently introduced it. */
  lemma {:induction false} RunSynced(states: seq<Policy>, frames: seq<Frame>)
    requires Run(states, frames) && states[0] == FRESH
    requires forall i | 0 <= i < |frames| :: Sync(states[i], frames[i]).1 != MapError
    ensures Synced(states[|frames|], History(states, frames))
  {
    hide PutAll, Rows, KeysOf, Diff, Obsolete, Tracks, Synced;
    if frames == [] {
      FreshSynced();
    } else {
      var n := |frames| - 1;
      RunSynced(states[..n + 1], frames[..n]);
      var h := History(states[..n + 1], frames[..n]);
      assert h + [] == h;
      if Sync(states[n], frames[n]).1 == Applied { SyncedStep(states[n], h, frames[n]); }
    }
  }

  lemma FreshSynced()
    ensures Synced(FRESH, [])
  {
  }

  /** A kept key's new value never reaches the kernel, though the frame is applied. */
  lemma KeptValueStays()
    ensures var p := Policy(1, {[7]}, {}, map[[7] := [10]], map[]);
            var (q, outcome) := Sync(p, Frame(2, Some([Exact(Some([7]), [20])]), [], [], true, 0));
            outcome == Applied && q.version == 2 && q.exact[[7]] == [10]
  {
    var e := [Exact(Some([7]), [20])];
    assert e[..0] == [];
    assert Rows(e, true) == [([7], [20])] && Rows(e, false) == [];
    assert [([7], [20])][..0] == [];
  }

  // ---------------------------------------------------------------- after a failed frame

  ghost function Listed(h: seq<seq<Entry>>, exact: bool): set<Bytes> {
    if h == [] then {} else Listed(h[..|h| - 1], exact) + KeysOf(Rows(h[|h| - 1], exact))
  }

  /** How far the kernel is from the mirror: keys that are mirrored only (`lost`) and keys
      that are in the kernel only (`extra`). */
  datatype Gap = Gap(lostExact: set<Bytes>, extraExact: set<Bytes>, lostWildcard: set<Bytes>, extraWildcard: set<Bytes>)

  ghost predicate HasGap(p: Policy, g: Gap) {
    && Fits(p)
    && Drift(p.exactKeys, p.exact, g.lostExact, g.extraExact)
    && Drift(p.wildcardKeys, p.wildcard, g.lostWildcard, g.extraWildcard)
  }

  ghost function Narrowed(g: Gap, h: seq<seq<Entry>>): Gap {
    g.(extraExact := g.extraExact - Listed(h, true), extraWildcard := g.extraWildcard - Listed(h, false))
  }

  /** From any state at all, over every run without a failed write: lost keys stay lost, and
      of the extra keys exactly those that some applied frame lists have become tracked. */
  lemma {:induction false} GapRun(states: seq<Policy>, frames: seq<Frame>, g: Gap)
    requires Run(states, frames) && HasGap(states[0], g)
    requires forall i | 0 <= i < |frames| :: Sync(states[i], frames[i]).1 != MapError
    ensures HasGap(states[|frames|], Narrowed(g, History(states, frames)))
  {
    hide PutAll, Rows, KeysOf, Diff, Obsolete, HasGap, Listed, Narrowed, Ordered;
    if frames == [] {
      NarrowedByNone(g);
    } else {
      var n := |frames| - 1;
      GapRun(states[..n + 1], frames[..n], g);
      var h := History(states[..n + 1], frames[..n]);
      assert h + [] == h;
      if Sync(states[n], frames[n]).1 == Applied {
        GapStep(states[n], frames[n], Narrowed(g, h));
        NarrowedMore(g, h, frames[n].compiled.value);
      }
    }
  }

  lemma GapStep(p: Policy, frame: Frame, g: Gap)
    requires HasGap(p, g) && Ordered(p, frame) && Sync(p, frame).1 == Applied
    ensures HasGap(Sync(p, frame).0, Narrowed(g, [frame.compiled.value]))
  {
    hide PutAll, Rows, KeysOf, Diff, Obsolete, Drift, Sync, Listed;
    AppliedTables(p, frame);
    var entries := frame.compiled.value;
    var xs, ws := Rows(entries, true), Rows(entries, false);
    var dx := Diff(xs, p.exactKeys, frame.exactOrder);
    DriftStep(p.exact, EXACT_MAX, xs, p.exactKeys, frame.exactOrder, frame.budget, g.lostExact, g.extraExact);
    DriftStep(p.wildcard, WILDCARD_MAX, ws, p.wildcardKeys, frame.wildcardOrder, frame.budget - |dx|, g.lostWildcard,
      g.extraWildcard);
    ListedOne(entries, true);
    ListedOne(entries, false);
  }

  lemma ListedOne(entries: seq<Entry>, exact: bool)
    ensures Listed([entries], exact) == KeysOf(Rows(entries, exact))
  {
    hide KeysOf, Rows;
    assert [entries][..0] == [];
  }

  lemma NarrowedByNone(g: Gap)
    ensures Narrowed(g, []) == g
  {
  }

  lemma NarrowedMore(g: Gap, h: seq<seq<Entry>>, entries: seq<Entry>)
    ensures Narrowed(Narrowed(g, h), [entries]) == Narrowed(g, h + [entries])
  {
    hide Rows, KeysOf;
    assert (h + [entries])[..|h|] == h && [entries][..0] == [];
    forall b: bool ensures Listed(h + [entries], b) == Listed(h, b) + Listed([entries], b) {}
    assert forall a: set<Bytes>, b, c :: a - b - c == a - (b + c);
  }

  /** A frame that stops inside the exact insertions, then any run without a failed write:
      the wildcard table is exact, and POLICY_EXACT holds the mirrored keys plus those of the
      partial insertions that no later applied frame lists. */
  lemma StopThenRun(p: Policy, stopped: Frame, states: seq<Policy>, frames: seq<Frame>)
    requires InStep(p) && Ordered(p, stopped) && Sync(p, stopped).1 == MapError && stopped.lock
    requires NoneRemoved(p.exact, EXACT_MAX, Rows(stopped.compiled.value, true), p.exactKeys, stopped.budget)
    requires Run(states, frames) && states[0] == Sync(p, stopped).0
    requires forall i | 0 <= i < |frames| :: Sync(states[i], frames[i]).1 != MapError
    ensures var partial := states[0].exact.Keys - p.exactKeys;
            var q := states[|frames|];
            && partial <= KeysOf(Rows(stopped.compiled.value, true))
            && q.wildcard.Keys == q.wildcardKeys
            && q.exact.Keys == q.exactKeys + (partial - Listed(History(states, frames), true))
  {
    hide PutAll, Rows, KeysOf, Diff, Obsolete, Listed, History, HasGap, Narrowed, Sync, Ordered, InStep, NoneRemoved;
    var partial := states[0].exact.Keys - p.exactKeys;
    StoppedInInserts(p, stopped);
    GapRun(states, frames, Gap({}, partial, {}, {}));
    GapMeans(states[|frames|], partial, History(states, frames));
  }

  lemma GapMeans(q: Policy, partial: set<Bytes>, h: seq<seq<Entry>>)
    requires HasGap(q, Narrowed(Gap({}, partial, {}, {}), h))
    ensures q.wildcard.Keys == q.wildcardKeys && q.exact.Keys == q.exactKeys + (partial - Listed(h, true))
  {
    hide Listed;
  }

  lemma StoppedInInserts(p: Policy, stopped: Frame)
    requires InStep(p) && Ordered(p, stopped) && Sync(p, stopped).1 == MapError && stopped.lock
    requires NoneRemoved(p.exact, EXACT_MAX, Rows(stopped.compiled.value, true), p.exactKeys, stopped.budget)
    ensures var q := Sync(p, stopped).0;
            var partial := q.exact.Keys - p.exactKeys;
            partial <= KeysOf(Rows(stopped.compiled.value, true)) && HasGap(q, Gap({}, partial, {}, {}))
  {
    hide PutAll, Rows, KeysOf, Obsolete, NoneRemoved, Diff, Sync, Drift;
    Attempted(p, stopped);
    StopInInserts(p.exact, EXACT_MAX, Rows(stopped.compiled.value, true), stopped.exactOrder, stopped.budget);
    WildcardUntouched(p, stopped);
    NoDrift(p.wildcard);
  }

  lemma Attempted(p: Policy, frame: Frame)
    requires Sync(p, frame).1 in {MapError, Applied}
    ensures frame.version > p.version && frame.compiled.Some?
  {
    hide PutAll, Rows, KeysOf, Diff;
  }

  lemma NoDrift<K, V>(t: map<K, V>)
    ensures Drift(t.Keys, t, {}, {})
  {
  }

  lemma WildcardUntouched(p: Policy, stopped: Frame)
    requires InStep(p) && Ordered(p, stopped) && Sync(p, stopped).1 == MapError && stopped.lock
    requires NoneRemoved(p.exact, EXACT_MAX, Rows(stopped.compiled.value, true), p.exactKeys, stopped.budget)
    ensures var dx := Diff(Rows(stopped.compiled.value, true), p.exactKeys, stopped.exactOrder);
            Sync(p, stopped).0 == p.(exact := PutAll(p.exact, EXACT_MAX, dx, stopped.budget).0)
  {
    hide PutAll, Rows, KeysOf, Obsolete, NoneRemoved, Diff;
    var ws := Rows(stopped.compiled.value, false);
    StopInInserts(p.exact, EXACT_MAX, Rows(stopped.compiled.value, true), stopped.exactOrder, stopped.budget);
    StoppedAtOnce(p.wildcard, WILDCARD_MAX, Diff(ws, p.wildcardKeys, stopped.wildcardOrder));
  }

  /** A frame that stops inside the wildcard insertions, then any run without a failed write:
      no wildcard key is lost and POLICY_WILDCARD holds the mirrored keys plus the partial
      insertions never listed since, while POLICY_EXACT, already written, has lost what that
      frame dropped and keeps of what it added the keys never listed since. */
  lemma StopInWildcardThenRun(p: Policy, stopped: Frame, states: seq<Policy>, frames: seq<Frame>)
    requires InStep(p) && Ordered(p, stopped) && Sync(p, stopped).1 == MapError && ExactWritten(p, stopped)
    requires Run(states, frames) && states[0] == Sync(p, stopped).0
    requires forall i | 0 <= i < |frames| :: Sync(states[i], frames[i]).1 != MapError
    ensures var partial, D := states[0].wildcard.Keys - p.wildcardKeys, KeysOf(Rows(stopped.compiled.value, true));
            var q, h := states[|frames|], History(states, frames);
            && partial <= KeysOf(Rows(stopped.compiled.value, false))
            && q.wildcard.Keys == q.wildcardKeys + (partial - Listed(h, false))
            && q.exactKeys - q.exact.Keys == p.exactKeys - D
            && q.exact.Keys - q.exactKeys == D - p.exactKeys - Listed(h, true)
  {
    hide PutAll, Rows, KeysOf, Diff, Obsolete, Listed, History, HasGap, Narrowed, Sync, Ordered, InStep, ExactWritten;
    Attempted(p, stopped);
    var partial, D := states[0].wildcard.Keys - p.wildcardKeys, KeysOf(Rows(stopped.compiled.value, true));
    StoppedInWildcard(p, stopped);
    var g := Gap(p.exactKeys - D, D - p.exactKeys, {}, partial);
    GapRun(states, frames, g);
    GapSpelled(states[|frames|], g, History(states, frames));
  }

  /** The exact table is written in full and the wildcard one no further than its insertions. */
  ghost predicate ExactWritten(p: Policy, frame: Frame)
    requires frame.version > p.version && frame.compiled.Some?
  {
    var dx := Diff(Rows(frame.compiled.value, true), p.exactKeys, frame.exactOrder);
    && frame.lock && PutAll(p.exact, EXACT_MAX, dx, frame.budget).1
    && NoneRemoved(p.wildcard, WILDCARD_MAX, Rows(frame.compiled.value, false), p.wildcardKeys, frame.budget - |dx|)
  }

  lemma StoppedInWildcard(p: Policy, stopped: Frame)
    requires InStep(p) && Ordered(p, stopped) && Sync(p, stopped).1 == MapError && ExactWritten(p, stopped)
    ensures var q, D := Sync(p, stopped).0, KeysOf(Rows(stopped.compiled.value, true));
            var partial := q.wildcard.Keys - p.wildcardKeys;
            && partial <= KeysOf(Rows(stopped.compiled.value, false))
            && HasGap(q, Gap(p.exactKeys - D, D - p.exactKeys, {}, partial))
  {
    hide PutAll, Rows, KeysOf, Obsolete, NoneRemoved, Diff, Drift;
    var xs, ws := Rows(stopped.compiled.value, true), Rows(stopped.compiled.value, false);
    var dx := Diff(xs, p.exactKeys, stopped.exactOrder);
    Advanced(p.exact, EXACT_MAX, xs, stopped.exactOrder, stopped.budget);
    StopInInserts(p.wildcard, WILDCARD_MAX, ws, stopped.wildcardOrder, stopped.budget - |dx|);
  }

  /** A table written ahead of its mirror. */
  lemma Advanced<K, V>(t: map<K, V>, cap: nat, entries: seq<(K, V)>, order: seq<K>, budget: nat)
    requires Obsolete(entries, t.Keys, order) && |t| <= cap && PutAll(t, cap, Diff(entries, t.Keys, order), budget).1
    ensures var u := PutAll(t, cap, Diff(entries, t.Keys, order), budget).0;
            |u| <= cap && Drift(t.Keys, u, t.Keys - KeysOf(entries), KeysOf(entries) - t.Keys)
  {
    hide PutAll, KeysOf, Obsolete, Diff, Latest;
    InStepApplied(t, cap, entries, order, budget);
  }

  lemma GapSpelled(q: Policy, g: Gap, h: seq<seq<Entry>>)
    requires HasGap(q, Narrowed(g, h)) && g.lostWildcard == {}
    ensures q.wildcard.Keys == q.wildcardKeys + (g.extraWildcard - Listed(h, false))
    ensures q.exactKeys - q.exact.Keys == g.lostExact && q.exact.Keys - q.exactKeys == g.extraExact - Listed(h, true)
  {
    hide Listed;
  }

  // ---------------------------------------------------------------- keys that are lost

  /** Mirrored keys that the kernel does not have. */
  ghost function LostExact(p: Policy): set<Bytes> { p.exactKeys - p.exact.Keys }

  ghost function LostWildcard(p: Policy): set<Bytes> { p.wildcardKeys - p.wildcard.Keys }

  lemma LostStep(p: Policy, frame: Frame)
    requires Fits(p) && Ordered(p, frame)
    ensures var (q, outcome) := Sync(p, frame);
            && Fits(q) && LostExact(p) <= LostExact(q) && LostWildcard(p) <= LostWildcard(q)
            && (outcome == Applied ==>
                  && LostExact(p) <= KeysOf(Rows(frame.compiled.value, true))
                  && LostWildcard(p) <= KeysOf(Rows(frame.compiled.value, false)))
  {
    hide PutAll, Rows, KeysOf, Diff, Obsolete;
    if Sync(p, frame).1 in {MapError, Applied} && frame.lock {
      var xs, ws := Rows(frame.compiled.value, true), Rows(frame.compiled.value, false);
      var dx := Diff(xs, p.exactKeys, frame.exactOrder);
      LostStayLost(p.exact, EXACT_MAX, xs, p.exactKeys, frame.exactOrder, frame.budget);
      if PutAll(p.exact, EXACT_MAX, dx, frame.budget).1 {
        LostStayLost(p.wildcard, WILDCARD_MAX, ws, p.wildcardKeys, frame.wildcardOrder, frame.budget - |dx|);
      }
    }
  }

  /** Over every run whatever, failed frames included: a key once lost is lost at every later
      point, and no frame is applied from then on unless it lists that key. */
  lemma {:induction false} LostForever(states: seq<Policy>, frames: seq<Frame>, i: nat, j: nat)
    requires Run(states, frames) && Fits(states[0]) && i <= j <= |frames|
    ensures Fits(states[j])
    ensures LostExact(states[i]) <= LostExact(states[j]) && LostWildcard(states[i]) <= LostWildcard(states[j])
    ensures j < |frames| && Sync(states[j], frames[j]).1 == Applied ==>
              && LostExact(states[i]) <= KeysOf(Rows(frames[j].compiled.value, true))
              && LostWildcard(states[i]) <= KeysOf(Rows(frames[j].compiled.value, false))
    decreases j
  {
    hide Sync, Rows, KeysOf, LostExact, LostWildcard, Fits, Ordered;
    if j > 0 {
      LostForever(states, frames, if i < j then i else j - 1, j - 1);
      LostStep(states[j - 1], frames[j - 1]);
    }
    if j < |frames| { LostStep(states[j], frames[j]); }
  }

  // ---------------------------------------------------------------- where a gap comes from

  ghost function MirrorOf(p: Policy, exact: bool): set<Bytes> { if exact then p.exactKeys else p.wildcardKeys }

  ghost function Lost(p: Policy, exact: bool): set<Bytes> { if exact then LostExact(p) else LostWildcard(p) }

  ghost function Extra(p: Policy, exact: bool): set<Bytes> {
    if exact then p.exact.Keys - p.exactKeys else p.wildcard.Keys - p.wildcardKeys
  }

  /** The keys a frame lists for a table; none if it does not compile. */
  ghost function FrameKeys(frame: Frame, exact: bool): set<Bytes> {
    if frame.compiled.Some? then KeysOf(Rows(frame.compiled.value, exact)) else {}
  }

  lemma ExactBounds(p: Policy, frame: Frame)
    requires Fits(p) && Ordered(p, frame)
    ensures GapBounds(p, frame, true) && |Sync(p, frame).0.exact| <= EXACT_MAX
  {
    hide PutAll, Rows, KeysOf, Diff, Obsolete;
    if frame.version > p.version && frame.compiled.Some? {
      DriftBounds(p.exact, EXACT_MAX, Rows(frame.compiled.value, true), p.exactKeys, frame.exactOrder, frame.budget);
    }
  }

  lemma WildcardBounds(p: Policy, frame: Frame)
    requires Fits(p) && Ordered(p, frame)
    ensures GapBounds(p, frame, false) && |Sync(p, frame).0.wildcard| <= WILDCARD_MAX
  {
    hide PutAll, Rows, KeysOf, Diff, Obsolete;
    if frame.version > p.version && frame.compiled.Some? && frame.lock {
      var dx := Diff(Rows(frame.compiled.value, true), p.exactKeys, frame.exactOrder);
      if PutAll(p.exact, EXACT_MAX, dx, frame.budget).1 {
        DriftBounds(p.wildcard, WILDCARD_MAX, Rows(frame.compiled.value, false), p.wildcardKeys, frame.wildcardOrder,
          frame.budget - |dx|);
      }
    }
  }

  ghost predicate GapBounds(p: Policy, frame: Frame, exact: bool) {
    var (q, outcome) := Sync(p, frame);
    var D := FrameKeys(frame, exact);
    match outcome
    case Applied => Extra(q, exact) == Extra(p, exact) - D && Lost(q, exact) == Lost(p, exact)
    case MapError =>
      && Extra(q, exact) <= Extra(p, exact) + D
      && Lost(q, exact) <= Lost(p, exact) + (MirrorOf(p, exact) - D)
    case _ => q == p
  }

  lemma {:induction false} StaysFit(states: seq<Policy>, frames: seq<Frame>, i: nat)
    requires Run(states, frames) && Fits(states[0]) && i <= |frames|
    ensures Fits(states[i])
  {
    hide Sync, Ordered, GapBounds;
    if i > 0 {
      StaysFit(states, frames, i - 1);
      ExactBounds(states[i - 1], frames[i - 1]);
      WildcardBounds(states[i - 1], frames[i - 1]);
    }
  }

  /** Over every run whatever from start-up, a key that is in the kernel only was listed by a
      frame that failed in its writes, and by no frame applied since. */
  lemma {:induction false} ExtraFromFailed(states: seq<Policy>, frames: seq<Frame>, exact: bool, key: Bytes)
    returns (i: nat)
    requires Run(states, frames) && states[0] == FRESH && key in Extra(states[|frames|], exact)
    ensures i < |frames| && Sync(states[i], frames[i]).1 == MapError && key in FrameKeys(frames[i], exact)
    ensures forall j | i < j < |frames| && Sync(states[j], frames[j]).1 == Applied ::
              key !in FrameKeys(frames[j], exact)
  {
    hide Sync, Rows, KeysOf, Fits, Ordered, FrameKeys, Lost, Extra, MirrorOf;
    if frames == [] {
      NoExtra(exact);
      assert false;
    }
    var n := |frames| - 1;
    FreshFits();
    StaysFit(states, frames, n);
    if exact { ExactBounds(states[n], frames[n]); } else { WildcardBounds(states[n], frames[n]); }
    if key in Extra(states[n], exact) {
      i := ExtraFromFailed(states[..n + 1], frames[..n], exact, key);
    } else {
      i := n;
    }
  }

  /** And a key that is mirrored only was being dropped by a frame that failed in its writes. */
  lemma {:induction false} LostFromFailed(states: seq<Policy>, frames: seq<Frame>, exact: bool, key: Bytes)
    returns (i: nat)
    requires Run(states, frames) && states[0] == FRESH && key in Lost(states[|frames|], exact)
    ensures i < |frames| && Sync(states[i], frames[i]).1 == MapError
    ensures key in MirrorOf(states[i], exact) && key !in FrameKeys(frames[i], exact)
  {
    hide Sync, Rows, KeysOf, Fits, Ordered, FrameKeys, Lost, Extra, MirrorOf;
    if frames == [] {
      NoExtra(exact);
      assert false;
    }
    var n := |frames| - 1;
    FreshFits();
    StaysFit(states, frames, n);
    if exact { ExactBounds(states[n], frames[n]); } else { WildcardBounds(states[n], frames[n]); }
    if key in Lost(states[n], exact) {
      i := LostFromFailed(states[..n + 1], frames[..n], exact, key);
    } else {
      i := n;
    }
  }

  lemma NoExtra(exact: bool)
    ensures Extra(FRESH, exact) == {} && Lost(FRESH, exact) == {}
  {
  }

  lemma FreshFits()
    ensures Fits(FRESH)
  {
  }

  lemma OriginStep(p: Policy, frame: Frame, key: Bytes)
    ensures var q := Sync(p, frame).0;
            && (key in q.exact ==>
                  || (key in p.exact && q.exact[key] == p.exact[key])
                  || (frame.compiled.Some? && Exact(Some(key), q.exact[key]) in frame.compiled.value))
            && (key in q.wildcard ==>
                  || (key in p.wildcard && q.wildcard[key] == p.wildcard[key])
                  || (frame.compiled.Some? && Wildcard(Some(key), q.wildcard[key]) in frame.compiled.value))
  {
    hide PutAll, Rows, KeysOf, Diff;
    var q := Sync(p, frame).0;
    if frame.compiled.Some? {
      var xs, ws := Rows(frame.compiled.value, true), Rows(frame.compiled.value, false);
      var dx := Diff(xs, p.exactKeys, frame.exactOrder);
      ValueOrigin(p.exact, EXACT_MAX, xs, p.exactKeys, frame.exactOrder, frame.budget, key);
      if key in q.exact { RowsIff(frame.compiled.value, key, q.exact[key]); }
      if |dx| <= frame.budget {
        ValueOrigin(p.wildcard, WILDCARD_MAX, ws, p.wildcardKeys, frame.wildcardOrder, frame.budget - |dx|, key);
      }
      if key in q.wildcard { RowsIff(frame.compiled.value, key, q.wildcard[key]); }
    }
  }

  /** Over every run whatever from start-up, what POLICY_EXACT holds for a key some frame's exact
      entry carries for it, and likewise for POLICY_WILDCARD. */
  lemma {:induction false} PolicyOrigin(states: seq<Policy>, frames: seq<Frame>, key: Bytes)
    requires Run(states, frames) && states[0] == FRESH
    ensures var p := states[|frames|];
            && (key in p.exact ==> exists n | 0 <= n < |frames| ::
                  frames[n].compiled.Some? && Exact(Some(key), p.exact[key]) in frames[n].compiled.value)
            && (key in p.wildcard ==> exists n | 0 <= n < |frames| ::
                  frames[n].compiled.Some? && Wildcard(Some(key), p.wildcard[key]) in frames[n].compiled.value)
  {
    hide Sync, Ordered;
    if frames != [] {
      var n := |frames| - 1;
      PolicyOrigin(states[..n + 1], frames[..n], key);
      OriginStep(states[n], frames[n], key);
      assert forall i | 0 <= i < n :: frames[..n][i] == frames[i];
    }
  }

  const KEY: Bytes := [1]
  const VALUE: Bytes := [0]
  const EMPTY: map<Bytes, Bytes> := map[]
  const FULL: map<Bytes, Bytes> := map[KEY := VALUE]
  const NO_ROWS: seq<(Bytes, Bytes)> := []

  /** A frame that drops one key of each table. */
  function Dropping(version: u64, budget: nat): Frame { Frame(version, Some([]), [KEY], [KEY], true, budget) }

  /** A run in which one failed write blocks a later frame whose writes would all go through:
      the exact key is removed, the wildcard removal fails, and the next frame, like every
      other that does not list the exact key, fails on removing it again. */
  lemma LostKeyBlocks() returns (states: seq<Policy>, frames: seq<Frame>)
    ensures Run(states, frames) && states[0] == FRESH && |frames| == 3
    ensures Sync(states[0], frames[0]).1 == Applied && Sync(states[1], frames[1]).1 == MapError
    ensures Sync(states[2], frames[2]).1 == MapError && frames[2].lock && frames[2].budget == 100
    ensures LostExact(states[2]) == {KEY}
  {
    hide Sync, Ordered;
    var p1 := Policy(1, {KEY}, {KEY}, FULL, FULL);
    var p2 := p1.(exact := EMPTY);
    var both := Frame(1, Some([Exact(Some(KEY), VALUE), Wildcard(Some(KEY), VALUE)]), [], [], true, 100);
    Installs(p1, both);
    Drops(p1, p2);
    Blocked(p2);
    frames := [both, Dropping(2, 1), Dropping(3, 100)];
    states := [FRESH, p1, p2, p2];
  }

  lemma Installs(p1: Policy, both: Frame)
    requires p1 == Policy(1, {KEY}, {KEY}, FULL, FULL)
    requires both == Frame(1, Some([Exact(Some(KEY), VALUE), Wildcard(Some(KEY), VALUE)]), [], [], true, 100)
    ensures Ordered(FRESH, both) && Sync(FRESH, both) == (p1, Applied)
  {
    hide PutAll, Diff, Obsolete, KeysOf;
    var es, row := both.compiled.value, [(KEY, VALUE)];
    BothRows(es);
    OneInsert(row, EXACT_MAX, 100);
    OneInsert(row, WILDCARD_MAX, 99);
  }

  lemma BothRows(es: seq<Entry>)
    requires es == [Exact(Some(KEY), VALUE), Wildcard(Some(KEY), VALUE)]
    ensures Rows(es, true) == [(KEY, VALUE)] && Rows(es, false) == [(KEY, VALUE)]
  {
    hide Rows;
    NoEntries();
    RowsSnoc(es, 0, true);
    RowsSnoc(es, 0, false);
    RowsSnoc(es, 1, true);
    RowsSnoc(es, 1, false);
    assert es[..0] == [] && es[..2] == es;
    assert NO_ROWS + [(KEY, VALUE)] == [(KEY, VALUE)];
  }

  lemma NoEntries()
    ensures Rows([], true) == NO_ROWS && Rows([], false) == NO_ROWS
  {
  }

  lemma OneInsert(row: seq<(Bytes, Bytes)>, cap: nat, b: nat)
    requires row == [(KEY, VALUE)] && 0 < cap && 0 < b
    ensures |Diff(row, {}, [])| == 1 && KeysOf(row) == {KEY} && Obsolete(row, {}, [])
    ensures PutAll(EMPTY, cap, Diff(row, {}, []), b) == (FULL, true)
  {
    var none: seq<Write<Bytes, Bytes>>, ins: Write<Bytes, Bytes> := [], Ins(KEY, VALUE);
    var mirror: set<Bytes>, order: seq<Bytes> := {}, [];
    assert row[..0] == NO_ROWS && none + [ins] == [ins];
    assert Inserts(NO_ROWS, mirror) == none && Deletes<Bytes, Bytes>(order) == none;
    assert Inserts(row, mirror) == none + [ins];
    assert Diff(row, mirror, order) == [ins];
    PutAllSnoc(EMPTY, cap, none, ins, b);
  }

  lemma OneDelete()
    ensures |Diff(NO_ROWS, {KEY}, [KEY])| == 1 && KeysOf(NO_ROWS) == {} && Obsolete(NO_ROWS, {KEY}, [KEY])
    ensures PutAll(FULL, EXACT_MAX, Diff(NO_ROWS, {KEY}, [KEY]), 1) == (EMPTY, true)
    ensures PutAll(FULL, WILDCARD_MAX, Diff(NO_ROWS, {KEY}, [KEY]), 0) == (FULL, false)
    ensures PutAll(EMPTY, EXACT_MAX, Diff(NO_ROWS, {KEY}, [KEY]), 100) == (EMPTY, false)
  {
    var none: seq<Write<Bytes, Bytes>>, del: Write<Bytes, Bytes> := [], Del(KEY);
    assert [KEY][..0] == [] && none + [del] == [del];
    assert Diff(NO_ROWS, {KEY}, [KEY]) == [del];
    assert FULL - {KEY} == EMPTY;
    PutAllSnoc(FULL, EXACT_MAX, none, del, 1);
    PutAllSnoc(FULL, WILDCARD_MAX, none, del, 0);
    PutAllSnoc(EMPTY, EXACT_MAX, none, del, 100);
  }

  lemma Drops(p1: Policy, p2: Policy)
    requires p1 == Policy(1, {KEY}, {KEY}, FULL, FULL) && p2 == p1.(exact := EMPTY)
    ensures Ordered(p1, Dropping(2, 1)) && Sync(p1, Dropping(2, 1)) == (p2, MapError)
  {
    hide PutAll, Diff, Obsolete;
    OneDelete();
    assert Rows([], true) == NO_ROWS && Rows([], false) == NO_ROWS;
  }

  lemma Blocked(p: Policy)
    requires p == Policy(1, {KEY}, {KEY}, EMPTY, FULL)
    ensures Ordered(p, Dropping(3, 100)) && Sync(p, Dropping(3, 100)) == (p, MapError) && LostExact(p) == {KEY}
  {
    hide PutAll, Diff, Obsolete;
    OneDelete();
    assert Rows([], true) == NO_ROWS && Rows([], false) == NO_ROWS;
  }

  // ---------------------------------------------------------------- the sync state and its methods

  datatype Mutations = Mutations(
    insertExact: seq<(Bytes, Bytes)>,
    deleteExact: seq<Bytes>,
    insertWildcard: seq<(Bytes, Bytes)>,
    deleteWildcard: seq<Bytes>)

  lemma RowsSnoc(entries: seq<Entry>, i: nat, exact: bool)
    requires i < |entries|
    ensures var e := entries[i];
            Rows(entries[..i + 1], exact) ==
            if e.Exact? == exact && e.key.Some? then Rows(entries[..i], exact) + [(e.key.value, e.value)]
              else Rows(entries[..i], exact)
  {
    assert entries[..i + 1][..i] == entries[..i];
    assert Rows(entries[..i], exact) + [] == Rows(entries[..i], exact);
  }

  lemma UnmirroredSnoc<K, V>(rows: seq<(K, V)>, mirror: set<K>, e: (K, V))
    ensures KeysOf(rows + [e]) == KeysOf(rows) + {e.0}
    ensures Unmirrored(rows + [e], mirror) == if e.0 in mirror then Unmirrored(rows, mirror)
              else Unmirrored(rows, mirror) + [e]
  {
    assert (rows + [e])[..|rows|] == rows;
    KeysSnoc(rows + [e]);
    assert Unmirrored(rows, mirror) + [] == Unmirrored(rows, mirror);
  }

  class PolicySyncState {
    var currentVersion: u64
    var exactKeys: set<Bytes>
    var wildcardKeys: set<Bytes>

    constructor ()
      ensures currentVersion == 0 && exactKeys == {} && wildcardKeys == {}
    {
      currentVersion, exactKeys, wildcardKeys := 0, {}, {};
    }

    /** Insertions are the unmirrored rows in frame order, removals the keys no row names. */
    method ComputeSyncMutations(entries: seq<Entry>) returns (m: Mutations)
      ensures m.insertExact == Unmirrored(Rows(entries, true), exactKeys)
      ensures m.insertWildcard == Unmirrored(Rows(entries, false), wildcardKeys)
      ensures Obsolete(Rows(entries, true), exactKeys, m.deleteExact)
      ensures Obsolete(Rows(entries, false), wildcardKeys, m.deleteWildcard)
    {
      hide Rows, Unmirrored, KeysOf, Obsolete;
      var insertExact, insertWildcard, desiredExact, desiredWildcard := FirstEntries(entries);
      var deleteExact := ObsoleteKeys(Rows(entries, true), desiredExact, exactKeys);
      var deleteWildcard := ObsoleteKeys(Rows(entries, false), desiredWildcard, wildcardKeys);
      m := Mutations(insertExact, deleteExact, insertWildcard, deleteWildcard);
    }

    method FirstEntries(entries: seq<Entry>)
      returns (insertExact: seq<(Bytes, Bytes)>, insertWildcard: seq<(Bytes, Bytes)>, desiredExact: set<Bytes>,
        desiredWildcard: set<Bytes>)
      ensures insertExact == Unmirrored(Rows(entries, true), exactKeys) && desiredExact == KeysOf(Rows(entries, true))
      ensures insertWildcard == Unmirrored(Rows(entries, false), wildcardKeys) &&
                desiredWildcard == KeysOf(Rows(entries, false))
    {
      insertExact, insertWildcard, desiredExact, desiredWildcard := [], [], {}, {};
      for i := 0 to |entries|
        invariant insertExact == Unmirrored(Rows(entries[..i], true), exactKeys)
        invariant desiredExact == KeysOf(Rows(entries[..i], true))
        invariant insertWildcard == Unmirrored(Rows(entries[..i], false), wildcardKeys)
        invariant desiredWildcard == KeysOf(Rows(entries[..i], false))
      {
        hide Rows, Unmirrored, KeysOf;
        var e := entries[i];
        RowsSnoc(entries, i, true);
        RowsSnoc(entries, i, false);
        if e.key.Some? {
          var row := (e.key.value, e.value);
          match e {
            case Exact(_, _) =>
              UnmirroredSnoc(Rows(entries[..i], true), exactKeys, row);
              desiredExact := desiredExact + {row.0};
              if row.0 !in exactKeys { insertExact := insertExact + [row]; }
            case Wildcard(_, _) =>
              UnmirroredSnoc(Rows(entries[..i], false), wildcardKeys, row);
              desiredWildcard := desiredWildcard + {row.0};
              if row.0 !in wildcardKeys { insertWildcard := insertWildcard + [row]; }
          }
        }
      }
      assert entries[..|entries|] == entries;
    }

    /** The mirror of a fully applied frame is that frame's keys. */
    method ApplyMutations(m: Mutations, version: u64, ghost entries: seq<Entry>)
      requires m.insertExact == Unmirrored(Rows(entries, true), exactKeys)
      requires m.insertWildcard == Unmirrored(Rows(entries, false), wildcardKeys)
      requires Obsolete(Rows(entries, true), exactKeys, m.deleteExact)
      requires Obsolete(Rows(entries, false), wildcardKeys, m.deleteWildcard)
      modifies this
      ensures currentVersion == version
      ensures exactKeys == KeysOf(Rows(entries, true)) && wildcardKeys == KeysOf(Rows(entries, false))
    {
      exactKeys := RecordKeys(Rows(entries, true), exactKeys, m.insertExact, m.deleteExact);
      wildcardKeys := RecordKeys(Rows(entries, false), wildcardKeys, m.insertWildcard, m.deleteWildcard);
      currentVersion := version;
    }

    ghost function Snapshot(exact: KernelMap<Bytes, Bytes>, wildcard: KernelMap<Bytes, Bytes>): Policy
      reads this, exact, wildcard
    {
      Policy(currentVersion, exactKeys, wildcardKeys, exact.rows, wildcard.rows)
    }

    /** Insertions then removals on one kernel map: the frame's whole diff. */
    method WriteTable(table: KernelMap<Bytes, Bytes>, ghost entries: seq<(Bytes, Bytes)>, ghost mirror: set<Bytes>,
                      rows: seq<(Bytes, Bytes)>, order: seq<Bytes>, budget: nat)
      returns (ok: bool)
      requires rows == Unmirrored(entries, mirror)
      modifies table
      ensures (table.rows, ok) == PutAll(old(table.rows), table.cap, Diff(entries, mirror, order), budget)
      ensures |rows| + |order| == |Diff(entries, mirror, order)|
    {
      hide PutAll, Unmirrored, Inserts, Deletes;
      UnmirroredInserts(entries, mirror);
      PutAllAppend(table.rows, table.cap, Inserts(entries, mirror), Deletes(order), budget);
      ok := table.InsertAll(rows, budget);
      if ok { ok := table.RemoveAll(order, budget - |rows|); }
    }

    /** One frame, against the specification `Sync` for the removal order the sets happened to give. */
    method SyncPolicy(exact: KernelMap<Bytes, Bytes>, wildcard: KernelMap<Bytes, Bytes>,
                      version: u64, compiled: Option<seq<Entry>>, lock: bool, budget: nat)
      returns (outcome: Outcome, ghost frame: Frame)
      requires exact != wildcard && exact.cap == EXACT_MAX && wildcard.cap == WILDCARD_MAX
      modifies this, exact, wildcard
      ensures frame == Frame(version, compiled, frame.exactOrder, frame.wildcardOrder, lock, budget)
      ensures Ordered(old(Snapshot(exact, wildcard)), frame)
      ensures (Snapshot(exact, wildcard), outcome) == Sync(old(Snapshot(exact, wildcard)), frame)
    {
      hide PutAll, Rows, Unmirrored, Diff, KeysOf, Obsolete;
      frame := Frame(version, compiled, [], [], lock, budget);
      if version <= currentVersion { return Stale, frame; }
      if compiled.None? { return Rejected, frame; }
      var m := ComputeSyncMutations(compiled.value);
      frame := frame.(exactOrder := m.deleteExact, wildcardOrder := m.deleteWildcard);
      if !lock { return MapError, frame; }
      var ok := WriteTable(exact, Rows(compiled.value, true), exactKeys, m.insertExact, m.deleteExact, budget);
      if !ok { return MapError, frame; }
      var spent := |m.insertExact| + |m.deleteExact|;
      ok := WriteTable(wildcard, Rows(compiled.value, false), wildcardKeys, m.insertWildcard, m.deleteWildcard,
        budget - spent);
      if !ok { return MapError, frame; }
      ApplyMutations(m, version, compiled.value);
      outcome := Applied;
    }
  }
}
