/** Kernel hash maps and the key diff that keeps them in step with a full-state frame
    (src/policy/sync.rs, src/routes/table.rs, src/ebpf/maps.rs). */
module KernelTables {
  import opened Base

  datatype Write<K, V> = Ins(key: K, value: V) | Del(key: K)

  /** One write. A new key needs room; removing an absent key is an error. */
  function Put<K(==), V>(t: map<K, V>, cap: nat, w: Write<K, V>): Option<map<K, V>> {
    match w
    case Ins(k, v) => if k in t || |t| < cap then Some(t[k := v]) else None
    case Del(k) => if k in t then Some(t - {k}) else None
  }

  /** Writes in order, ending at the first that errs. The write that follows `budget` others
      errs whatever it is, so that a fault can fall on any of them. */
  function PutAll<K(==), V>(t: map<K, V>, cap: nat, ws: seq<Write<K, V>>, budget: nat): (r: (map<K, V>, bool))
    ensures r.1 ==> |ws| <= budget
    decreases |ws|
  {
    if ws == [] then (t, true)
    else
      var (u, ok) := PutAll(t, cap, ws[..|ws| - 1], budget);
      if ok && |ws| <= budget && Put(u, cap, ws[|ws| - 1]).Some? then (Put(u, cap, ws[|ws| - 1]).value, true)
      else (u, false)
  }

  /** The keys of a frame's entries. */
  function KeysOf<K(==), V>(entries: seq<(K, V)>): set<K> { set i | 0 <= i < |entries| :: entries[i].0 }

  /** Insertions for the entries whose key is not mirrored, in frame order. */
  function Inserts<K(==), V>(entries: seq<(K, V)>, mirror: set<K>): seq<Write<K, V>> {
    if entries == [] then []
    else
      var e := entries[|entries| - 1];
      Inserts(entries[..|entries| - 1], mirror) + if e.0 in mirror then [] else [Ins(e.0, e.1)]
  }

  function Deletes<K, V>(order: seq<K>): (r: seq<Write<K, V>>)
    ensures |r| == |order|
  {
    if order == [] then [] else Deletes(order[..|order| - 1]) + [Del(order[|order| - 1])]
  }

  /** The value the last entry for a key carries. */
  function Latest<K(==), V>(entries: seq<(K, V)>, k: K): V
    requires k in KeysOf(entries)
  {
    var e := entries[|entries| - 1];
    if e.0 == k then e.1 else KeysSnoc(entries); Latest(entries[..|entries| - 1], k)
  }

  lemma KeysSnoc<K, V>(entries: seq<(K, V)>)
    requires entries != []
    ensures KeysOf(entries) == KeysOf(entries[..|entries| - 1]) + {entries[|entries| - 1].0}
  {
    var init := entries[..|entries| - 1];
    forall i | 0 <= i < |entries| ensures entries[i].0 in KeysOf(init) + {entries[|entries| - 1].0} {
      if i < |init| { assert init[i] == entries[i]; }
    }
    forall i | 0 <= i < |init| ensures init[i].0 in KeysOf(entries) { assert entries[i] == init[i]; }
    assert entries[|entries| - 1].0 in KeysOf(entries);
  }

  // ---------------------------------------------------------------- phases

  lemma {:induction false} PutAllAppend<K, V>(t: map<K, V>, cap: nat, a: seq<Write<K, V>>, b: seq<Write<K, V>>,
                                              budget: nat)
    ensures PutAll(t, cap, a + b, budget) ==
            if PutAll(t, cap, a, budget).1 then PutAll(PutAll(t, cap, a, budget).0, cap, b, budget - |a|)
            else PutAll(t, cap, a, budget)
    decreases |b|
  {
    if b == [] {
      assert a + b == a;
    } else {
      var init := b[..|b| - 1];
      assert (a + b)[..|a + b| - 1] == a + init;
      PutAllAppend(t, cap, a, init, budget);
    }
  }

  /** After any number of the insertions: no old key is gone, every added key is one of
      `wanted`, and the values of other keys are as before. */
  ghost predicate Inserted<K, V>(t: map<K, V>, u: map<K, V>, wanted: set<K>) {
    && t.Keys <= u.Keys <= t.Keys + wanted
    && (forall k | k in t && k !in wanted :: u[k] == t[k])
  }

  lemma PutAllSnoc<K, V>(t: map<K, V>, cap: nat, ws: seq<Write<K, V>>, w: Write<K, V>, budget: nat)
    ensures var (u, ok) := PutAll(t, cap, ws, budget);
            PutAll(t, cap, ws + [w], budget) ==
            if ok && |ws| < budget && Put(u, cap, w).Some? then (Put(u, cap, w).value, true) else (u, false)
  {
    assert (ws + [w])[..|ws|] == ws;
  }

  lemma LatestSnoc<K, V>(entries: seq<(K, V)>, k: K)
    requires entries != [] && k in KeysOf(entries)
    ensures var init, e := entries[..|entries| - 1], entries[|entries| - 1];
            if e.0 == k then Latest(entries, k) == e.1 else k in KeysOf(init) && Latest(entries, k) == Latest(init, k)
  {
    KeysSnoc(entries);
  }

  /** One more entry: either it is mirrored and changes nothing, or it is one more insertion. */
  lemma InsertsSnoc<K, V>(entries: seq<(K, V)>, mirror: set<K>)
    requires entries != []
    ensures var init, e := entries[..|entries| - 1], entries[|entries| - 1];
            if e.0 in mirror then
              Inserts(entries, mirror) == Inserts(init, mirror) && KeysOf(entries) - mirror == KeysOf(init) - mirror
            else
              && Inserts(entries, mirror) == Inserts(init, mirror) + [Ins(e.0, e.1)]
              && KeysOf(entries) - mirror == (KeysOf(init) - mirror) + {e.0}
  {
    KeysSnoc(entries);
  }

  lemma InsertedMore<K, V>(t: map<K, V>, u: map<K, V>, wanted: set<K>, k: K, v: V)
    requires Inserted(t, u, wanted)
    ensures Inserted(t, u, wanted + {k}) && Inserted(t, u[k := v], wanted + {k})
  {
  }

  lemma NoInserts<K, V>(t: map<K, V>, cap: nat, mirror: set<K>, budget: nat, entries: seq<(K, V)>)
    requires entries == []
    ensures KeysOf(entries) - mirror == {} && PutAll(t, cap, Inserts(entries, mirror), budget) == (t, true)
    ensures Inserted(t, t, {}) && |Inserts(entries, mirror)| == 0 && t.Keys + {} == t.Keys
  {
    assert KeysOf(entries) == {};
  }

  lemma {:induction false} InsertPhase<K, V>(t: map<K, V>, cap: nat, entries: seq<(K, V)>, mirror: set<K>, budget: nat)
    ensures var (u, ok) := PutAll(t, cap, Inserts(entries, mirror), budget);
            var wanted := KeysOf(entries) - mirror;
            && Inserted(t, u, wanted)
            && (ok ==> u.Keys == t.Keys + wanted && forall k | k in wanted :: u[k] == Latest(entries, k))
  {
    hide PutAll, Inserts, KeysOf, Latest, Inserted;
    if entries == [] {
      NoInserts(t, cap, mirror, budget, entries);
    } else {
      var init, e := entries[..|entries| - 1], entries[|entries| - 1];
      InsertPhase(t, cap, init, mirror, budget);
      InsertedMore(t, PutAll(t, cap, Inserts(init, mirror), budget).0, KeysOf(init) - mirror, e.0, e.1);
      InsertsSnoc(entries, mirror);
      PutAllSnoc(t, cap, Inserts(init, mirror), Ins(e.0, e.1), budget);
      forall k | k in KeysOf(entries) - mirror
        ensures if k == e.0 then Latest(entries, k) == e.1
                  else k in KeysOf(init) && Latest(entries, k) == Latest(init, k)
      {
        LatestSnoc(entries, k);
      }
    }
  }

  lemma Larger<K>(s: set<K>, t: set<K>)
    requires s <= t
    ensures |s| <= |t|
  {
    assert t == s + (t - s);
  }

  lemma RoomStep<K, V>(u: map<K, V>, cap: nat, k: K, v: V, before: set<K>, ok: bool)
    requires |u| <= cap && (ok ==> u.Keys == before)
    ensures |before| <= |before + {k}|
    ensures var w := Put(u, cap, Ins(k, v));
            (w.Some? ==> |w.value| <= cap) && (ok ==> (w.Some? <==> |before + {k}| <= cap))
  {
    KeyTotal(u);
    assert u[k := v].Keys == u.Keys + {k};
    if k in before { assert before + {k} == before; }
  }

  /** Insertions run out of room exactly when what is there and what is wanted do not fit
      together. */
  lemma {:induction false} InsertRoom<K, V>(t: map<K, V>, cap: nat, entries: seq<(K, V)>, mirror: set<K>, budget: nat)
    requires |t| <= cap
    ensures var (u, ok) := PutAll(t, cap, Inserts(entries, mirror), budget);
            && |u| <= cap
            && (ok <==> |Inserts(entries, mirror)| <= budget && |t.Keys + (KeysOf(entries) - mirror)| <= cap)
  {
    hide PutAll, Put, Inserts, KeysOf, Latest, Inserted;
    var wanted := KeysOf(entries) - mirror;
    KeyTotal(t);
    if entries == [] {
      NoInserts(t, cap, mirror, budget, entries);
    } else {
      var init, e := entries[..|entries| - 1], entries[|entries| - 1];
      InsertRoom(t, cap, init, mirror, budget);
      InsertPhase(t, cap, init, mirror, budget);
      InsertsSnoc(entries, mirror);
      var (u, ok) := PutAll(t, cap, Inserts(init, mirror), budget);
      var before := t.Keys + (KeysOf(init) - mirror);
      if e.0 !in mirror {
        PutAllSnoc(t, cap, Inserts(init, mirror), Ins(e.0, e.1), budget);
        assert t.Keys + wanted == before + {e.0};
        RoomStep(u, cap, e.0, e.1, before, ok);
      }
    }
  }

  lemma KeyTotal<K, V>(t: map<K, V>)
    ensures |t| == |t.Keys|
  {
  }

  /** After any number of the removals: only listed keys are gone, values are as before. */
  ghost predicate Removed<K, V>(u: map<K, V>, v: map<K, V>, listed: set<K>) {
    && u.Keys - listed <= v.Keys <= u.Keys
    && (forall k | k in v :: v[k] == u[k])
  }

  lemma {:induction false} DeletePhase<K, V>(u: map<K, V>, cap: nat, order: seq<K>, budget: nat)
    requires Distinct(order)
    ensures var (v, ok) := PutAll(u, cap, Deletes(order), budget);
            && Removed(u, v, Members(order))
            && (ok ==> v == u - Members(order))
            && (ok <==> |order| <= budget && Members(order) <= u.Keys)
  {
    if order != [] {
      var init, k := order[..|order| - 1], order[|order| - 1];
      DeletePhase(u, cap, init, budget);
      assert Deletes<K, V>(order)[..|init|] == Deletes(init) && Deletes<K, V>(order)[|init|] == Del(k);
      assert Members(order) == Members(init) + {k} by {
        assert forall i | 0 <= i < |init| :: order[i] == init[i];
      }
      assert k !in Members(init);
    }
  }

  // ---------------------------------------------------------------- one frame on one table

  /** What becomes of a frame: not newer, not convertible, stopped by a write, or applied. */
  datatype Outcome = Stale | Rejected | MapError | Applied

  ghost predicate FitTogether<K, V>(keys: set<K>, entries: seq<(K, V)>, cap: nat) { |keys + KeysOf(entries)| <= cap }

  /** `order` lists what the mirror has and the frame lacks, each key once. */
  ghost predicate Obsolete<K, V>(entries: seq<(K, V)>, mirror: set<K>, order: seq<K>) {
    Distinct(order) && Members(order) == mirror - KeysOf(entries)
  }

  /** All the writes of a frame: insertions first, then removals. */
  function Diff<K(==), V>(entries: seq<(K, V)>, mirror: set<K>, order: seq<K>): seq<Write<K, V>> {
    Inserts(entries, mirror) + Deletes(order)
  }

  /** The writes get no further than the insertions: one fails, of itself or for want of room,
      or no more are let through. */
  ghost predicate NoneRemoved<K, V>(t: map<K, V>, cap: nat, entries: seq<(K, V)>, mirror: set<K>, budget: nat) {
    !PutAll(t, cap, Inserts(entries, mirror), budget).1 || budget == |Inserts(entries, mirror)|
  }

  /** A frame against any table and any mirror. Wherever the writes stop, only obsolete keys
      are gone and only unmirrored wanted keys are new; and with room counted in, all writes
      succeed exactly when every obsolete key is really there. Kept keys keep their value. */
  lemma SyncTable<K, V>(t: map<K, V>, cap: nat, entries: seq<(K, V)>, mirror: set<K>, order: seq<K>, budget: nat)
    requires Obsolete(entries, mirror, order) && |t| <= cap
    ensures var (u, ok) := PutAll(t, cap, Diff(entries, mirror, order), budget);
            var wanted, obsolete := KeysOf(entries) - mirror, mirror - KeysOf(entries);
            && t.Keys - obsolete <= u.Keys <= t.Keys + wanted
            && |u| <= cap
            && (ok <==> |Diff(entries, mirror, order)| <= budget && |t.Keys + wanted| <= cap && obsolete <= t.Keys)
            && (NoneRemoved(t, cap, entries, mirror, budget) ==> t.Keys <= u.Keys)
            && (forall k | k in u && k !in wanted :: k in t && u[k] == t[k])
            && (ok ==> u.Keys == t.Keys + wanted - obsolete && forall k | k in wanted :: u[k] == Latest(entries, k))
  {
    hide PutAll, Inserts, Deletes, KeysOf, Latest, Members;
    var ins, del := Inserts(entries, mirror), Deletes<K, V>(order);
    PutAllAppend(t, cap, ins, del, budget);
    InsertPhase(t, cap, entries, mirror, budget);
    InsertRoom(t, cap, entries, mirror, budget);
    var (m, ok) := PutAll(t, cap, ins, budget);
    if ok {
      DeletePhase(m, cap, order, budget - |ins|);
      var v := PutAll(m, cap, del, budget - |ins|).0;
      KeyTotal(m);
      KeyTotal(v);
      Larger(v.Keys, m.Keys);
      if budget == |ins| { NothingDeleted(m, cap, order); }
    }
  }

  lemma NothingDeleted<K, V>(m: map<K, V>, cap: nat, order: seq<K>)
    ensures PutAll(m, cap, Deletes<K, V>(order), 0).0 == m
  {
    StoppedAtOnce(m, cap, Deletes<K, V>(order));
  }

  lemma {:induction false} StoppedAtOnce<K, V>(m: map<K, V>, cap: nat, ws: seq<Write<K, V>>)
    ensures PutAll(m, cap, ws, 0).0 == m
  {
    if ws != [] { StoppedAtOnce(m, cap, ws[..|ws| - 1]); }
  }

  /** A table in step with its mirror: at every stopping point of a frame kept keys are still
      there and nothing beyond old and desired keys is; the frame is applied in full exactly
      when old and desired keys fit the table together; and then the keys are the frame's. */
  lemma InStepFrame<K, V>(t: map<K, V>, cap: nat, entries: seq<(K, V)>, order: seq<K>, budget: nat)
    requires Obsolete(entries, t.Keys, order) && |t| <= cap
    ensures var (u, ok) := PutAll(t, cap, Diff(entries, t.Keys, order), budget);
            && t.Keys * KeysOf(entries) <= u.Keys <= t.Keys + KeysOf(entries)
            && (ok <==> |Diff(entries, t.Keys, order)| <= budget && |t.Keys + KeysOf(entries)| <= cap)
            && (ok ==> u.Keys == KeysOf(entries))
            && (forall k | k in t && k in u :: u[k] == t[k])
  {
    hide PutAll, Inserts, Deletes, KeysOf, Members, Diff;
    SyncTable(t, cap, entries, t.Keys, order, budget);
    assert t.Keys + (KeysOf(entries) - t.Keys) == t.Keys + KeysOf(entries);
  }

  /** After a stop among the insertions the mirror is still the old one. The next frame that
      is applied in full leaves its own keys plus the partial insertions it does not list. */
  lemma ResidueAfterStop<K, V>(t: map<K, V>, cap: nat, first: seq<(K, V)>, order: seq<K>, budget: nat,
                               next: seq<(K, V)>, order': seq<K>, budget': nat)
    requires Obsolete(first, t.Keys, order) && |t| <= cap && NoneRemoved(t, cap, first, t.Keys, budget)
    requires Obsolete(next, t.Keys, order')
    requires var u := PutAll(t, cap, Diff(first, t.Keys, order), budget).0;
             PutAll(u, cap, Diff(next, t.Keys, order'), budget').1
    ensures var u := PutAll(t, cap, Diff(first, t.Keys, order), budget).0;
            var partial := u.Keys - t.Keys;
            && partial <= KeysOf(first)
            && PutAll(u, cap, Diff(next, t.Keys, order'), budget').0.Keys == KeysOf(next) + (partial - KeysOf(next))
  {
    hide PutAll, Inserts, Deletes, KeysOf, Members, Diff, NoneRemoved;
    SyncTable(t, cap, first, t.Keys, order, budget);
    var u := PutAll(t, cap, Diff(first, t.Keys, order), budget).0;
    StillListed(u, cap, next, t.Keys, order', budget');
    Residue(t.Keys, u.Keys, KeysOf(next));
  }

  lemma StillListed<K, V>(t: map<K, V>, cap: nat, entries: seq<(K, V)>, mirror: set<K>, order: seq<K>, budget: nat)
    requires Obsolete(entries, mirror, order) && |t| <= cap && PutAll(t, cap, Diff(entries, mirror, order), budget).1
    ensures PutAll(t, cap, Diff(entries, mirror, order), budget).0.Keys ==
              t.Keys + (KeysOf(entries) - mirror) - (mirror - KeysOf(entries))
  {
    SyncTable(t, cap, entries, mirror, order, budget);
  }

  lemma Residue<K>(mirrored: set<K>, now: set<K>, D: set<K>)
    requires mirrored <= now
    ensures now + (D - mirrored) - (mirrored - D) == D + ((now - mirrored) - D)
  {
  }

  /** Drift. `extra` keys are in the table but not mirrored, `lost` keys are mirrored but not
      in the table. Given budget and room, a frame is applied exactly when it lists every
      lost key; listing them does not bring them back, and an extra key becomes tracked only
      when it is listed. */
  lemma DriftAfterFrame<K, V>(t: map<K, V>, cap: nat, entries: seq<(K, V)>, mirror: set<K>, order: seq<K>, budget: nat)
    requires Obsolete(entries, mirror, order) && |t| <= cap
    requires |Diff(entries, mirror, order)| <= budget && |t.Keys + (KeysOf(entries) - mirror)| <= cap
    ensures var (u, ok) := PutAll(t, cap, Diff(entries, mirror, order), budget);
            var D, extra, lost := KeysOf(entries), t.Keys - mirror, mirror - t.Keys;
            && (ok <==> lost <= D)
            && (ok ==> D - u.Keys == lost && u.Keys - D == extra - D)
  {
    hide PutAll, Inserts, Deletes, KeysOf, Members, Diff;
    SyncTable(t, cap, entries, mirror, order, budget);
  }

  // ---------------------------------------------------------------- where values come from

  lemma {:induction false} WrittenValue<K, V>(t: map<K, V>, cap: nat, ws: seq<Write<K, V>>, budget: nat, k: K)
    ensures var u := PutAll(t, cap, ws, budget).0;
            k in u ==> (k in t && u[k] == t[k]) || Ins(k, u[k]) in ws
    decreases |ws|
  {
    if ws != [] { WrittenValue(t, cap, ws[..|ws| - 1], budget, k); }
  }

  lemma {:induction false} InsertedEntry<K, V>(entries: seq<(K, V)>, mirror: set<K>, k: K, v: V)
    ensures Ins(k, v) in Inserts(entries, mirror) ==> (k, v) in entries
  {
    if entries != [] { InsertedEntry(entries[..|entries| - 1], mirror, k, v); }
  }

  lemma {:induction false} OnlyRemovals<K, V>(order: seq<K>)
    ensures forall w | w in Deletes<K, V>(order) :: w.Del?
  {
    if order != [] { OnlyRemovals<K, V>(order[..|order| - 1]); }
  }

  /** Wherever a frame stops, a value in the table was there before or is that of an entry. */
  lemma ValueOrigin<K, V>(t: map<K, V>, cap: nat, entries: seq<(K, V)>, mirror: set<K>, order: seq<K>, budget: nat,
                          k: K)
    ensures var u := PutAll(t, cap, Diff(entries, mirror, order), budget).0;
            k in u ==> (k in t && u[k] == t[k]) || (k, u[k]) in entries
  {
    hide PutAll, Inserts, Deletes;
    var u := PutAll(t, cap, Diff(entries, mirror, order), budget).0;
    if k in u {
      WrittenValue(t, cap, Diff(entries, mirror, order), budget, k);
      OnlyRemovals<K, V>(order);
      InsertedEntry(entries, mirror, k, u[k]);
    }
  }

  // ---------------------------------------------------------------- histories

  /** The value a key got in the frame that most recently introduced it. */
  ghost function Introduced<K, V>(h: seq<seq<(K, V)>>, k: K): V
    requires h != [] && k in KeysOf(h[|h| - 1])
  {
    var n := |h| - 1;
    if n > 0 && k in KeysOf(h[n - 1]) then Introduced(h[..n], k) else Latest(h[n], k)
  }

  /** The table and its mirror hold exactly the last frame's keys, each under the value of
      the frame that most recently introduced it. */
  ghost predicate Tracks<K, V>(h: seq<seq<(K, V)>>, t: map<K, V>, mirror: set<K>) {
    if h == [] then t == map[] && mirror == {}
    else
      && mirror == KeysOf(h[|h| - 1]) && t.Keys == mirror
      && forall k | k in t :: t[k] == Introduced(h, k)
  }

  lemma TracksStep<K, V>(h: seq<seq<(K, V)>>, t: map<K, V>, cap: nat, entries: seq<(K, V)>, mirror: set<K>,
                         order: seq<K>, budget: nat)
    requires Tracks(h, t, mirror) && |t| <= cap && Obsolete(entries, mirror, order)
    requires PutAll(t, cap, Diff(entries, mirror, order), budget).1
    ensures Tracks(h + [entries], PutAll(t, cap, Diff(entries, mirror, order), budget).0, KeysOf(entries))
    ensures |PutAll(t, cap, Diff(entries, mirror, order), budget).0| <= cap
  {
    hide PutAll, KeysOf, Diff, Latest, Obsolete, Introduced;
    InStepApplied(t, cap, entries, order, budget);
    var u := PutAll(t, cap, Diff(entries, mirror, order), budget).0;
    forall k | k in u ensures u[k] == Introduced(h + [entries], k) {
      IntroducedSnoc(h, entries, k);
    }
  }

  lemma InStepApplied<K, V>(t: map<K, V>, cap: nat, entries: seq<(K, V)>, order: seq<K>, budget: nat)
    requires Obsolete(entries, t.Keys, order) && |t| <= cap && PutAll(t, cap, Diff(entries, t.Keys, order), budget).1
    ensures var u := PutAll(t, cap, Diff(entries, t.Keys, order), budget).0;
            && u.Keys == KeysOf(entries) && |u| <= cap
            && forall k | k in u :: u[k] == if k in t then t[k] else Latest(entries, k)
  {
    hide PutAll, KeysOf, Diff, Latest, Obsolete;
    SyncTable(t, cap, entries, t.Keys, order, budget);
  }

  /** The diff is by key: after a fully applied frame the table shows the frame's own values
      exactly when every key it already held had its new value before. */
  lemma RefreshedIff<K, V>(t: map<K, V>, cap: nat, entries: seq<(K, V)>, order: seq<K>, budget: nat)
    requires Obsolete(entries, t.Keys, order) && |t| <= cap && PutAll(t, cap, Diff(entries, t.Keys, order), budget).1
    ensures var u := PutAll(t, cap, Diff(entries, t.Keys, order), budget).0;
            (u.Keys == KeysOf(entries) && forall k | k in u :: u[k] == Latest(entries, k)) <==>
            (forall k | k in t && k in KeysOf(entries) :: t[k] == Latest(entries, k))
  {
    hide PutAll, KeysOf, Diff, Latest, Obsolete;
    InStepApplied(t, cap, entries, order, budget);
  }

  lemma IntroducedSnoc<K, V>(h: seq<seq<(K, V)>>, entries: seq<(K, V)>, k: K)
    requires k in KeysOf(entries)
    ensures Introduced(h + [entries], k) == if h != [] && k in KeysOf(h[|h| - 1]) then Introduced(h, k)
              else Latest(entries, k)
  {
    hide KeysOf, Latest;
    assert (h + [entries])[..|h|] == h;
  }

  // ---------------------------------------------------------------- drift over many frames

  ghost predicate Drift<K, V>(mirror: set<K>, t: map<K, V>, lost: set<K>, extra: set<K>) {
    mirror - t.Keys == lost && t.Keys - mirror == extra
  }

  /** A frame applied in full leaves the lost keys lost and tracks the extra keys it lists. */
  lemma DriftStep<K, V>(t: map<K, V>, cap: nat, entries: seq<(K, V)>, mirror: set<K>, order: seq<K>, budget: nat,
                        lost: set<K>, extra: set<K>)
    requires Obsolete(entries, mirror, order) && |t| <= cap && Drift(mirror, t, lost, extra)
    requires PutAll(t, cap, Diff(entries, mirror, order), budget).1
    ensures var u := PutAll(t, cap, Diff(entries, mirror, order), budget).0;
            |u| <= cap && Drift(KeysOf(entries), u, lost, extra - KeysOf(entries))
  {
    hide PutAll, KeysOf, Diff, Obsolete;
    SyncTable(t, cap, entries, mirror, order, budget);
  }

  /** Whatever a frame comes to, it adds to the drift only keys it lists (extra) or drops (lost). */
  lemma DriftBounds<K, V>(t: map<K, V>, cap: nat, entries: seq<(K, V)>, mirror: set<K>, order: seq<K>, budget: nat)
    requires Obsolete(entries, mirror, order) && |t| <= cap
    ensures var (u, ok) := PutAll(t, cap, Diff(entries, mirror, order), budget);
            var D := KeysOf(entries);
            && |u| <= cap && u.Keys - mirror <= (t.Keys - mirror) + D
            && mirror - u.Keys <= (mirror - t.Keys) + (mirror - D)
            && (ok ==> u.Keys - D == (t.Keys - mirror) - D && D - u.Keys == mirror - t.Keys)
  {
    hide PutAll, KeysOf, Diff, Obsolete;
    var (u, ok) := PutAll(t, cap, Diff(entries, mirror, order), budget);
    if ok {
      DriftStep(t, cap, entries, mirror, order, budget, mirror - t.Keys, t.Keys - mirror);
    }
    KeysBetween(t, cap, entries, mirror, order, budget);
    DriftBetween(t.Keys, u.Keys, mirror, KeysOf(entries));
  }

  lemma KeysBetween<K, V>(t: map<K, V>, cap: nat, entries: seq<(K, V)>, mirror: set<K>, order: seq<K>, budget: nat)
    requires Obsolete(entries, mirror, order) && |t| <= cap
    ensures var (u, ok) := PutAll(t, cap, Diff(entries, mirror, order), budget);
            |u| <= cap && t.Keys - (mirror - KeysOf(entries)) <= u.Keys <= t.Keys + (KeysOf(entries) - mirror)
  {
    hide PutAll, KeysOf, Diff, Obsolete;
    SyncTable(t, cap, entries, mirror, order, budget);
  }

  lemma DriftBetween<K>(t: set<K>, u: set<K>, mirror: set<K>, D: set<K>)
    requires t - (mirror - D) <= u <= t + (D - mirror)
    ensures u - mirror <= (t - mirror) + D && mirror - u <= (mirror - t) + (mirror - D)
  {
  }

  /** A stop among the insertions loses nothing. */
  lemma StopInInserts<K, V>(t: map<K, V>, cap: nat, entries: seq<(K, V)>, order: seq<K>, budget: nat)
    requires Obsolete(entries, t.Keys, order) && |t| <= cap && NoneRemoved(t, cap, entries, t.Keys, budget)
    ensures var (u, ok) := PutAll(t, cap, Diff(entries, t.Keys, order), budget);
            && |u| <= cap && u.Keys - t.Keys <= KeysOf(entries) && (ok ==> budget == |Diff(entries, t.Keys, order)|)
            && Drift(t.Keys, u, {}, u.Keys - t.Keys)
  {
    hide PutAll, KeysOf, Inserts, Obsolete, Deletes;
    SyncTable(t, cap, entries, t.Keys, order, budget);
    PutAllAppend(t, cap, Inserts(entries, t.Keys), Deletes(order), budget);
  }

  /** The table can take the frame: room for what is there and what is wanted, and no mirrored
      key that the frame drops is missing. */
  ghost predicate Receives<K, V>(t: map<K, V>, cap: nat, entries: seq<(K, V)>, mirror: set<K>) {
    |t.Keys + (KeysOf(entries) - mirror)| <= cap && mirror - t.Keys <= KeysOf(entries)
  }

  lemma ReceivesIff<K, V>(t: map<K, V>, cap: nat, entries: seq<(K, V)>, mirror: set<K>, order: seq<K>, budget: nat)
    requires Obsolete(entries, mirror, order) && |t| <= cap
    ensures PutAll(t, cap, Diff(entries, mirror, order), budget).1 <==>
            |Diff(entries, mirror, order)| <= budget && Receives(t, cap, entries, mirror)
  {
    hide PutAll, KeysOf, Obsolete, Diff;
    SyncTable(t, cap, entries, mirror, order, budget);
  }

  /** In step, taking the frame is a matter of room alone. */
  lemma ReceivesInStep<K, V>(t: map<K, V>, cap: nat, entries: seq<(K, V)>)
    ensures Receives(t, cap, entries, t.Keys) <==> FitTogether(t.Keys, entries, cap)
  {
    hide KeysOf;
    assert t.Keys + (KeysOf(entries) - t.Keys) == t.Keys + KeysOf(entries);
  }

  /** No write of a frame, wherever it stops, brings a lost key back. */
  lemma LostStayLost<K, V>(t: map<K, V>, cap: nat, entries: seq<(K, V)>, mirror: set<K>, order: seq<K>, budget: nat)
    requires Obsolete(entries, mirror, order) && |t| <= cap
    ensures var (u, ok) := PutAll(t, cap, Diff(entries, mirror, order), budget);
            && |u| <= cap && mirror - t.Keys <= mirror - u.Keys
            && (ok ==> mirror - t.Keys <= KeysOf(entries) && KeysOf(entries) - u.Keys == mirror - t.Keys)
  {
    hide PutAll, KeysOf, Obsolete, Diff;
    SyncTable(t, cap, entries, mirror, order, budget);
  }

  // ---------------------------------------------------------------- the kernel map and its writers

  /** The entries whose key is not mirrored, in frame order. */
  function Unmirrored<K(==), V>(entries: seq<(K, V)>, mirror: set<K>): seq<(K, V)> {
    if entries == [] then []
    else
      var e := entries[|entries| - 1];
      Unmirrored(entries[..|entries| - 1], mirror) + if e.0 in mirror then [] else [e]
  }

  function AsInserts<K, V>(rows: seq<(K, V)>): (r: seq<Write<K, V>>)
    ensures |r| == |rows|
  {
    if rows == [] then [] else AsInserts(rows[..|rows| - 1]) + [Ins(rows[|rows| - 1].0, rows[|rows| - 1].1)]
  }

  lemma {:induction false} UnmirroredInserts<K, V>(entries: seq<(K, V)>, mirror: set<K>)
    ensures AsInserts(Unmirrored(entries, mirror)) == Inserts(entries, mirror)
    ensures KeysOf(Unmirrored(entries, mirror)) == KeysOf(entries) - mirror
  {
    if entries != [] {
      var init := entries[..|entries| - 1];
      var e := entries[|entries| - 1];
      UnmirroredInserts(init, mirror);
      KeysSnoc(entries);
      if e.0 !in mirror {
        var rows := Unmirrored(init, mirror) + [e];
        assert rows[..|rows| - 1] == Unmirrored(init, mirror);
        KeysSnoc(rows);
      } else {
        assert Unmirrored(entries, mirror) == Unmirrored(init, mirror) &&
          Inserts(entries, mirror) == Inserts(init, mirror);
      }
    }
  }

  class KernelMap<K(==), V> {
    var rows: map<K, V>
    const cap: nat

    constructor (cap: nat)
      ensures rows == map[] && this.cap == cap
    {
      rows := map[];
      this.cap := cap;
    }

    /** A write that may err on its own account (`fault`), for want of room, or for want of the key. */
    method Apply(w: Write<K, V>, fault: bool) returns (ok: bool)
      modifies this
      ensures ok == (!fault && Put(old(rows), cap, w).Some?)
      ensures rows == if ok then Put(old(rows), cap, w).value else old(rows)
    {
      ok := !fault;
      if ok {
        match w
        case Ins(k, v) =>
          if k in rows || |rows| < cap { rows := rows[k := v]; } else { ok := false; }
        case Del(k) =>
          if k in rows { rows := rows - {k}; } else { ok := false; }
      }
    }

    method InsertAll(entries: seq<(K, V)>, budget: nat) returns (ok: bool)
      modifies this
      ensures (rows, ok) == PutAll(old(rows), cap, AsInserts(entries), budget)
    {
      hide PutAll, AsInserts, Put;
      NothingToWrite(rows, cap, entries, [], budget);
      ok := true;
      for i := 0 to |entries|
        invariant ok && (rows, ok) == PutAll(old(rows), cap, AsInserts(entries[..i]), budget)
      {
        AsInsertsSnoc(entries, i);
        PutAllSnoc(old(rows), cap, AsInserts(entries[..i]), Ins(entries[i].0, entries[i].1), budget);
        ok := Apply(Ins(entries[i].0, entries[i].1), i >= budget);
        if !ok {
          InsertsStop(old(rows), cap, entries, i + 1, budget);
          return;
        }
      }
      assert entries[..|entries|] == entries;
    }

    method RemoveAll(keys: seq<K>, budget: nat) returns (ok: bool)
      modifies this
      ensures (rows, ok) == PutAll(old(rows), cap, Deletes(keys), budget)
    {
      hide PutAll, Deletes, Put;
      NothingToWrite(rows, cap, [], keys, budget);
      ok := true;
      for i := 0 to |keys|
        invariant ok && (rows, ok) == PutAll(old(rows), cap, Deletes(keys[..i]), budget)
      {
        DeletesSnoc<K, V>(keys, i);
        PutAllSnoc(old(rows), cap, Deletes(keys[..i]), Del(keys[i]), budget);
        ok := Apply(Del(keys[i]), i >= budget);
        if !ok {
          DeletesStop(old(rows), cap, keys, i + 1, budget);
          return;
        }
      }
      assert keys[..|keys|] == keys;
    }
  }

  lemma NothingToWrite<K, V>(t: map<K, V>, cap: nat, entries: seq<(K, V)>, keys: seq<K>, budget: nat)
    ensures PutAll(t, cap, AsInserts(entries[..0]), budget) == (t, true)
    ensures PutAll(t, cap, Deletes<K, V>(keys[..0]), budget) == (t, true)
  {
  }

  lemma AsInsertsSnoc<K, V>(entries: seq<(K, V)>, i: nat)
    requires i < |entries|
    ensures AsInserts(entries[..i + 1]) == AsInserts(entries[..i]) + [Ins(entries[i].0, entries[i].1)]
  {
    assert entries[..i + 1][..i] == entries[..i];
  }

  lemma DeletesSnoc<K, V>(keys: seq<K>, i: nat)
    requires i < |keys|
    ensures Deletes<K, V>(keys[..i + 1]) == Deletes<K, V>(keys[..i]) + [Del(keys[i])]
  {
    assert keys[..i + 1][..i] == keys[..i];
  }

  lemma {:induction false} InsertsStop<K, V>(t: map<K, V>, cap: nat, entries: seq<(K, V)>, i: nat, budget: nat)
    requires i <= |entries| && !PutAll(t, cap, AsInserts(entries[..i]), budget).1
    ensures PutAll(t, cap, AsInserts(entries), budget) == PutAll(t, cap, AsInserts(entries[..i]), budget)
  {
    if i == |entries| {
      assert entries[..i] == entries;
    } else {
      var n := |entries| - 1;
      assert entries[..n][..i] == entries[..i];
      InsertsStop(t, cap, entries[..n], i, budget);
      PutAllSnoc(t, cap, AsInserts(entries[..n]), Ins(entries[n].0, entries[n].1), budget);
    }
  }

  lemma {:induction false} DeletesStop<K, V>(t: map<K, V>, cap: nat, keys: seq<K>, i: nat, budget: nat)
    requires i <= |keys| && !PutAll(t, cap, Deletes<K, V>(keys[..i]), budget).1
    ensures PutAll(t, cap, Deletes<K, V>(keys), budget) == PutAll(t, cap, Deletes<K, V>(keys[..i]), budget)
  {
    if i == |keys| {
      assert keys[..i] == keys;
    } else {
      var n := |keys| - 1;
      assert keys[..n][..i] == keys[..i];
      DeletesStop(t, cap, keys[..n], i, budget);
      PutAllSnoc(t, cap, Deletes<K, V>(keys[..n]), Del(keys[n]), budget);
    }
  }

  /** What the mirror holds and the frame lacks, each key once, in the order met. */
  method ObsoleteKeys<K(==), V>(ghost entries: seq<(K, V)>, desired: set<K>, mirror: set<K>) returns (order: seq<K>)
    requires desired == KeysOf(entries)
    ensures Obsolete(entries, mirror, order)
  {
    order := [];
    var left := mirror;
    while left != {}
      invariant left <= mirror && Distinct(order) && Members(order) == (mirror - left) - desired
      decreases |left|
    {
      var k :| k in left;
      left := left - {k};
      if k !in desired {
        MembersSnoc(order, k);
        order := order + [k];
      }
    }
  }

  /** Recording the mutations of a frame in the mirror gives the frame's keys. */
  method RecordKeys<K(==), V>(ghost entries: seq<(K, V)>, mirror: set<K>, rows: seq<(K, V)>, order: seq<K>)
    returns (keys: set<K>)
    requires rows == Unmirrored(entries, mirror) && Obsolete(entries, mirror, order)
    ensures keys == KeysOf(entries)
  {
    keys := mirror;
    for i := 0 to |rows|
      invariant keys == mirror + KeysOf(rows[..i])
    {
      KeysSnoc(rows[..i + 1]);
      assert rows[..i + 1][..i] == rows[..i];
      keys := keys + {rows[i].0};
    }
    assert rows[..|rows|] == rows;
    UnmirroredInserts(entries, mirror);
    var all := keys;
    for i := 0 to |order|
      invariant keys == all - Members(order[..i])
    {
      assert order[..i + 1] == order[..i] + [order[i]];
      MembersSnoc(order[..i], order[i]);
      keys := keys - {order[i]};
    }
    assert order[..|order|] == order;
  }

  // ---------------------------------------------------------------- recording a list of writes

  /** The mirror after writes are recorded one by one. */
  function Recorded<K(==), V>(keys: set<K>, ws: seq<Write<K, V>>): set<K> {
    if ws == [] then keys
    else
      var w := ws[|ws| - 1];
      if w.Ins? then Recorded(keys, ws[..|ws| - 1]) + {w.key} else Recorded(keys, ws[..|ws| - 1]) - {w.key}
  }

  lemma RecordedSnoc<K, V>(keys: set<K>, ws: seq<Write<K, V>>, w: Write<K, V>)
    ensures Recorded(keys, ws + [w]) == if w.Ins? then Recorded(keys, ws) + {w.key} else Recorded(keys, ws) - {w.key}
  {
    assert (ws + [w])[..|ws|] == ws;
  }

  lemma {:induction false} RecordedAppend<K, V>(keys: set<K>, a: seq<Write<K, V>>, b: seq<Write<K, V>>)
    ensures Recorded(keys, a + b) == Recorded(Recorded(keys, a), b)
  {
    if b == [] {
      assert a + b == a;
    } else {
      assert (a + b)[..|a + b| - 1] == a + b[..|b| - 1];
      RecordedAppend(keys, a, b[..|b| - 1]);
    }
  }

  lemma {:induction false} RecordedInserts<K, V>(keys: set<K>, entries: seq<(K, V)>, mirror: set<K>)
    ensures Recorded(keys, Inserts(entries, mirror)) == keys + (KeysOf(entries) - mirror)
  {
    if entries != [] {
      var init, e := entries[..|entries| - 1], entries[|entries| - 1];
      RecordedInserts(keys, init, mirror);
      InsertsSnoc(entries, mirror);
      if e.0 !in mirror { RecordedSnoc(keys, Inserts(init, mirror), Ins(e.0, e.1)); }
    }
  }

  lemma {:induction false} RecordedDeletes<K, V>(keys: set<K>, order: seq<K>)
    ensures Recorded(keys, Deletes<K, V>(order)) == keys - Members(order)
  {
    if order != [] {
      var init, k := order[..|order| - 1], order[|order| - 1];
      RecordedDeletes<K, V>(keys, init);
      RecordedSnoc(keys, Deletes<K, V>(init), Del(k));
      MembersSnoc(init, k);
      assert init + [k] == order;
    }
  }

  /** Recording a frame's whole diff leaves the frame's keys. */
  lemma RecordedDiff<K, V>(mirror: set<K>, entries: seq<(K, V)>, order: seq<K>)
    requires Obsolete(entries, mirror, order)
    ensures Recorded(mirror, Diff(entries, mirror, order)) == KeysOf(entries)
  {
    hide Recorded, Inserts, Deletes, KeysOf, Members;
    RecordedAppend(mirror, Inserts(entries, mirror), Deletes(order));
    RecordedInserts(mirror, entries, mirror);
    RecordedDeletes<K, V>(mirror + (KeysOf(entries) - mirror), order);
  }
}
