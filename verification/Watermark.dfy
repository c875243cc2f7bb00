/** Replay protection for sealed secrets (src/identity/sequences.rs) and the delivery that
    relies on it (src/secret/deliver.rs). Targets are their UTF-8 bytes; unsealing and
    storage failures are inputs. */
module Watermark {
  import opened Base

  type Keyspace = map<Bytes, Bytes>

  /** The target, a zero byte and the version in eight bytes. */
  function Key(target: Bytes, version: u64): Bytes { target + [0] + ToLe(version, 8) }

  /** Different pairs have different keys, whatever bytes the targets contain. */
  lemma KeyInjective(t: Bytes, v: u64, t': Bytes, v': u64)
    requires Key(t, v) == Key(t', v')
    ensures t == t' && v == v'
  {
    var k := Key(t, v);
    assert |t| == |k| - 9 == |t'|;
    assert t == k[..|t|] == t';
    assert ToLe(v, 8) == k[|t| + 1..] == ToLe(v', 8);
    Pow2Of64();
    LeRoundTrip(v, 8);
    LeRoundTrip(v', 8);
  }

  /** A record shorter than eight bytes counts as none. */
  function LastSeen(store: Keyspace, target: Bytes, version: u64): Option<nat> {
    var k := Key(target, version);
    if k in store && |store[k]| >= 8 then Some(FromLe(store[k][..8])) else None
  }

  function Mark(store: Keyspace, target: Bytes, version: u64): nat {
    var last := LastSeen(store, target, version);
    if last.Some? then last.value else 0
  }

  /** An incoming secret, and which of the steps that handle it succeed. */
  datatype Delivery = Delivery(target: Bytes, version: u64, sequence: u64, ephemeralKey: Bytes, read: bool,
    insert: bool, unsealed: Option<Bytes>)

  datatype Error = StorageError | Replay | BadKey | UnsealFailed

  function CheckAndRecord(store: Keyspace, d: Delivery): (Keyspace, Result<bool, Error>) {
    if d.sequence == 0 then (store, Ok(false))
    else if !d.read then (store, Err(StorageError))
    else if d.sequence <= Mark(store, d.target, d.version) then (store, Ok(false))
    else if !d.insert then (store, Err(StorageError))
    else (store[Key(d.target, d.version) := ToLe(d.sequence, 8)], Ok(true))
  }

  /** The sequence is recorded before the secret is looked at. */
  function Deliver(store: Keyspace, d: Delivery): (Keyspace, Result<Bytes, Error>) {
    var (s, accepted) := CheckAndRecord(store, d);
    if accepted.Err? then (s, Err(accepted.error))
    else if !accepted.value then (s, Err(Replay))
    else if |d.ephemeralKey| != 32 then (s, Err(BadKey))
    else if d.unsealed.None? then (s, Err(UnsealFailed))
    else (s, Ok(d.unsealed.value))
  }

  // ---------------------------------------------------------------- one delivery

  ghost predicate Accepted(store: Keyspace, d: Delivery) { CheckAndRecord(store, d).1 == Ok(true) }

  /** A delivery raises its own pair's mark to its sequence exactly when accepted, and touches
      no other pair. */
  lemma MarksAfter(store: Keyspace, d: Delivery, target: Bytes, version: u64)
    ensures var s := Deliver(store, d).0;
            Mark(s, target, version) ==
            if Accepted(store, d) && target == d.target && version == d.version then d.sequence
              else Mark(store, target, version)
    ensures Accepted(store, d) <==> d.read && d.insert && d.sequence > Mark(store, d.target, d.version)
  {
    hide Key, ToLe, FromLe, Mark;
    if Accepted(store, d) { MarkRecorded(store, d.target, d.version, d.sequence, target, version); }
  }

  lemma MarkRecorded(store: Keyspace, t: Bytes, v: u64, sequence: u64, target: Bytes, version: u64)
    ensures Mark(store[Key(t, v) := ToLe(sequence, 8)], target, version) ==
            if target == t && version == v then sequence else Mark(store, target, version)
  {
    hide Key, ToLe, FromLe, Pow2;
    if Key(target, version) == Key(t, v) { KeyInjective(target, version, t, v); }
    Pow2Of64();
    LeRoundTrip(sequence, 8);
    assert ToLe(sequence, 8)[..8] == ToLe(sequence, 8);
  }

  /** A record is read from its first eight bytes, whatever follows them; a shorter one counts as
      none, so any sequence above 0 passes it. */
  lemma RecordRead(store: Keyspace, target: Bytes, version: u64, sequence: u64, rest: Bytes, short: Bytes)
    requires |short| < 8
    ensures Mark(store[Key(target, version) := ToLe(sequence, 8) + rest], target, version) == sequence
    ensures Mark(store[Key(target, version) := short], target, version) == 0
  {
    hide Key, ToLe, FromLe, Pow2;
    Pow2Of64();
    LeRoundTrip(sequence, 8);
    assert (ToLe(sequence, 8) + rest)[..8] == ToLe(sequence, 8);
  }

  /** Bytes are handed out exactly when the delivery is accepted, its key has 32 bytes and they
      are what unsealing yields; and each refusal has its own cause. */
  lemma DeliversIff(store: Keyspace, d: Delivery, b: Bytes)
    ensures var fits := d.read && d.insert && d.sequence > Mark(store, d.target, d.version);
            var r := Deliver(store, d).1;
            && (r == Ok(b) <==> fits && |d.ephemeralKey| == 32 && d.unsealed == Some(b))
            && (r == Err(UnsealFailed) <==> fits && |d.ephemeralKey| == 32 && d.unsealed.None?)
            && (r == Err(BadKey) <==> fits && |d.ephemeralKey| != 32)
            && (r == Err(Replay) <==>
                  d.sequence == 0 || (d.read && d.sequence <= Mark(store, d.target, d.version)))
  {
    hide Key, ToLe, FromLe, Mark;
  }

  // ---------------------------------------------------------------- runs

  function After(ds: seq<Delivery>): Keyspace {
    if ds == [] then map[] else Deliver(After(ds[..|ds| - 1]), ds[|ds| - 1]).0
  }

  ghost predicate AcceptedAt(ds: seq<Delivery>, i: nat)
    requires i < |ds|
  {
    Accepted(After(ds[..i]), ds[i])
  }

  type Marks = map<(Bytes, u64), u64>

  /** The plain map of accepted sequences that the byte-keyed store stands for. */
  ghost function Accepting(ds: seq<Delivery>): Marks {
    if ds == [] then map[]
    else
      var init, d := ds[..|ds| - 1], ds[|ds| - 1];
      if Accepted(After(init), d) then Accepting(init)[(d.target, d.version) := d.sequence] else Accepting(init)
  }

  lemma {:induction false} StoreRefinesMarks(ds: seq<Delivery>, target: Bytes, version: u64)
    ensures var m := Accepting(ds);
            Mark(After(ds), target, version) == if (target, version) in m then m[(target, version)] else 0
  {
    hide Mark, Deliver, Accepted;
    if ds == [] {
      NoMarks(target, version);
    } else {
      var init, d := ds[..|ds| - 1], ds[|ds| - 1];
      StoreRefinesMarks(init, target, version);
      MarksAfter(After(init), d, target, version);
    }
  }

  lemma NoMarks(target: Bytes, version: u64)
    ensures Mark(map[], target, version) == 0
  {
  }

  ghost predicate SamePair(a: Delivery, b: Delivery) { a.target == b.target && a.version == b.version }

  lemma SameAcceptance(ds: seq<Delivery>, n: nat)
    requires n <= |ds|
    ensures forall j | 0 <= j < n :: ds[..n][j] == ds[j] && AcceptedAt(ds[..n], j) == AcceptedAt(ds, j)
  {
    hide After, Accepted;
    forall j | 0 <= j < n ensures ds[..n][j] == ds[j] &&
      AcceptedAt(ds[..n], j) == AcceptedAt(ds, j) { assert ds[..n][..j] == ds[..j]; }
  }

  /** A pair's mark is at least every sequence accepted for that pair ... */
  lemma {:induction false} MarkBounds(ds: seq<Delivery>, d: Delivery)
    ensures forall j | 0 <= j < |ds| && SamePair(ds[j], d) && AcceptedAt(ds, j) ::
              ds[j].sequence <= Mark(After(ds), d.target, d.version)
  {
    hide Mark, Deliver, Accepted;
    if ds != [] {
      var n := |ds| - 1;
      MarkBounds(ds[..n], d);
      MarksAfter(After(ds[..n]), ds[n], d.target, d.version);
      SameAcceptance(ds, n);
    }
  }

  /** ... and is one of them, if any. */
  lemma {:induction false} MarkIsAccepted(ds: seq<Delivery>, d: Delivery) returns (j: int)
    ensures Mark(After(ds), d.target, d.version) == 0 ||
            (0 <= j < |ds| && SamePair(ds[j], d) && AcceptedAt(ds, j) &&
              ds[j].sequence == Mark(After(ds), d.target, d.version))
  {
    hide Mark, Deliver, Accepted;
    if ds == [] {
      NoMarks(d.target, d.version);
      j := -1;
    } else {
      var n := |ds| - 1;
      j := MarkIsAccepted(ds[..n], d);
      MarksAfter(After(ds[..n]), ds[n], d.target, d.version);
      SameAcceptance(ds, n);
      if Accepted(After(ds[..n]), ds[n]) && SamePair(ds[n], d) { j := n; }
    }
  }

  /** Over every run: a delivery is accepted exactly when storage works and its sequence is
      above 0 and above every one accepted before for the same pair. Other pairs, and whether
      earlier secrets could be unsealed, have no say. */
  lemma AcceptedIff(ds: seq<Delivery>, i: nat)
    requires i < |ds|
    ensures AcceptedAt(ds, i) <==>
            && ds[i].read && ds[i].insert && ds[i].sequence > 0
            && forall j | 0 <= j < i && SamePair(ds[j], ds[i]) && AcceptedAt(ds, j) :: ds[j].sequence < ds[i].sequence
  {
    hide Mark, Deliver, Accepted, After;
    var init, d := ds[..i], ds[i];
    MarkBounds(init, d);
    MarksAfter(After(init), d, d.target, d.version);
    SameAcceptance(ds, i);
    var j := MarkIsAccepted(init, d);
  }

  /** Accepted sequences of a pair strictly increase, so no secret is handed out twice. */
  lemma AcceptedIncrease(ds: seq<Delivery>, i: nat, j: nat)
    requires i < j < |ds| && SamePair(ds[i], ds[j]) && AcceptedAt(ds, i) && AcceptedAt(ds, j)
    ensures ds[i].sequence < ds[j].sequence
  {
    hide AcceptedAt;
    AcceptedIff(ds, j);
  }

  /** A sequence is spent even when its secret is malformed or cannot be unsealed. */
  lemma SpentBeforeUnsealing(store: Keyspace, d: Delivery, again: Delivery)
    requires Accepted(store, d) && Deliver(store, d).1.Err?
    requires again.target == d.target && again.version == d.version && again.sequence <= d.sequence && again.read
    ensures Deliver(Deliver(store, d).0, again).1 == Err(Replay)
  {
    hide Mark;
    MarksAfter(store, d, d.target, d.version);
  }

  // ---------------------------------------------------------------- the store as the agent keeps it

  class SequenceStore {
    var sequences: Keyspace

    constructor ()
      ensures sequences == map[]
    {
      sequences := map[];
    }

    method SequenceKey(target: Bytes, version: u64) returns (key: Bytes)
      ensures key == Key(target, version)
    {
      key := target;
      key := key + [0];
      key := key + ToLe(version, 8);
    }

    method CheckRecord(d: Delivery) returns (r: Result<bool, Error>)
      modifies this
      ensures (sequences, r) == CheckAndRecord(old(sequences), d)
    {
      if d.sequence == 0 { return Ok(false); }
      var key := SequenceKey(d.target, d.version);
      if !d.read { return Err(StorageError); }
      var last := 0;
      if key in sequences && |sequences[key]| >= 8 { last := FromLe(sequences[key][..8]); }
      if d.sequence <= last { return Ok(false); }
      if !d.insert { return Err(StorageError); }
      sequences := sequences[key := ToLe(d.sequence, 8)];
      r := Ok(true);
    }

    /** Only an accepted secret with a 32-byte key that unseals is handed out, and its
        sequence has become the pair's mark. */
    method DeliverSecret(d: Delivery) returns (r: Result<Bytes, Error>)
      modifies this
      ensures (sequences, r) == Deliver(old(sequences), d)
      ensures r.Ok? ==> Mark(old(sequences), d.target, d.version) < d.sequence == Mark(sequences, d.target, d.version)
    {
      hide Key, Mark;
      MarksAfter(sequences, d, d.target, d.version);
      var accepted := CheckRecord(d);
      if accepted.Err? { return Err(accepted.error); }
      if !accepted.value { return Err(Replay); }
      if |d.ephemeralKey| != 32 { return Err(BadKey); }
      if d.unsealed.None? { return Err(UnsealFailed); }
      r := Ok(d.unsealed.value);
    }
  }
}
