/** The sealed key store (src/identity/keystore.rs): three encodings behind one prefix byte
    and fallbacks between them. TPM sealing, the cipher and key generation are library code,
    taken as functions with an inverse law; random bytes and failures are inputs. */
module SealedStore {
  import opened Base

  const TPM: u8 := 1
  const SOFTWARE: u8 := 2
  const ENVELOPE: u8 := 3
  const TPM_SEAL_MAX_BYTES: nat := 64
  const NONCE: nat := 12

  /** The label of the software master key, "software_master_key". */
  const MASTER: Bytes := [115, 111, 102, 116, 119, 97, 114, 101, 95, 109, 97, 115, 116, 101, 114, 95, 107, 101, 121]

  // ---------------------------------------------------------------- envelopes

  datatype Envelope = Envelope(blob: Bytes, nonce: Bytes, ciphertext: Bytes)

  /** A 32-bit length, the sealed key, the nonce and the ciphertext. */
  function Layout(e: Envelope): Bytes { ToLe(|e.blob|, 4) + e.blob + e.nonce + e.ciphertext }

  /** On any byte string: too short, or exactly these pieces in this order. */
  function Parse(raw: Bytes): (r: Option<Envelope>)
    ensures r.Some? ==> |raw| >= 4 && raw == raw[..4] + r.value.blob + r.value.nonce + r.value.ciphertext
    ensures r.Some? ==> |r.value.nonce| == NONCE && |r.value.blob| == FromLe(raw[..4])
    ensures r.None? <==> |raw| < 4 || |raw| < 4 + FromLe(raw[..4]) + NONCE
  {
    if |raw| < 4 then None
    else
      var n := FromLe(raw[..4]);
      if |raw| < 4 + n + NONCE then None
      else Some(Envelope(raw[4..4 + n], raw[4 + n..4 + n + NONCE], raw[4 + n + NONCE..]))
  }

  /** Parsing inverts the layout exactly when the sealed key's length fits its 32-bit field. */
  lemma ParseLayoutIff(e: Envelope)
    requires |e.nonce| == NONCE
    ensures Parse(Layout(e)) == Some(e) <==> |e.blob| < Pow2(32)
  {
    hide Pow2, ToLe, FromLe;
    var raw, n := Layout(e), |e.blob|;
    assert raw[..4] == ToLe(n, 4);
    LeBounded(raw[..4]);
    if n < Pow2(32) { LeRoundTrip(n, 4); }
    assert raw[4..4 + n] == e.blob && raw[4 + n..4 + n + NONCE] == e.nonce && raw[4 + n + NONCE..] == e.ciphertext;
  }

  // ---------------------------------------------------------------- the library

  /** Sealed values are taken in their serialised form. */
  datatype Library = Library(
    tpmSeal: (Bytes, nat) -> Bytes,
    tpmUnseal: Bytes -> Option<Bytes>,
    encrypt: (Bytes, Bytes, Bytes, Bytes) -> Bytes,
    decrypt: (Bytes, Bytes, Bytes, Bytes) -> Option<Bytes>,
    privateKey: nat -> Bytes,
    publicKey: nat -> Bytes,
    seal: (Bytes, Bytes, nat) -> Bytes,
    unseal: (Bytes, Bytes) -> Option<Bytes>)

  ghost predicate TpmLaw(c: Library) {
    forall p, r :: |p| <= TPM_SEAL_MAX_BYTES ==> c.tpmUnseal(c.tpmSeal(p, r)) == Some(p) && |c.tpmSeal(p, r)| < Pow2(32)
  }

  ghost predicate CipherLaw(c: Library) { forall k, n, a, m :: c.decrypt(k, n, a, c.encrypt(k, n, a, m)) == Some(m) }

  ghost predicate KeyLaw(c: Library) { forall s :: |c.privateKey(s)| == 32 && |c.publicKey(s)| == 32 }

  ghost predicate SealLaw(c: Library) {
    forall s, m, r :: c.unseal(c.privateKey(s), c.seal(c.publicKey(s), m, r)) == Some(m)
  }

  ghost predicate Lawful(c: Library) { TpmLaw(c) && CipherLaw(c) && KeyLaw(c) && SealLaw(c) }

  function Plain(): Library {
    var key: Bytes := seq(32, i => 0);
    Library((p: Bytes, r) => p, (b: Bytes) => Some(b), (k: Bytes, n: Bytes, a: Bytes, m: Bytes) => m,
            (k: Bytes, n: Bytes, a: Bytes, m: Bytes) => Some(m), s => key, s => key,
            (k: Bytes, m: Bytes, r) => m, (k: Bytes, m: Bytes) => Some(m))
  }

  /** The laws are consistent. */
  lemma LawfulLibraryExists()
    ensures Lawful(Plain())
  {
    hide CipherLaw, KeyLaw, SealLaw, TpmLaw;
    PlainTpm();
    PlainOthers();
  }

  lemma PlainTpm()
    ensures TpmLaw(Plain())
  {
    hide Pow2;
    Pow2Of32();
  }

  lemma PlainOthers()
    ensures CipherLaw(Plain()) && KeyLaw(Plain()) && SealLaw(Plain())
  {
  }

  /** What a store call meets: whether a TPM endpoint is configured, which of its steps
      succeed, and the random bytes drawn. */
  datatype Inputs = Inputs(
    endpoint: bool,
    tpm: bool,
    cipher: bool,
    insert: bool,
    masterRead: bool,
    masterInsert: bool,
    soft: bool,
    softInsert: bool,
    dek: Bytes,
    nonce: Bytes,
    seed: nat,
    random: nat)

  ghost predicate Drawn(x: Inputs) { |x.dek| == 32 && |x.nonce| == NONCE }

  type Keyspace = map<Bytes, Bytes>

  /** The 64-byte master key, read or else made and written. */
  function MasterKey(c: Library, store: Keyspace, read: bool, insert: bool, seed: nat): (Keyspace, Option<Bytes>) {
    if !read then (store, None)
    else if MASTER in store && |store[MASTER]| == 64 then (store, Some(store[MASTER]))
    else if !insert then (store, None)
    else
      var key := c.privateKey(seed) + c.publicKey(seed);
      (store[MASTER := key], Some(key))
  }

  function SoftwareSeal(c: Library, store: Keyspace, tag: Bytes, plaintext: Bytes, x: Inputs): (Keyspace, bool)
    requires Lawful(c)
  {
    var (s, key) := MasterKey(c, store, x.masterRead, x.masterInsert, x.seed);
    if key.None? || !x.soft || !x.softInsert then (s, false)
    else (s[tag := [SOFTWARE] + c.seal(key.value[32..], plaintext, x.random)], true)
  }

  /** A failed envelope falls back to software sealing whatever the failure was; a direct TPM
      blob that cannot be written is an error. */
  function StoreSealed(c: Library, store: Keyspace, tag: Bytes, plaintext: Bytes, x: Inputs): (Keyspace, bool)
    requires Lawful(c)
  {
    if x.endpoint && |plaintext| > TPM_SEAL_MAX_BYTES && x.tpm && x.cipher && x.insert then
      var e := Envelope(c.tpmSeal(x.dek, x.random), x.nonce, c.encrypt(x.dek, x.nonce, tag, plaintext));
      (store[tag := [ENVELOPE] + Layout(e)], true)
    else if x.endpoint && |plaintext| <= TPM_SEAL_MAX_BYTES && x.tpm then
      if x.insert then (store[tag := [TPM] + c.tpmSeal(plaintext, x.random)], true) else (store, false)
    else SoftwareSeal(c, store, tag, plaintext, x)
  }

  datatype Error = StorageError | NoEndpoint | UnsealFailed | Malformed | UnknownPrefix

  /** What a load call meets. */
  datatype Access = Access(endpoint: bool, read: bool, tpm: bool, masterRead: bool, masterInsert: bool, seed: nat)

  const CLEAN: Access := Access(true, true, true, true, true, 0)

  function OpenEnvelope(c: Library, tag: Bytes, raw: Bytes, tpm: bool): Result<Bytes, Error> {
    var e := Parse(raw);
    if e.None? then Err(Malformed)
    else
      var dek := c.tpmUnseal(e.value.blob);
      if dek.None? || !tpm then Err(UnsealFailed)
      else
        var p := c.decrypt(dek.value, e.value.nonce, tag, e.value.ciphertext);
        if p.None? then Err(UnsealFailed) else Ok(p.value)
  }

  /** Opening a stored blob may itself have to make the master key. */
  function OpenBlob(c: Library, store: Keyspace, tag: Bytes, raw: Bytes, a: Access): (Keyspace, Result<Option<Bytes>,
                    Error>)
    requires Lawful(c) && raw != []
  {
    if raw[0] == TPM then
      if !a.endpoint then (store, Err(NoEndpoint))
      else
        var p := c.tpmUnseal(raw[1..]);
        (store, if p.None? || !a.tpm then Err(UnsealFailed) else Ok(Some(p.value)))
    else if raw[0] == ENVELOPE then
      if !a.endpoint then (store, Err(NoEndpoint))
      else
        var p := OpenEnvelope(c, tag, raw[1..], a.tpm);
        (store, if p.Err? then Err(p.error) else Ok(Some(p.value)))
    else if raw[0] == SOFTWARE then
      var (s, key) := MasterKey(c, store, a.masterRead, a.masterInsert, a.seed);
      if key.None? then (s, Err(StorageError))
      else
        var p := c.unseal(key.value[..32], raw[1..]);
        (s, if p.None? then Err(UnsealFailed) else Ok(Some(p.value)))
    else (store, Err(UnknownPrefix))
  }

  function LoadSealed(c: Library, store: Keyspace, tag: Bytes, a: Access): (Keyspace, Result<Option<Bytes>, Error>)
    requires Lawful(c)
  {
    if !a.read then (store, Err(StorageError))
    else if tag !in store || store[tag] == [] then (store, Ok(None))
    else OpenBlob(c, store, tag, store[tag], a)
  }

  // ---------------------------------------------------------------- refinement of a plain map

  ghost predicate IsKey(c: Library, key: Bytes) { exists s :: key == c.privateKey(s) + c.publicKey(s) }

  /** A blob that opens to `p`, and needs the master key only if there is one. */
  ghost predicate Opens(c: Library, store: Keyspace, tag: Bytes, p: Bytes)
    requires Lawful(c)
  {
    && tag in store && store[tag] != []
    && OpenBlob(c, store, tag, store[tag], CLEAN).1 == Ok(Some(p))
    && (store[tag][0] == SOFTWARE ==> MASTER in store)
  }

  ghost predicate Represents(c: Library, store: Keyspace, m: Keyspace)
    requires Lawful(c)
  {
    && (MASTER in store ==> IsKey(c, store[MASTER]))
    && MASTER !in m && store.Keys - {MASTER} == m.Keys
    && forall l | l in m :: Opens(c, store, l, m[l])
  }

  /** Nothing that a load uses fails: the endpoint is there, and the reads and the TPM work. */
  predicate Unfailing(a: Access) { a.endpoint && a.read && a.tpm && a.masterRead }

  /** With nothing failing, a load is the map's answer; with failures it is that answer or an
      error, never other bytes; and it changes nothing. */
  lemma LoadIsLookup(c: Library, store: Keyspace, m: Keyspace, tag: Bytes, a: Access)
    requires Lawful(c) && Represents(c, store, m)
    ensures LoadSealed(c, store, tag, a).0 == store
    ensures tag != MASTER ==>
            var want := if tag in m then Some(m[tag]) else None;
            var r := LoadSealed(c, store, tag, a).1;
            (Unfailing(a) ==> r == Ok(want)) && (r.Ok? ==> r.value == want)
  {
    if MASTER in store { KeyLength(c, store[MASTER]); }
    if tag in m { assert Opens(c, store, tag, m[tag]); }
  }

  /** The exact outcome of a load, by how the value was sealed and what fails. */
  lemma LoadOutcome(c: Library, store: Keyspace, m: Keyspace, tag: Bytes, a: Access)
    requires Lawful(c) && Represents(c, store, m) && tag != MASTER
    ensures tag in m ==> tag in store && store[tag] != [] && store[tag][0] in {TPM, SOFTWARE, ENVELOPE}
    ensures LoadSealed(c, store, tag, a).1 ==
              if !a.read then Err(StorageError)
              else if tag !in m then Ok(None)
              else if store[tag][0] == SOFTWARE then
                if a.masterRead then Ok(Some(m[tag])) else Err(StorageError)
              else if !a.endpoint then Err(NoEndpoint)
              else if !a.tpm then Err(UnsealFailed)
              else Ok(Some(m[tag]))
  {
    if MASTER in store { KeyLength(c, store[MASTER]); }
    if tag in m { assert Opens(c, store, tag, m[tag]); }
  }

  /** An envelope: the TPM seals a new key, under which the label is authenticated with the
      secret; the sealed key's length goes before it in four bytes. */
  ghost function Enveloped(c: Library, tag: Bytes, plaintext: Bytes, x: Inputs): Bytes {
    var dek, secret := c.tpmSeal(x.dek, x.random), c.encrypt(x.dek, x.nonce, tag, plaintext);
    [3] + (ToLe(|dek|, 4) + dek + x.nonce + secret)
  }

  /** How a store call turns out and what it writes, from its inputs, the length and the master
      key alone. With an endpoint, more than 64 bytes go into an envelope (prefix 3) and fall
      back to software sealing (2) if any of its steps fails; up to 64 bytes go to the TPM (1)
      and fall back only if the TPM fails, not if the blob cannot be written. Without one,
      software it is. Only software sealing touches the master key, and then only to make one. */
  lemma StoreOutcome(c: Library, store: Keyspace, tag: Bytes, plaintext: Bytes, x: Inputs)
    requires Lawful(c) && tag != MASTER
    ensures var (s, ok) := StoreSealed(c, store, tag, plaintext, x);
            var envelope := x.endpoint && |plaintext| > 64 && x.tpm && x.cipher && x.insert;
            var direct := x.endpoint && |plaintext| <= 64 && x.tpm;
            var hasKey := MASTER in store && |store[MASTER]| == 64;
            var makesKey := !envelope && !direct && x.masterRead && !hasKey && x.masterInsert;
            var software := x.masterRead && (hasKey || x.masterInsert) && x.soft && x.softInsert;
            && (ok <==> if envelope then true else if direct then x.insert else software)
            && (ok && envelope ==> tag in s && s[tag] == Enveloped(c, tag, plaintext, x))
            && (ok && direct ==> tag in s && s[tag] == [1] + c.tpmSeal(plaintext, x.random))
            && (ok && !envelope && !direct ==>
                  && MASTER in s && |s[MASTER]| == 64 && tag in s
                  && s[tag] == [2] + c.seal(s[MASTER][32..], plaintext, x.random))
            && (!ok ==> (tag in s <==> tag in store) && (tag in s ==> s[tag] == store[tag]))
            && (MASTER in s <==> MASTER in store || makesKey)
            && (MASTER in s ==> s[MASTER] == if makesKey then c.privateKey(x.seed) + c.publicKey(x.seed)
                                             else store[MASTER])
            && (forall l | l != tag && l != MASTER :: (l in s <==> l in store) && (l in s ==> s[l] == store[l]))
  {
    hide TpmLaw, CipherLaw, SealLaw, ToLe;
  }

  /** What bytes a load hands out, whatever the store holds: those that the library opens the
      stored blob to, by its prefix; and which blobs it refuses. */
  lemma LoadOkIff(c: Library, store: Keyspace, tag: Bytes, a: Access, p: Bytes)
    requires Lawful(c)
    ensures LoadSealed(c, store, tag, a).1 == Ok(Some(p)) <==>
            && a.read && tag in store && store[tag] != []
            && var raw := store[tag][1..];
               match store[tag][0]
               case 1 => a.endpoint && a.tpm && c.tpmUnseal(raw) == Some(p)
               case 2 =>
                 && a.masterRead
                 && if MASTER in store && |store[MASTER]| == 64 then c.unseal(store[MASTER][..32], raw) == Some(p)
                    else a.masterInsert && c.unseal(c.privateKey(a.seed), raw) == Some(p)
               case 3 =>
                 && a.endpoint && a.tpm && Parse(raw).Some?
                 && var e := Parse(raw).value;
                    && c.tpmUnseal(e.blob).Some?
                    && c.decrypt(c.tpmUnseal(e.blob).value, e.nonce, tag, e.ciphertext) == Some(p)
               case _ => false
    ensures a.read && tag in store && store[tag] != [] ==>
              var prefix, r := store[tag][0], LoadSealed(c, store, tag, a).1;
              && (prefix !in {1, 2, 3} <==> r == Err(UnknownPrefix))
              && (prefix in {1, 3} && !a.endpoint <==> r == Err(NoEndpoint))
              && (prefix == 3 && a.endpoint && Parse(store[tag][1..]).None? <==> r == Err(Malformed))
  {
    hide TpmLaw, CipherLaw, SealLaw, Parse;
    assert (c.privateKey(a.seed) + c.publicKey(a.seed))[..32] == c.privateKey(a.seed);
  }

  /** Without an endpoint a stored value is read back exactly when it was software-sealed. */
  lemma LoadWithoutEndpointIff(c: Library, store: Keyspace, m: Keyspace, tag: Bytes, a: Access)
    requires Lawful(c) && Represents(c, store, m) && tag in m && !a.endpoint && Unfailing(a.(endpoint := true))
    ensures var r := LoadSealed(c, store, tag, a).1;
            if store[tag][0] == SOFTWARE then r == Ok(Some(m[tag])) else r == Err(NoEndpoint)
  {
    assert Opens(c, store, tag, m[tag]);
  }

  lemma KeyLength(c: Library, key: Bytes)
    requires Lawful(c) && IsKey(c, key)
    ensures |key| == 64
  {
  }

  /** Where the master key is left alone or first made, what opened still opens. */
  lemma OpensElsewhere(c: Library, store: Keyspace, s: Keyspace, tag: Bytes, p: Bytes)
    requires Lawful(c) && Opens(c, store, tag, p) && tag in s && s[tag] == store[tag]
    requires MASTER in store ==> MASTER in s && s[MASTER] == store[MASTER]
    ensures Opens(c, s, tag, p)
  {
  }

  lemma OpensFreshTpm(c: Library, store: Keyspace, tag: Bytes, p: Bytes, random: nat)
    requires Lawful(c) && |p| <= TPM_SEAL_MAX_BYTES
    ensures Opens(c, store[tag := [TPM] + c.tpmSeal(p, random)], tag, p)
  {
    assert ([TPM] + c.tpmSeal(p, random))[1..] == c.tpmSeal(p, random);
  }

  lemma EnvelopeOpens(c: Library, tag: Bytes, p: Bytes, x: Inputs)
    requires Lawful(c) && Drawn(x)
    ensures var e := Envelope(c.tpmSeal(x.dek, x.random), x.nonce, c.encrypt(x.dek, x.nonce, tag, p));
            OpenEnvelope(c, tag, Layout(e), true) == Ok(p)
  {
    hide Layout, Parse;
    ParseLayoutIff(Envelope(c.tpmSeal(x.dek, x.random), x.nonce, c.encrypt(x.dek, x.nonce, tag, p)));
  }

  lemma OpensFreshEnvelope(c: Library, store: Keyspace, tag: Bytes, p: Bytes, x: Inputs)
    requires Lawful(c) && Drawn(x)
    ensures var e := Envelope(c.tpmSeal(x.dek, x.random), x.nonce, c.encrypt(x.dek, x.nonce, tag, p));
            Opens(c, store[tag := [ENVELOPE] + Layout(e)], tag, p)
  {
    hide Layout, OpenEnvelope;
    var e := Envelope(c.tpmSeal(x.dek, x.random), x.nonce, c.encrypt(x.dek, x.nonce, tag, p));
    EnvelopeOpens(c, tag, p, x);
    assert ([ENVELOPE] + Layout(e))[1..] == Layout(e);
  }

  lemma OpensFreshSoftware(c: Library, store: Keyspace, tag: Bytes, p: Bytes, random: nat)
    requires Lawful(c) && tag != MASTER && MASTER in store && IsKey(c, store[MASTER])
    ensures Opens(c, store[tag := [SOFTWARE] + c.seal(store[MASTER][32..], p, random)], tag, p)
  {
    var s :| store[MASTER] == c.privateKey(s) + c.publicKey(s);
    var key := store[MASTER];
    assert key[..32] == c.privateKey(s) && key[32..] == c.publicKey(s);
    assert ([SOFTWARE] + c.seal(key[32..], p, random))[1..] == c.seal(key[32..], p, random);
  }

  lemma MasterKept(c: Library, store: Keyspace, m: Keyspace, read: bool, insert: bool, seed: nat)
    requires Lawful(c) && Represents(c, store, m)
    ensures var (s, key) := MasterKey(c, store, read, insert, seed);
            && Represents(c, s, m) && (key.Some? ==> MASTER in s && key.value == s[MASTER])
  {
    hide OpenBlob;
    var s := MasterKey(c, store, read, insert, seed).0;
    if MASTER in store { KeyLength(c, store[MASTER]); }
    forall l | l in m ensures Opens(c, s, l, m[l]) { OpensElsewhere(c, store, s, l, m[l]); }
  }

  lemma Stored(c: Library, store: Keyspace, m: Keyspace, tag: Bytes, p: Bytes, blob: Bytes)
    requires Lawful(c) && Represents(c, store, m) && tag != MASTER && Opens(c, store[tag := blob], tag, p)
    ensures Represents(c, store[tag := blob], m[tag := p])
  {
    hide OpenBlob, Opens;
    var s := store[tag := blob];
    forall l | l in m && l != tag ensures Opens(c, s, l, m[l]) { OpensElsewhere(c, store, s, l, m[l]); }
  }

  /** One store call: a success records the bytes under the label, a failure changes no value;
      either way every other label keeps its value. */
  lemma StoreIsUpdate(c: Library, store: Keyspace, m: Keyspace, tag: Bytes, p: Bytes, x: Inputs)
    requires Lawful(c) && Represents(c, store, m) && tag != MASTER && Drawn(x)
    ensures var (s, ok) := StoreSealed(c, store, tag, p, x);
            Represents(c, s, if ok then m[tag := p] else m)
  {
    hide Represents, Opens, Layout, IsKey;
    if x.endpoint && |p| > TPM_SEAL_MAX_BYTES && x.tpm && x.cipher && x.insert {
      OpensFreshEnvelope(c, store, tag, p, x);
      var e := Envelope(c.tpmSeal(x.dek, x.random), x.nonce, c.encrypt(x.dek, x.nonce, tag, p));
      Stored(c, store, m, tag, p, [ENVELOPE] + Layout(e));
    } else if x.endpoint && |p| <= TPM_SEAL_MAX_BYTES && x.tpm {
      OpensFreshTpm(c, store, tag, p, x.random);
      if x.insert { Stored(c, store, m, tag, p, [TPM] + c.tpmSeal(p, x.random)); }
    } else {
      SoftwareStored(c, store, m, tag, p, x);
    }
  }

  lemma SoftwareStored(c: Library, store: Keyspace, m: Keyspace, tag: Bytes, p: Bytes, x: Inputs)
    requires Lawful(c) && Represents(c, store, m) && tag != MASTER
    ensures var (s, ok) := SoftwareSeal(c, store, tag, p, x);
            Represents(c, s, if ok then m[tag := p] else m)
  {
    hide Opens, IsKey, MasterKey;
    var (s, key) := MasterKey(c, store, x.masterRead, x.masterInsert, x.seed);
    MasterKept(c, store, m, x.masterRead, x.masterInsert, x.seed);
    MasterLength(c, store, x.masterRead, x.masterInsert, x.seed);
    if key.Some? {
      OpensFreshSoftware(c, s, tag, p, x.random);
      Stored(c, s, m, tag, p, [SOFTWARE] + c.seal(key.value[32..], p, x.random));
    }
  }

  // ---------------------------------------------------------------- runs

  /** Stores under any label but the master key's, and loads of anything. */
  datatype Op = Store(tag: Bytes, plaintext: Bytes, inputs: Inputs) | Load(wanted: Bytes, access: Access)

  ghost predicate Proper(op: Op) { op.Store? ==> op.tag != MASTER && Drawn(op.inputs) }

  function After(c: Library, ops: seq<Op>): Keyspace
    requires Lawful(c)
  {
    if ops == [] then map[]
    else
      var s := After(c, ops[..|ops| - 1]);
      match ops[|ops| - 1]
      case Store(tag, p, x) => StoreSealed(c, s, tag, p, x).0
      case Load(tag, a) => LoadSealed(c, s, tag, a).0
  }

  /** For each label the bytes of its last successful store. */
  function LastStored(c: Library, ops: seq<Op>): Keyspace
    requires Lawful(c)
  {
    if ops == [] then map[]
    else
      var init, op := ops[..|ops| - 1], ops[|ops| - 1];
      var m := LastStored(c, init);
      if op.Store? && StoreSealed(c, After(c, init), op.tag, op.plaintext, op.inputs).1 then m[op.tag := op.plaintext]
        else m
  }

  /** Over every run, with any pattern of TPM, cipher and storage failures, the keyspace
      stands for the plain map of last successful stores. */
  lemma {:induction false} StoreRefinesMap(c: Library, ops: seq<Op>)
    requires Lawful(c) && forall i | 0 <= i < |ops| :: Proper(ops[i])
    ensures Represents(c, After(c, ops), LastStored(c, ops))
  {
    hide StoreSealed, LoadSealed, Represents, Lawful;
    if ops == [] {
      Empty(c);
    } else {
      var init, op := ops[..|ops| - 1], ops[|ops| - 1];
      StoreRefinesMap(c, init);
      if op.Store? {
        StoreIsUpdate(c, After(c, init), LastStored(c, init), op.tag, op.plaintext, op.inputs);
      } else {
        LoadIsLookup(c, After(c, init), LastStored(c, init), op.wanted, op.access);
      }
    }
  }

  lemma Empty(c: Library)
    requires Lawful(c)
    ensures Represents(c, map[], map[])
  {
  }

  /** Every value is software-sealed. */
  ghost predicate AllSoftware(store: Keyspace) {
    forall l | l in store && l != MASTER :: store[l] != [] && store[l][0] == SOFTWARE
  }

  /** A store without a TPM endpoint writes software-sealed values only. */
  lemma {:induction false} SoftwareOnly(c: Library, ops: seq<Op>)
    requires Lawful(c) && forall i | 0 <= i < |ops| :: Proper(ops[i]) && (ops[i].Store? ==> !ops[i].inputs.endpoint)
    ensures AllSoftware(After(c, ops))
  {
    hide Lawful, Represents, LoadSealed, StoreSealed, AllSoftware;
    if ops == [] {
      EmptySoftware();
    } else {
      var init, op := ops[..|ops| - 1], ops[|ops| - 1];
      SoftwareOnly(c, init);
      if op.Store? {
        SoftwareStores(c, After(c, init), op.tag, op.plaintext, op.inputs);
      } else {
        StoreRefinesMap(c, init);
        LoadIsLookup(c, After(c, init), LastStored(c, init), op.wanted, op.access);
      }
    }
  }

  lemma EmptySoftware()
    ensures AllSoftware(map[])
  {
  }

  lemma SoftwareStores(c: Library, store: Keyspace, tag: Bytes, plaintext: Bytes, x: Inputs)
    requires Lawful(c) && AllSoftware(store) && !x.endpoint
    ensures AllSoftware(StoreSealed(c, store, tag, plaintext, x).0)
  {
  }

  /** A load at the end of any run, if nothing it uses fails, returns the last successfully
      stored bytes of its label: from a store with a TPM endpoint and, when no store of the run
      had one, from a store without. */
  lemma LoadAfterRun(c: Library, ops: seq<Op>, tag: Bytes, a: Access)
    requires Lawful(c) && (forall i | 0 <= i < |ops| :: Proper(ops[i])) && tag != MASTER
    requires a.endpoint || forall i | 0 <= i < |ops| :: ops[i].Store? ==> !ops[i].inputs.endpoint
    requires Unfailing(a.(endpoint := true))
    ensures var m := LastStored(c, ops);
            LoadSealed(c, After(c, ops), tag, a).1 == Ok(if tag in m then Some(m[tag]) else None)
  {
    hide After, LastStored, Represents, LoadSealed, Lawful;
    StoreRefinesMap(c, ops);
    var store, m := After(c, ops), LastStored(c, ops);
    LoadIsLookup(c, store, m, tag, a);
    if !a.endpoint {
      SoftwareOnly(c, ops);
      SoftwareLoad(c, store, m, tag, a);
    }
  }

  lemma SoftwareLoad(c: Library, store: Keyspace, m: Keyspace, tag: Bytes, a: Access)
    requires Lawful(c) && Represents(c, store, m) && AllSoftware(store) && tag != MASTER
    requires Unfailing(a.(endpoint := true))
    ensures LoadSealed(c, store, tag, a).1 == Ok(if tag in m then Some(m[tag]) else None)
  {
    if MASTER in store { KeyLength(c, store[MASTER]); }
    if tag in m { assert Opens(c, store, tag, m[tag]); }
  }

  // ---------------------------------------------------------------- the store as the agent keeps it

  class TpmSealedStore {
    var delegation: Keyspace

    constructor ()
      ensures delegation == map[]
    {
      delegation := map[];
    }

    method Insert(tag: Bytes, value: Bytes, works: bool) returns (ok: bool)
      modifies this
      ensures ok == works && delegation == if works then old(delegation)[tag := value] else old(delegation)
    {
      ok := works;
      if works { delegation := delegation[tag := value]; }
    }

    method GetOrCreateMasterKey(c: Library, read: bool, insert: bool, seed: nat) returns (key: Option<Bytes>)
      modifies this
      ensures (delegation, key) == MasterKey(c, old(delegation), read, insert, seed)
    {
      if !read { return None; }
      if MASTER in delegation {
        var bytes := delegation[MASTER];
        if |bytes| == 64 { return Some(bytes); }
      }
      var made := c.privateKey(seed) + c.publicKey(seed);
      var ok := Insert(MASTER, made, insert);
      key := if ok then Some(made) else None;
    }

    /** The envelope is built piece by piece: length, sealed key, nonce, ciphertext. */
    method EnvelopeSeal(c: Library, tag: Bytes, plaintext: Bytes, x: Inputs) returns (ok: bool)
      modifies this
      ensures ok == (x.tpm && x.cipher && x.insert)
      ensures var e := Envelope(c.tpmSeal(x.dek, x.random), x.nonce, c.encrypt(x.dek, x.nonce, tag, plaintext));
              delegation == if ok then old(delegation)[tag := [ENVELOPE] + Layout(e)] else old(delegation)
    {
      if !x.tpm || !x.cipher { return false; }
      var sealedDek := c.tpmSeal(x.dek, x.random);
      var ciphertext := c.encrypt(x.dek, x.nonce, tag, plaintext);
      var prefixed: Bytes := [ENVELOPE];
      prefixed := prefixed + ToLe(|sealedDek|, 4);
      prefixed := prefixed + sealedDek;
      prefixed := prefixed + x.nonce;
      prefixed := prefixed + ciphertext;
      assert prefixed == [ENVELOPE] + Layout(Envelope(sealedDek, x.nonce, ciphertext));
      ok := Insert(tag, prefixed, x.insert);
    }

    method Store(c: Library, tag: Bytes, plaintext: Bytes, x: Inputs) returns (ok: bool)
      requires Lawful(c)
      modifies this
      ensures (delegation, ok) == StoreSealed(c, old(delegation), tag, plaintext, x)
    {
      hide Lawful, Layout, MasterKey;
      if x.endpoint {
        if |plaintext| > TPM_SEAL_MAX_BYTES {
          ok := EnvelopeSeal(c, tag, plaintext, x);
          if ok { return; }
        } else if x.tpm {
          ok := Insert(tag, [TPM] + c.tpmSeal(plaintext, x.random), x.insert);
          return;
        }
      }
      var key := GetOrCreateMasterKey(c, x.masterRead, x.masterInsert, x.seed);
      if key.None? || !x.soft { return false; }
      MasterLength(c, old(delegation), x.masterRead, x.masterInsert, x.seed);
      ok := Insert(tag, [SOFTWARE] + c.seal(key.value[32..], plaintext, x.random), x.softInsert);
    }

    /** The envelope is parsed before anything is unsealed; every slice is within bounds. */
    method EnvelopeUnseal(c: Library, tag: Bytes, raw: Bytes, tpm: bool) returns (r: Result<Bytes, Error>)
      ensures r == OpenEnvelope(c, tag, raw, tpm)
    {
      if |raw| < 4 { return Err(Malformed); }
      var blobLen := FromLe(raw[..4]);
      var offset := 4;
      if |raw| < offset + blobLen + NONCE { return Err(Malformed); }
      var blob := raw[offset..offset + blobLen];
      var nonceStart := offset + blobLen;
      var nonce := raw[nonceStart..nonceStart + NONCE];
      var ciphertext := raw[nonceStart + NONCE..];
      var dek := c.tpmUnseal(blob);
      if dek.None? || !tpm { return Err(UnsealFailed); }
      var p := c.decrypt(dek.value, nonce, tag, ciphertext);
      if p.None? { return Err(UnsealFailed); }
      r := Ok(p.value);
    }

    method Load(c: Library, tag: Bytes, a: Access) returns (r: Result<Option<Bytes>, Error>)
      requires Lawful(c)
      modifies this
      ensures (delegation, r) == LoadSealed(c, old(delegation), tag, a)
    {
      hide Lawful, MasterKey, OpenEnvelope;
      if !a.read { return Err(StorageError); }
      if tag !in delegation || delegation[tag] == [] { return Ok(None); }
      var raw := delegation[tag];
      if raw[0] == TPM {
        if !a.endpoint { return Err(NoEndpoint); }
        var p := c.tpmUnseal(raw[1..]);
        if p.None? || !a.tpm { return Err(UnsealFailed); }
        r := Ok(Some(p.value));
      } else if raw[0] == ENVELOPE {
        if !a.endpoint { return Err(NoEndpoint); }
        var p := EnvelopeUnseal(c, tag, raw[1..], a.tpm);
        r := if p.Err? then Err(p.error) else Ok(Some(p.value));
      } else if raw[0] == SOFTWARE {
        MasterLength(c, delegation, a.masterRead, a.masterInsert, a.seed);
        var key := GetOrCreateMasterKey(c, a.masterRead, a.masterInsert, a.seed);
        if key.None? { return Err(StorageError); }
        var p := c.unseal(key.value[..32], raw[1..]);
        if p.None? { return Err(UnsealFailed); }
        r := Ok(Some(p.value));
      } else {
        r := Err(UnknownPrefix);
      }
    }
  }

  lemma MasterLength(c: Library, store: Keyspace, read: bool, insert: bool, seed: nat)
    requires Lawful(c)
    ensures var key := MasterKey(c, store, read, insert, seed).1; key.Some? ==> |key.value| == 64
  {
  }
}
