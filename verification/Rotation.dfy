/** Master-key rotation (crypto/rotation.py, crypto/envelope.py, crypto/keystore.py, the key map of
  engine.py, and the rotate and unlock routes).

  The rotation loop unwraps every active record with one old key and never asks which key the
  record was wrapped under. What that does to records over whole runs is proved in module
  RotationRuns. Nonces and new keys are arguments.
 */
module Rotation {
  type RecordId = string
  type KeyId = string
  type Bytes = seq<int>
  type Time = int

  datatype Option<T> = None | Some(value: T)

  /// Envelope encryption

  datatype Sealed = Sealed(ciphertext: Bytes, nonce: Bytes)

  /** An authenticated cipher with the key and nonce explicit, and a keyed hash. */
  datatype Crypto = Crypto(
    encrypt: (Bytes, Bytes, Bytes) -> Bytes,
    decrypt: (Bytes, Bytes, Bytes) -> Option<Bytes>,
    mac: (Bytes, Sealed) -> Bytes)

  /** Decryption inverts encryption under the same key and nonce. */
  ghost predicate Lawful(c: Crypto) {
    forall k, n, p :: c.decrypt(k, n, c.encrypt(k, n, p)) == Some(p)
  }

  /** What was sealed under one key does not open under another. */
  ghost predicate Authenticated(c: Crypto) {
    forall k, k', n, p :: k != k' ==> c.decrypt(k', n, c.encrypt(k, n, p)) == None
  }

  /** A keyed hash of the same data differs under different keys. */
  ghost predicate KeySeparating(c: Crypto) {
    forall k, k', s :: c.mac(k, s) == c.mac(k', s) ==> k == k'
  }

  function Seal(c: Crypto, key: Bytes, nonce: Bytes, data: Bytes): Sealed {
    Sealed(c.encrypt(key, nonce, data), nonce)
  }

  function Unseal(c: Crypto, key: Bytes, sealed: Sealed): Option<Bytes> {
    c.decrypt(key, sealed.nonce, sealed.ciphertext)
  }

  /** The DEK sealed under the master key, and the data sealed under the DEK. */
  datatype Envelope = Envelope(edek: Sealed, data: Sealed)

  function EncryptEnvelope(c: Crypto, key: Bytes, dek: Bytes, iv: Bytes, nonce: Bytes, plaintext: Bytes): Envelope {
    Envelope(Seal(c, key, iv, dek), Seal(c, dek, nonce, plaintext))
  }

  function DecryptEnvelope(c: Crypto, key: Bytes, envelope: Envelope): Option<Bytes> {
    var dek := Unseal(c, key, envelope.edek);
    if dek.None? then None else Unseal(c, dek.value, envelope.data)
  }

  /** Re-wrap the DEK; None stands for the exception of a failed unwrap. */
  function RotateDek(c: Crypto, edek: Sealed, oldKey: Bytes, newKey: Bytes, iv: Bytes): Option<Sealed> {
    var dek := Unseal(c, oldKey, edek);
    if dek.None? then None else Some(Seal(c, newKey, iv, dek.value))
  }

  /** Rotating an envelope moves it from the old key to the new one and keeps its plaintext. */
  lemma {:induction false} RotationKeepsPlaintext(c: Crypto, oldKey: Bytes, newKey: Bytes, dek: Bytes, iv: Bytes,
                                                  iv': Bytes, nonce: Bytes, plaintext: Bytes)
    requires Lawful(c)
    ensures var envelope := EncryptEnvelope(c, oldKey, dek, iv, nonce, plaintext);
      var rotated := RotateDek(c, envelope.edek, oldKey, newKey, iv');
      && rotated.Some?
      && DecryptEnvelope(c, newKey, envelope.(edek := rotated.value)) == Some(plaintext)
      && (Authenticated(c) && oldKey != newKey ==>
            DecryptEnvelope(c, oldKey, envelope.(edek := rotated.value)) == None)
  {
    var edek := Seal(c, oldKey, iv, dek);
    assert Unseal(c, oldKey, edek) == Some(dek);
    assert Unseal(c, newKey, Seal(c, newKey, iv', dek)) == Some(dek);
  }

  /// The state

  datatype Record = Record(deleted: bool, keyId: KeyId, edek: Sealed, token: Bytes)

  /** The scheduler's state file. */
  datatype Scheduler = Scheduler(lastRotation: Option<Time>, currentKeyId: Option<KeyId>, autoRotate: bool,
                                 intervalHours: int)

  /** The engine's key map; keys for search and integrity are the active key. */
  datatype Engine = Engine(active: KeyId, versions: map<KeyId, Bytes>)

  /** What was true of a record when it was put: history for the theorems. */
  datatype Origin = Origin(dek: Bytes, plaintext: Bytes, macKey: Bytes)

  datatype State = State(
    records: map<RecordId, Record>,
    blobs: map<RecordId, Sealed>,
    keys: map<KeyId, Bytes>,
    masterKeyId: KeyId,
    scheduler: Scheduler,
    engine: Engine,
    origins: map<RecordId, Origin>)

  /// The scheduler

  function ShouldRotate(s: Scheduler, now: Time): bool {
    s.autoRotate && s.lastRotation.Some? && now - s.lastRotation.value >= s.intervalHours * 3600
  }

  function Configure(s: Scheduler, autoRotate: Option<bool>, intervalHours: Option<int>): Scheduler {
    s.(autoRotate := if autoRotate.Some? then autoRotate.value else s.autoRotate,
       intervalHours := if intervalHours.Some? then intervalHours.value else s.intervalHours)
  }

  function Active(records: map<RecordId, Record>): set<RecordId> {
    set id | id in records && !records[id].deleted
  }

  /** The query of the rotation returns the active records in some order, each once. */
  ghost predicate Enumerates(order: seq<RecordId>, ids: set<RecordId>) {
    && (forall i, j :: 0 <= i < j < |order| ==> order[i] != order[j])
    && (forall id :: id in order <==> id in ids)
  }

  /** The loop over the first n records; None stands for the exception of a failed unwrap. */
  function RotateLoop(c: Crypto, records: map<RecordId, Record>, order: seq<RecordId>, n: nat, oldKey: Bytes,
                      newKey: Bytes, newId: KeyId, ivs: RecordId -> Bytes): Option<map<RecordId, Record>>
    requires n <= |order| && forall id :: id in order ==> id in records
    ensures RotateLoop(c, records, order, n, oldKey, newKey, newId, ivs).Some? ==>
              RotateLoop(c, records, order, n, oldKey, newKey, newId, ivs).value.Keys == records.Keys
  {
    if n == 0 then Some(records)
    else
      var before := RotateLoop(c, records, order, n - 1, oldKey, newKey, newId, ivs);
      if before.None? then None
      else
        var id := order[n - 1];
        assert id in order;
        var edek := RotateDek(c, before.value[id].edek, oldKey, newKey, ivs(id));
        if edek.None? then None
        else Some(before.value[id := before.value[id].(edek := edek.value, keyId := newId)])
  }

  datatype Outcome =
    | NotDue
    | KeyMissing
    | KeyExists
    | UnwrapFailed
    | Rotated(count: nat, newId: KeyId)

  function NewKeyId(masterKeyId: KeyId, stamp: string): KeyId {
    masterKeyId + "-v" + stamp
  }

  /** How the rotate route ends after a rotation that succeeded: with the commit, with a commit that does
    not happen, or, before that, in load_chain, so that the engine is not replaced either. */
  datatype Ending = Committed | CommitFailed | ReloadFailed

  /** The rotate route: run_auto_rotation, then a new engine with every stored key, then the commit.
    The key file, the state file and the settings are written first and stay whatever the ending; the
    records do not. The outcome is that of run_auto_rotation. */
  function Rotate(c: Crypto, s: State, order: seq<RecordId>, now: Time, stamp: string, newKey: Bytes,
                  ivs: RecordId -> Bytes, ending: Ending): (State, Outcome)
    requires forall id :: id in order ==> id in s.records
  {
    var oldId := if s.scheduler.currentKeyId.Some? then s.scheduler.currentKeyId.value else s.masterKeyId;
    var newId := NewKeyId(s.masterKeyId, stamp);
    if !ShouldRotate(s.scheduler, now) then (s, NotDue)
    else if oldId !in s.keys then (s, KeyMissing)
    else if newId in s.keys then (s, KeyExists)
    else
      var keys := s.keys[newId := newKey];
      var rotated := RotateLoop(c, s.records, order, |order|, s.keys[oldId], newKey, newId, ivs);
      if rotated.None? then (s.(keys := keys), UnwrapFailed)
      else
        (s.(records := if ending.Committed? then rotated.value else s.records,
            keys := keys,
            masterKeyId := newId,
            scheduler := s.scheduler.(lastRotation := Some(now), currentKeyId := Some(newId)),
            engine := if ending.ReloadFailed? then s.engine else Engine(newId, keys)),
         Rotated(|order|, newId))
  }

  /// Records

  /** A new record is wrapped under the engine's active key and labelled with the key id of the
    settings. */
  function Put(c: Crypto, s: State, id: RecordId, dek: Bytes, iv: Bytes, nonce: Bytes, plaintext: Bytes): State {
    if id in s.origins || s.engine.active !in s.engine.versions then s
    else
      var key := s.engine.versions[s.engine.active];
      var envelope := EncryptEnvelope(c, key, dek, iv, nonce, plaintext);
      s.(records := s.records[id := Record(false, s.masterKeyId, envelope.edek, c.mac(key, envelope.data))],
         blobs := s.blobs[id := envelope.data],
         origins := s.origins[id := Origin(dek, plaintext, key)])
  }

  /** A soft delete; a secure one removes the blob as well. */
  function Delete(s: State, id: RecordId, secure: bool): State {
    if id !in s.records then s
    else s.(records := s.records[id := s.records[id].(deleted := true)],
            blobs := if secure then s.blobs - {id} else s.blobs)
  }

  datatype Reading = NotFound | BlobMissing | IntegrityFailed | KeyUnavailable | DecryptFailed | Plain(plaintext: Bytes)

  function Get(c: Crypto, s: State, id: RecordId): Reading {
    if id !in s.records || s.records[id].deleted then NotFound
    else if id !in s.blobs then BlobMissing
    else if s.engine.active !in s.engine.versions
            || c.mac(s.engine.versions[s.engine.active], s.blobs[id]) != s.records[id].token then IntegrityFailed
    else if s.records[id].keyId !in s.engine.versions then KeyUnavailable
    else
      var envelope := Envelope(s.records[id].edek, s.blobs[id]);
      var plaintext := DecryptEnvelope(c, s.engine.versions[s.records[id].keyId], envelope);
      if plaintext.None? then DecryptFailed else Plain(plaintext.value)
  }

  /** The unlock route: a new engine that knows only the key named by the settings. */
  function Unlock(s: State): State {
    if s.masterKeyId !in s.keys then s
    else s.(engine := Engine(s.masterKeyId, map[s.masterKeyId := s.keys[s.masterKeyId]]))
  }

  /// Runs

  datatype Step =
    | DoPut(id: RecordId, dek: Bytes, iv: Bytes, nonce: Bytes, plaintext: Bytes)
    | DoDelete(id: RecordId, secure: bool)
    | DoUnlock
    | DoConfigure(autoRotate: Option<bool>, intervalHours: Option<int>)
    | DoRotate(order: seq<RecordId>, now: Time, stamp: string, newKey: Bytes, ivs: RecordId -> Bytes, ending: Ending)

  /** A rotation works on the list that its query returned. */
  ghost predicate Possible(s: State, step: Step) {
    step.DoRotate? ==> Enumerates(step.order, Active(s.records))
  }

  ghost function Apply(c: Crypto, s: State, step: Step): State {
    if !Possible(s, step) then s
    else
      match step
      case DoPut(id, dek, iv, nonce, plaintext) => Put(c, s, id, dek, iv, nonce, plaintext)
      case DoDelete(id, secure) => Delete(s, id, secure)
      case DoUnlock => Unlock(s)
      case DoConfigure(autoRotate, intervalHours) => s.(scheduler := Configure(s.scheduler, autoRotate, intervalHours))
      case DoRotate(order, now, stamp, newKey, ivs, ending) => Rotate(c, s, order, now, stamp, newKey, ivs, ending).0
  }

  ghost function Run(c: Crypto, s: State, steps: seq<Step>): State
    decreases |steps|
  {
    if steps == [] then s else Run(c, Apply(c, s, steps[0]), steps[1..])
  }
}
