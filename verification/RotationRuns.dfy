/** What becomes of records and keys over runs of puts, deletes, unlocks, settings and rotations.

  Two results carry the rest. A record that opens under the key it names does so for ever, whatever
  rotations do and however they end. And while every rotation is committed, the key it names is the
  current one.
 */
module RotationRuns {
  import opened Rotation

  /// Records

  /** The record holds its DEK sealed under the key that it names, and unwraps to it. */
  ghost predicate Unwraps(c: Crypto, record: Record, keys: map<KeyId, Bytes>, origin: Origin) {
    && record.keyId in keys
    && record.edek == Seal(c, keys[record.keyId], record.edek.nonce, origin.dek)
    && Unseal(c, keys[record.keyId], record.edek) == Some(origin.dek)
  }

  /** The blob opens under the DEK, and the token is its hash under the key of the day. */
  ghost predicate BlobOk(c: Crypto, blob: Sealed, record: Record, origin: Origin) {
    Unseal(c, origin.dek, blob) == Some(origin.plaintext) && record.token == c.mac(origin.macKey, blob)
  }

  lemma WrongKey(c: Crypto, record: Record, keys: map<KeyId, Bytes>, key: Bytes, origin: Origin)
    requires Authenticated(c) && Unwraps(c, record, keys, origin) && key != keys[record.keyId]
    ensures Unseal(c, key, record.edek) == None
  {
  }

  /** The record opens under the key that it names, and its blob, which is there while the record is
    active, opens to its plaintext. */
  ghost predicate RecordOk(c: Crypto, s: State, id: RecordId) {
    && id in s.records && id in s.origins
    && Unwraps(c, s.records[id], s.keys, s.origins[id])
    && (!s.records[id].deleted ==> id in s.blobs)
    && (id in s.blobs ==> BlobOk(c, s.blobs[id], s.records[id], s.origins[id]))
  }

  /** The settings and the state file name the same stored key, and the engine knows its active key and no
    key that is not stored. */
  ghost predicate KeysKnown(s: State) {
    && s.masterKeyId in s.keys
    && s.scheduler.currentKeyId == Some(s.masterKeyId)
    && s.engine.active in s.engine.versions
    && (forall k :: k in s.engine.versions ==> k in s.keys && s.engine.versions[k] == s.keys[k])
  }

  ghost predicate AllOk(c: Crypto, s: State) {
    KeysKnown(s) && s.records.Keys == s.origins.Keys && forall id :: id in s.records ==> RecordOk(c, s, id)
  }

  /// The loop

  function Rewrap(c: Crypto, record: Record, newKey: Bytes, newId: KeyId, iv: Bytes, dek: Bytes): Record {
    record.(edek := Seal(c, newKey, iv, dek), keyId := newId)
  }

  /** The records of the list are rewrapped, each with what the old key opened in it, and no others are
    touched. */
  ghost predicate Rewrapped(c: Crypto, records: map<RecordId, Record>, result: map<RecordId, Record>,
                            done: seq<RecordId>, oldKey: Bytes, newKey: Bytes, newId: KeyId, ivs: RecordId -> Bytes)
  {
    && result.Keys == records.Keys
    && (forall id :: id in done ==>
          && id in records
          && Unseal(c, oldKey, records[id].edek).Some?
          && result[id] == Rewrap(c, records[id], newKey, newId, ivs(id), Unseal(c, oldKey, records[id].edek).value))
    && (forall id :: id in records && id !in done ==> result[id] == records[id])
  }

  lemma RewrapOneMore(c: Crypto, records: map<RecordId, Record>, before: map<RecordId, Record>, done: seq<RecordId>,
                      id: RecordId, dek: Bytes, oldKey: Bytes, newKey: Bytes, newId: KeyId, ivs: RecordId -> Bytes)
    requires Rewrapped(c, records, before, done, oldKey, newKey, newId, ivs)
    requires id in records && id !in done && Unseal(c, oldKey, records[id].edek) == Some(dek)
    ensures before[id] == records[id]
    ensures Rewrapped(c, records, before[id := Rewrap(c, before[id], newKey, newId, ivs(id), dek)], done + [id], oldKey,
                      newKey, newId, ivs)
  {
    hide Rewrap, Unseal;
  }

  /** The loop gets through its first n records if and only if the old key opens them all, and then
    rewraps exactly these. */
  lemma {:induction false} RotateLoopIff(c: Crypto, records: map<RecordId, Record>, order: seq<RecordId>, n: nat,
                                         oldKey: Bytes, newKey: Bytes, newId: KeyId, ivs: RecordId -> Bytes)
    requires n <= |order| && forall i, j :: 0 <= i < j < |order| ==> order[i] != order[j]
    requires forall id :: id in order ==> id in records
    ensures var r := RotateLoop(c, records, order, n, oldKey, newKey, newId, ivs);
      && (r.Some? <==> forall i :: 0 <= i < n ==> Unseal(c, oldKey, records[order[i]].edek).Some?)
      && (r.Some? ==> Rewrapped(c, records, r.value, order[..n], oldKey, newKey, newId, ivs))
  {
    hide Unseal, Rewrap, Rewrapped, RotateLoop;
    if n == 0 {
      NothingRewrapped(c, records, order, oldKey, newKey, newId, ivs);
    } else {
      RotateLoopIff(c, records, order, n - 1, oldKey, newKey, newId, ivs);
      RotateLoopStep(c, records, order, n, oldKey, newKey, newId, ivs);
      var before := RotateLoop(c, records, order, n - 1, oldKey, newKey, newId, ivs);
      var id := order[n - 1];
      assert id in order && id !in order[..n - 1];
      if before.Some? {
        assert before.value[id] == records[id] by {
          RewrappedOthers(c, records, before.value, order[..n - 1], id, oldKey, newKey, newId, ivs);
        }
        var dek := Unseal(c, oldKey, records[id].edek);
        if dek.Some? {
          RewrapOneMore(c, records, before.value, order[..n - 1], id, dek.value, oldKey, newKey, newId, ivs);
          assert order[..n] == order[..n - 1] + [id];
        }
      }
    }
  }

  lemma RewrappedOthers(c: Crypto, records: map<RecordId, Record>, result: map<RecordId, Record>, done: seq<RecordId>,
                        id: RecordId, oldKey: Bytes, newKey: Bytes, newId: KeyId, ivs: RecordId -> Bytes)
    requires Rewrapped(c, records, result, done, oldKey, newKey, newId, ivs) && id in records && id !in done
    ensures result[id] == records[id]
  {
  }

  lemma NothingRewrapped(c: Crypto, records: map<RecordId, Record>, order: seq<RecordId>, oldKey: Bytes, newKey: Bytes,
                         newId: KeyId, ivs: RecordId -> Bytes)
    requires forall id :: id in order ==> id in records
    ensures RotateLoop(c, records, order, 0, oldKey, newKey, newId, ivs) == Some(records)
    ensures order[..0] == [] && Rewrapped(c, records, records, [], oldKey, newKey, newId, ivs)
  {
  }

  lemma RotateLoopStep(c: Crypto, records: map<RecordId, Record>, order: seq<RecordId>, n: nat, oldKey: Bytes,
                       newKey: Bytes, newId: KeyId, ivs: RecordId -> Bytes)
    requires 0 < n <= |order| && forall id :: id in order ==> id in records
    ensures order[n - 1] in order
    ensures var before := RotateLoop(c, records, order, n - 1, oldKey, newKey, newId, ivs);
      var id := order[n - 1];
      RotateLoop(c, records, order, n, oldKey, newKey, newId, ivs) ==
      if before.None? then None
      else
        var dek := Unseal(c, oldKey, before.value[id].edek);
        if dek.None? then None
        else Some(before.value[id := Rewrap(c, before.value[id], newKey, newId, ivs(id), dek.value)])
  {
  }

  /** The loop on the list that the query returned. */
  lemma {:induction false} RotateAllIff(c: Crypto, records: map<RecordId, Record>, order: seq<RecordId>, oldKey: Bytes,
                                        newKey: Bytes, newId: KeyId, ivs: RecordId -> Bytes)
    requires Enumerates(order, Active(records))
    ensures var r := RotateLoop(c, records, order, |order|, oldKey, newKey, newId, ivs);
      && (r.Some? <==> forall id :: id in Active(records) ==> Unseal(c, oldKey, records[id].edek).Some?)
      && (r.Some? ==>
            && r.value.Keys == records.Keys
            && forall id :: id in records ==>
                 if records[id].deleted then r.value[id] == records[id]
                 else
                   && Unseal(c, oldKey, records[id].edek).Some?
                   && r.value[id] ==
                      Rewrap(c, records[id], newKey, newId, ivs(id), Unseal(c, oldKey, records[id].edek).value))
  {
    hide Unseal, Rewrap, RotateLoop;
    RotateLoopIff(c, records, order, |order|, oldKey, newKey, newId, ivs);
    assert order[..|order|] == order;
    forall id | id in order ensures id in Active(records) {
    }
    forall i | 0 <= i < |order| ensures order[i] in Active(records) {
      assert order[i] in order;
    }
    forall id | id in Active(records) ensures exists i :: 0 <= i < |order| && order[i] == id {
      assert id in order;
    }
  }

  lemma {:induction false} EnumerationLength(order: seq<RecordId>, ids: set<RecordId>)
    requires Enumerates(order, ids)
    ensures |order| == |ids|
    decreases |order|
  {
    if order == [] {
      assert ids == {};
    } else {
      var n := |order| - 1;
      var last := order[n];
      assert last in order && last !in order[..n];
      assert Enumerates(order[..n], ids - {last}) by {
        forall id | id in ids - {last} ensures id in order[..n] {
          assert id in order;
        }
        assert forall id :: id in order[..n] ==> id in order;
      }
      EnumerationLength(order[..n], ids - {last});
    }
  }

  /// A record opens for ever

  lemma RewrapUnwraps(c: Crypto, record: Record, keys: map<KeyId, Bytes>, newKey: Bytes, newId: KeyId, iv: Bytes,
                      origin: Origin)
    requires Lawful(c) && newId !in keys
    ensures Unwraps(c, record, keys, origin) ==> Unwraps(c, record, keys[newId := newKey], origin)
    ensures Unwraps(c, Rewrap(c, record, newKey, newId, iv, origin.dek), keys[newId := newKey], origin)
  {
  }

  lemma BlobIgnoresKeys(c: Crypto, blob: Sealed, record: Record, record': Record, origin: Origin)
    requires BlobOk(c, blob, record, origin) && record'.token == record.token
    ensures BlobOk(c, blob, record', origin)
  {
  }

  lemma DeletedUnwraps(c: Crypto, record: Record, keys: map<KeyId, Bytes>, origin: Origin)
    ensures Unwraps(c, record, keys, origin) ==> Unwraps(c, record.(deleted := true), keys, origin)
  {
  }

  /** Stored keys stay, and the bookkeeping of keys is kept by every step. */
  lemma StepKeepsKeys(c: Crypto, s: State, step: Step)
    requires KeysKnown(s)
    ensures KeysKnown(Apply(c, s, step))
    ensures forall k :: k in s.keys ==> k in Apply(c, s, step).keys && Apply(c, s, step).keys[k] == s.keys[k]
  {
    hide RotateLoop, EncryptEnvelope, ShouldRotate;
  }

  /** A rotation keeps a record that opens under the key it names, whether it gets through or not and
    however it ends: it could only spoil the record by opening it with another key. */
  lemma RotationKeepsRecord(c: Crypto, s: State, order: seq<RecordId>, now: Time, stamp: string, newKey: Bytes,
                            ivs: RecordId -> Bytes, ending: Ending, id: RecordId)
    requires Lawful(c) && Authenticated(c) && KeysKnown(s) && RecordOk(c, s, id)
    requires Enumerates(order, Active(s.records))
    ensures RecordOk(c, Rotate(c, s, order, now, stamp, newKey, ivs, ending).0, id)
  {
    hide RotateLoop, Unseal, BlobOk, Unwraps, Lawful, Authenticated, ShouldRotate, Rewrap;
    var newId, oldKey := NewKeyId(s.masterKeyId, stamp), s.keys[s.masterKeyId];
    var record, origin := s.records[id], s.origins[id];
    var s' := Rotate(c, s, order, now, stamp, newKey, ivs, ending).0;
    RotateAllIff(c, s.records, order, oldKey, newKey, newId, ivs);
    if newId !in s.keys {
      RewrapUnwraps(c, record, s.keys, newKey, newId, ivs(id), origin);
      if Unseal(c, oldKey, record.edek).Some? {
        OpensItsDek(c, record, s.keys, oldKey, origin);
        RewrapKeeps(c, record, newKey, newId, ivs(id), origin.dek);
      }
      if id in s.blobs {
        BlobIgnoresKeys(c, s.blobs[id], record, s'.records[id], origin);
      }
    }
  }

  lemma OpensItsDek(c: Crypto, record: Record, keys: map<KeyId, Bytes>, key: Bytes, origin: Origin)
    requires Authenticated(c) && Unwraps(c, record, keys, origin) && Unseal(c, key, record.edek).Some?
    ensures key == keys[record.keyId] && Unseal(c, key, record.edek) == Some(origin.dek)
  {
    hide Unseal;
    if key != keys[record.keyId] {
      WrongKey(c, record, keys, key, origin);
      assert false;
    }
  }

  lemma RewrapKeeps(c: Crypto, record: Record, newKey: Bytes, newId: KeyId, iv: Bytes, dek: Bytes)
    ensures var record' := Rewrap(c, record, newKey, newId, iv, dek);
      record'.deleted == record.deleted && record'.token == record.token
  {
  }

  lemma {:induction false} StepKeepsRecord(c: Crypto, s: State, step: Step, id: RecordId)
    requires Lawful(c) && Authenticated(c) && KeysKnown(s) && RecordOk(c, s, id)
    ensures RecordOk(c, Apply(c, s, step), id)
  {
    hide Rotate, EncryptEnvelope, BlobOk, Unwraps, Lawful, Authenticated;
    if Possible(s, step) {
      match step
      case DoRotate(order, now, stamp, newKey, ivs, ending) =>
        RotationKeepsRecord(c, s, order, now, stamp, newKey, ivs, ending, id);
      case DoDelete(other, secure) =>
        DeletedUnwraps(c, s.records[id], s.keys, s.origins[id]);
        if id in s.blobs {
          BlobIgnoresKeys(c, s.blobs[id], s.records[id], s.records[id].(deleted := true), s.origins[id]);
        }
      case _ =>
    }
  }

  /** What a run leaves alone: the history of the records, and the blobs but for secure deletes. */
  ghost predicate Continues(s: State, s': State) {
    && (forall id :: id in s.origins ==> id in s'.origins && s'.origins[id] == s.origins[id])
    && (forall id :: id in s.origins && id in s'.blobs ==> id in s.blobs && s'.blobs[id] == s.blobs[id])
  }

  lemma StepContinues(c: Crypto, s: State, step: Step)
    ensures Continues(s, Apply(c, s, step))
    ensures forall id :: id in s.blobs && step != DoDelete(id, true) ==> id in Apply(c, s, step).blobs
  {
    hide RotateLoop, EncryptEnvelope, ShouldRotate;
  }

  lemma {:induction false} RunContinues(c: Crypto, s: State, steps: seq<Step>)
    ensures Continues(s, Run(c, s, steps))
    ensures forall id :: id in s.blobs && DoDelete(id, true) !in steps ==> id in Run(c, s, steps).blobs
    decreases |steps|
  {
    if steps != [] {
      hide Apply;
      StepContinues(c, s, steps[0]);
      RunContinues(c, Apply(c, s, steps[0]), steps[1..]);
    }
  }

  lemma {:induction false} RunKeepsRecord(c: Crypto, s: State, steps: seq<Step>, id: RecordId)
    requires Lawful(c) && Authenticated(c) && KeysKnown(s) && RecordOk(c, s, id)
    ensures KeysKnown(Run(c, s, steps)) && RecordOk(c, Run(c, s, steps), id)
    decreases |steps|
  {
    if steps != [] {
      hide Apply, RecordOk, KeysKnown, Lawful, Authenticated;
      StepKeepsKeys(c, s, steps[0]);
      StepKeepsRecord(c, s, steps[0], id);
      RunKeepsRecord(c, Apply(c, s, steps[0]), steps[1..], id);
    }
  }

  /** No rotation loses a record. Over every run, with rotations that are committed, that are not, or that
    fail, a record that opens under the key it names goes on opening, under the key it names by then,
    to its original DEK; its blob is never changed, and while it is active the blob is there and the
    envelope opens to the original plaintext. */
  lemma {:induction false} RecordsSurvive(c: Crypto, s: State, steps: seq<Step>, id: RecordId)
    requires Lawful(c) && Authenticated(c) && KeysKnown(s) && RecordOk(c, s, id)
    ensures var s' := Run(c, s, steps);
      && id in s'.records && s'.records[id].keyId in s'.keys
      && Unseal(c, s'.keys[s'.records[id].keyId], s'.records[id].edek) == Some(s.origins[id].dek)
      && (id in s'.blobs ==> id in s.blobs && s'.blobs[id] == s.blobs[id])
      && (!s'.records[id].deleted ==>
            && id in s'.blobs
            && DecryptEnvelope(c, s'.keys[s'.records[id].keyId], Envelope(s'.records[id].edek, s'.blobs[id]))
            == Some(s.origins[id].plaintext))
  {
    hide Run, Unseal;
    RunKeepsRecord(c, s, steps, id);
    RunContinues(c, s, steps);
  }

  /// Which records open at all

  /** A new record opens under the key it names exactly when the engine's active key is the key that the
    settings name. */
  lemma {:induction false} PutIsOkIff(c: Crypto, s: State, id: RecordId, dek: Bytes, iv: Bytes, nonce: Bytes,
                                      plaintext: Bytes)
    requires Lawful(c) && Authenticated(c) && KeysKnown(s) && id !in s.origins
    ensures RecordOk(c, Put(c, s, id, dek, iv, nonce, plaintext), id)
            <==> s.keys[s.engine.active] == s.keys[s.masterKeyId]
  {
  }

  /** A put that labels its record with a key that does not open it. */
  ghost predicate Mislabels(s: State, step: Step)
    requires KeysKnown(s)
  {
    step.DoPut? && step.id !in s.origins && s.keys[s.engine.active] != s.keys[s.masterKeyId]
  }

  /** Exactly when a step leaves every record opening under the key it names: always, but for such a put. */
  lemma {:induction false} StepKeepsAllIff(c: Crypto, s: State, step: Step)
    requires Lawful(c) && Authenticated(c) && AllOk(c, s)
    ensures AllOk(c, Apply(c, s, step)) <==> !Mislabels(s, step)
  {
    hide RecordOk, KeysKnown, Lawful, Authenticated;
    var s' := Apply(c, s, step);
    StepKeepsKeys(c, s, step);
    forall id | id in s.records ensures RecordOk(c, s', id) {
      StepKeepsRecord(c, s, step, id);
    }
    StepAddsRecords(c, s, step);
    if step.DoPut? && step.id !in s.origins {
      PutIsOkIff(c, s, step.id, step.dek, step.iv, step.nonce, step.plaintext);
    }
  }

  lemma StepAddsRecords(c: Crypto, s: State, step: Step)
    requires KeysKnown(s) && s.records.Keys == s.origins.Keys
    ensures var s' := Apply(c, s, step);
      && s'.records.Keys == s'.origins.Keys
      && s'.records.Keys == s.records.Keys + (if step.DoPut? then {step.id} else {})
  {
    hide RotateLoop, EncryptEnvelope, ShouldRotate;
  }

  ghost predicate NeverMislabels(c: Crypto, s: State, steps: seq<Step>)
    requires KeysKnown(s)
    decreases |steps|
  {
    steps != [] ==>
      && !Mislabels(s, steps[0])
      && (StepKeepsKeys(c, s, steps[0]); NeverMislabels(c, Apply(c, s, steps[0]), steps[1..]))
  }

  ghost predicate AllOkThroughout(c: Crypto, s: State, steps: seq<Step>)
    decreases |steps|
  {
    AllOk(c, s) && (steps != [] ==> AllOkThroughout(c, Apply(c, s, steps[0]), steps[1..]))
  }

  /** In every state of a run every record, deleted ones included, opens under the key it names to its
    original DEK, if and only if every put of the run happens while the engine's active key is the key
    that the settings name. */
  lemma {:induction false} RunKeepsAllIff(c: Crypto, s: State, steps: seq<Step>)
    requires Lawful(c) && Authenticated(c) && AllOk(c, s)
    ensures AllOkThroughout(c, s, steps) <==> NeverMislabels(c, s, steps)
    ensures NeverMislabels(c, s, steps) ==> AllOk(c, Run(c, s, steps))
    decreases |steps|
  {
    if steps != [] {
      hide Apply, RecordOk, Lawful, Authenticated, Mislabels;
      StepKeepsAllIff(c, s, steps[0]);
      if AllOk(c, Apply(c, s, steps[0])) {
        RunKeepsAllIff(c, Apply(c, s, steps[0]), steps[1..]);
      }
    }
  }

  ghost predicate Rotates(c: Crypto, s: State, step: Step) {
    && step.DoRotate? && Possible(s, step)
    && Rotate(c, s, step.order, step.now, step.stamp, step.newKey, step.ivs, step.ending).1.Rotated?
  }

  ghost predicate EverRotates(c: Crypto, s: State, steps: seq<Step>)
    decreases |steps|
  {
    steps != [] && (Rotates(c, s, steps[0]) || EverRotates(c, Apply(c, s, steps[0]), steps[1..]))
  }

  /** A rotation changes the master key id, to a longer one, and no other step does. */
  lemma StepChangesIdIff(c: Crypto, s: State, step: Step)
    ensures var s' := Apply(c, s, step);
      && |s'.masterKeyId| >= |s.masterKeyId|
      && (Rotates(c, s, step) ==> |s'.masterKeyId| > |s.masterKeyId|)
      && (!Rotates(c, s, step) ==> s'.masterKeyId == s.masterKeyId)
  {
    hide RotateLoop, EncryptEnvelope, ShouldRotate;
  }

  lemma {:induction false} RunChangesIdIff(c: Crypto, s: State, steps: seq<Step>)
    ensures |Run(c, s, steps).masterKeyId| >= |s.masterKeyId|
    ensures Run(c, s, steps).masterKeyId == s.masterKeyId <==> !EverRotates(c, s, steps)
    decreases |steps|
  {
    if steps != [] {
      hide Apply, Rotates;
      StepChangesIdIff(c, s, steps[0]);
      RunChangesIdIff(c, Apply(c, s, steps[0]), steps[1..]);
    }
  }

  /** The engine uses the key that the settings name. */
  ghost predicate InStep(s: State) {
    s.engine.active == s.masterKeyId
  }

  /** What puts the engine behind: a rotation that succeeds while the engine is not replaced. */
  lemma StepKeepsInStepIff(c: Crypto, s: State, step: Step)
    requires KeysKnown(s) && InStep(s)
    ensures InStep(Apply(c, s, step)) <==> !(Rotates(c, s, step) && step.ending.ReloadFailed?)
  {
    hide RotateLoop, EncryptEnvelope, ShouldRotate;
  }

  ghost predicate NoReloadFails(steps: seq<Step>) {
    forall i :: 0 <= i < |steps| && steps[i].DoRotate? ==> !steps[i].ending.ReloadFailed?
  }

  lemma NoReloadFailsTail(steps: seq<Step>)
    requires NoReloadFails(steps) && steps != []
    ensures (steps[0].DoRotate? ==> !steps[0].ending.ReloadFailed?) && NoReloadFails(steps[1..])
  {
    assert forall i :: 0 <= i < |steps[1..]| ==> steps[1..][i] == steps[i + 1];
  }

  /** So while the engine is replaced after every rotation, committed or not, no put goes wrong. */
  lemma {:induction false} RunStaysInStep(c: Crypto, s: State, steps: seq<Step>)
    requires KeysKnown(s) && InStep(s) && NoReloadFails(steps)
    ensures KeysKnown(Run(c, s, steps)) && InStep(Run(c, s, steps)) && NeverMislabels(c, s, steps)
    decreases |steps|
  {
    if steps != [] {
      hide Apply, NoReloadFails, Rotates;
      NoReloadFailsTail(steps);
      StepKeepsKeys(c, s, steps[0]);
      StepKeepsInStepIff(c, s, steps[0]);
      RunStaysInStep(c, Apply(c, s, steps[0]), steps[1..]);
    }
  }

  lemma {:induction false} AllRecordsSurvive(c: Crypto, s: State, steps: seq<Step>)
    requires Lawful(c) && Authenticated(c) && AllOk(c, s) && InStep(s) && NoReloadFails(steps)
    ensures AllOk(c, Run(c, s, steps)) && InStep(Run(c, s, steps))
  {
    hide AllOk, Run, NeverMislabels, AllOkThroughout, NoReloadFails;
    AllOkFacts(c, s);
    RunStaysInStep(c, s, steps);
    RunKeepsAllIff(c, s, steps);
  }

  lemma AllOkFacts(c: Crypto, s: State)
    requires AllOk(c, s)
    ensures KeysKnown(s) && forall id :: id in Active(s.records) ==> RecordOk(c, s, id)
  {
  }

  /** A reload that fails after a rotation: the next record is labelled with a key that does not open it and
    that the engine does not know, so that it cannot be read; after an unlock records are put right
    again. */
  lemma {:induction false} FailedReloadMislabels(c: Crypto, s: State, order: seq<RecordId>, now: Time, stamp: string,
                                                 newKey: Bytes, ivs: RecordId -> Bytes, id: RecordId, dek: Bytes,
                                                 iv: Bytes, nonce: Bytes, plaintext: Bytes)
    requires Lawful(c) && Authenticated(c) && KeysKnown(s) && InStep(s) && Enumerates(order, Active(s.records))
    requires Rotate(c, s, order, now, stamp, newKey, ivs, ReloadFailed).1.Rotated?
    requires id !in s.origins && newKey != s.keys[s.masterKeyId]
    ensures var s1 := Rotate(c, s, order, now, stamp, newKey, ivs, ReloadFailed).0;
      && !RecordOk(c, Put(c, s1, id, dek, iv, nonce, plaintext), id)
      && Get(c, Put(c, s1, id, dek, iv, nonce, plaintext), id) == KeyUnavailable
      && RecordOk(c, Put(c, Unlock(s1), id, dek, iv, nonce, plaintext), id)
  {
    hide RotateLoop, ShouldRotate, Lawful, Authenticated, RecordOk;
    var s1 := Rotate(c, s, order, now, stamp, newKey, ivs, ReloadFailed).0;
    PutIsOkIff(c, s1, id, dek, iv, nonce, plaintext);
    PutIsOkIff(c, Unlock(s1), id, dek, iv, nonce, plaintext);
  }

  /// When a rotation gets through

  /** When a rotation is due. */
  lemma DueIff(s: Scheduler, now: Time)
    ensures ShouldRotate(s, now) <==>
            s.autoRotate && s.lastRotation.Some? && s.lastRotation.value + s.intervalHours * 3600 <= now
  {
  }

  /** The record names the current key, or another id with an equal key. */
  predicate NamesCurrent(s: State, id: RecordId) {
    && id in s.records && s.records[id].keyId in s.keys && s.masterKeyId in s.keys
    && s.keys[s.records[id].keyId] == s.keys[s.masterKeyId]
  }

  lemma OpensIffNamesCurrent(c: Crypto, s: State, id: RecordId)
    requires Authenticated(c) && s.masterKeyId in s.keys && RecordOk(c, s, id)
    ensures Unseal(c, s.keys[s.masterKeyId], s.records[id].edek).Some? <==> NamesCurrent(s, id)
  {
    hide BlobOk;
    if s.keys[s.records[id].keyId] != s.keys[s.masterKeyId] {
      WrongKey(c, s.records[id], s.keys, s.keys[s.masterKeyId], s.origins[id]);
    }
  }

  /** Every outcome of a rotation in terms that can be looked up before it: once it is due and its key id
    is free, it succeeds, and counts the active records, if and only if each of them names a key equal
    to the current one. */
  lemma {:induction false} RotationOutcomeIff(c: Crypto, s: State, order: seq<RecordId>, now: Time, stamp: string,
                                              newKey: Bytes, ivs: RecordId -> Bytes, ending: Ending)
    requires Lawful(c) && Authenticated(c) && KeysKnown(s) && Enumerates(order, Active(s.records))
    requires forall id :: id in Active(s.records) ==> RecordOk(c, s, id)
    ensures var newId := NewKeyId(s.masterKeyId, stamp);
      Rotate(c, s, order, now, stamp, newKey, ivs, ending).1 ==
      if !s.scheduler.autoRotate || s.scheduler.lastRotation.None?
         || now < s.scheduler.lastRotation.value + s.scheduler.intervalHours * 3600 then NotDue
      else if newId in s.keys then KeyExists
      else if forall id :: id in Active(s.records) ==> NamesCurrent(s, id)
      then Rotated(|Active(s.records)|, newId)
      else UnwrapFailed
  {
    DueIff(s.scheduler, now);
    hide RotateLoop, Unseal, RecordOk, NamesCurrent, Lawful, Authenticated, ShouldRotate, Rewrap;
    RotateAllIff(c, s.records, order, s.keys[s.masterKeyId], newKey, NewKeyId(s.masterKeyId, stamp), ivs);
    EnumerationLength(order, Active(s.records));
    forall id | id in Active(s.records)
      ensures Unseal(c, s.keys[s.masterKeyId], s.records[id].edek).Some? <==> NamesCurrent(s, id)
    {
      OpensIffNamesCurrent(c, s, id);
    }
  }

  /** A rotation that is not committed leaves the records under the old key while settings and state file
    name the new one: the next that is due fails to unwrap unless there are no active records. */
  lemma {:induction false} UncommittedRotationBlocksTheNext(c: Crypto, s: State, order: seq<RecordId>, now: Time,
          stamp: string, newKey: Bytes, ivs: RecordId -> Bytes, ending: Ending, now': Time, stamp': string,
          newKey': Bytes, ivs': RecordId -> Bytes, ending': Ending)
    requires Lawful(c) && Authenticated(c) && AllOk(c, s) && Enumerates(order, Active(s.records))
    requires Rotate(c, s, order, now, stamp, newKey, ivs, ending).1.Rotated? && !ending.Committed?
    requires newKey !in s.keys.Values
    ensures var s1 := Rotate(c, s, order, now, stamp, newKey, ivs, ending).0;
      var outcome := Rotate(c, s1, order, now', stamp', newKey', ivs', ending').1;
      && s1.records == s.records
      && (ShouldRotate(s1.scheduler, now') && NewKeyId(s1.masterKeyId, stamp') !in s1.keys ==>
            outcome == if Active(s.records) == {} then Rotated(0, NewKeyId(s1.masterKeyId, stamp')) else UnwrapFailed)
  {
    hide RotateLoop, Unseal, BlobOk, Unwraps, Lawful, Authenticated, ShouldRotate, RecordOk;
    var step := DoRotate(order, now, stamp, newKey, ivs, ending);
    var s1 := Rotate(c, s, order, now, stamp, newKey, ivs, ending).0;
    assert s1 == Apply(c, s, step);
    StepKeepsKeys(c, s, step);
    forall id | id in Active(s1.records) ensures RecordOk(c, s1, id) && !NamesCurrent(s1, id) {
      StepKeepsRecord(c, s, step, id);
      NamesStoredKey(c, s, id);
      assert s.keys[s.records[id].keyId] in s.keys.Values;
    }
    RotationOutcomeIff(c, s1, order, now', stamp', newKey', ivs', ending');
    if Active(s.records) != {} {
      var id :| id in Active(s1.records);
    }
  }

  lemma NamesStoredKey(c: Crypto, s: State, id: RecordId)
    requires RecordOk(c, s, id)
    ensures id in s.records && s.records[id].keyId in s.keys
  {
  }

  /** And it blocks them for good: while a record that names another key is not deleted, no rotation of any
    run succeeds. */
  lemma {:induction false} BlockedForGood(c: Crypto, s: State, steps: seq<Step>, id: RecordId)
    requires Lawful(c) && Authenticated(c) && KeysKnown(s) && RecordOk(c, s, id) && id in Active(s.records)
    requires !NamesCurrent(s, id)
    requires forall i :: 0 <= i < |steps| && steps[i].DoDelete? ==> steps[i].id != id
    ensures !EverRotates(c, s, steps) && Run(c, s, steps).masterKeyId == s.masterKeyId
    decreases |steps|
  {
    hide Apply, RecordOk, Lawful, Authenticated, Rotates;
    if steps != [] {
      var s' := Apply(c, s, steps[0]);
      StepKeepsKeys(c, s, steps[0]);
      StepKeepsRecord(c, s, steps[0], id);
      BlockedStep(c, s, steps[0], id);
      StepChangesIdIff(c, s, steps[0]);
      NamesStoredKey(c, s, id);
      assert forall i :: 0 <= i < |steps[1..]| ==> steps[1..][i] == steps[i + 1];
      BlockedForGood(c, s', steps[1..], id);
    }
  }

  lemma BlockedStep(c: Crypto, s: State, step: Step, id: RecordId)
    requires Lawful(c) && Authenticated(c) && KeysKnown(s) && RecordOk(c, s, id) && id in Active(s.records)
    requires !NamesCurrent(s, id) && (step.DoDelete? ==> step.id != id)
    ensures !Rotates(c, s, step)
    ensures var s' := Apply(c, s, step);
      id in s'.records && s'.records[id] == s.records[id]
  {
    hide RotateLoop, Unseal, EncryptEnvelope, ShouldRotate, Lawful, Rewrap;
    if step.DoRotate? && Possible(s, step) {
      RotateAllIff(c, s.records, step.order, s.keys[s.masterKeyId], step.newKey, NewKeyId(s.masterKeyId, step.stamp),
                   step.ivs);
      OpensIffNamesCurrent(c, s, id);
    }
  }

  /// While every rotation is committed

  ghost predicate RecordsOk(c: Crypto, s: State) {
    && s.records.Keys == s.origins.Keys
    && (forall id :: id in s.records ==>
          && Unwraps(c, s.records[id], s.keys, s.origins[id])
          && (!s.records[id].deleted ==> s.records[id].keyId == s.masterKeyId && id in s.blobs))
    && (forall id :: id in s.blobs ==> id in s.records && BlobOk(c, s.blobs[id], s.records[id], s.origins[id]))
  }

  /** Settings, scheduler and engine agree on the current key. */
  ghost predicate KeysAgree(s: State) {
    && s.masterKeyId in s.keys
    && s.scheduler.currentKeyId == Some(s.masterKeyId)
    && s.engine.active == s.masterKeyId
    && s.masterKeyId in s.engine.versions
    && (forall k :: k in s.engine.versions ==> k in s.keys && s.engine.versions[k] == s.keys[k])
  }

  ghost predicate Inv(c: Crypto, s: State) {
    RecordsOk(c, s) && KeysAgree(s)
  }

  /** A good state is one in which all records open and the engine is in step. */
  lemma InvMeansAllOk(c: Crypto, s: State)
    requires Inv(c, s)
    ensures AllOk(c, s) && InStep(s)
  {
    hide Unwraps, BlobOk;
  }

  /** In a good state the loop does its work on the list that the query returned. */
  lemma {:induction false} RotateAllWorks(c: Crypto, s: State, order: seq<RecordId>, newKey: Bytes, newId: KeyId,
                                          ivs: RecordId -> Bytes)
    requires Inv(c, s) && Enumerates(order, Active(s.records))
    ensures var r := RotateLoop(c, s.records, order, |order|, s.keys[s.masterKeyId], newKey, newId, ivs);
      && r.Some? && r.value.Keys == s.records.Keys
      && (forall id :: id in s.records ==>
            id in s.origins &&
            r.value[id] == (if s.records[id].deleted then s.records[id]
                            else Rewrap(c, s.records[id], newKey, newId, ivs(id), s.origins[id].dek)))
  {
    hide BlobOk, Unseal, Rewrap, RotateLoop;
    RotateAllIff(c, s.records, order, s.keys[s.masterKeyId], newKey, newId, ivs);
    forall id | id in Active(s.records)
      ensures Unseal(c, s.keys[s.masterKeyId], s.records[id].edek) == Some(s.origins[id].dek)
    {
      assert Unwraps(c, s.records[id], s.keys, s.origins[id]);
    }
  }

  /** A rotation in a good state: it is refused when not due or when its key id is taken, and
    otherwise it succeeds and counts every active record. It never fails to find or open a key. */
  lemma {:induction false} RotateOutcome(c: Crypto, s: State, order: seq<RecordId>, now: Time, stamp: string,
                                         newKey: Bytes, ivs: RecordId -> Bytes, ending: Ending)
    requires Inv(c, s) && Enumerates(order, Active(s.records))
    ensures var newId := NewKeyId(s.masterKeyId, stamp);
      Rotate(c, s, order, now, stamp, newKey, ivs, ending).1 ==
      if !s.scheduler.autoRotate || s.scheduler.lastRotation.None?
         || now < s.scheduler.lastRotation.value + s.scheduler.intervalHours * 3600 then NotDue
      else if newId in s.keys then KeyExists
      else Rotated(|Active(s.records)|, newId)
  {
    DueIff(s.scheduler, now);
    hide RotateLoop, RecordsOk, Rewrap;
    RotateAllWorks(c, s, order, newKey, NewKeyId(s.masterKeyId, stamp), ivs);
    EnumerationLength(order, Active(s.records));
  }

  lemma {:induction false} RotateKeepsInv(c: Crypto, s: State, order: seq<RecordId>, now: Time, stamp: string,
                                          newKey: Bytes, ivs: RecordId -> Bytes)
    requires Lawful(c) && Inv(c, s) && Enumerates(order, Active(s.records))
    ensures Inv(c, Rotate(c, s, order, now, stamp, newKey, ivs, Committed).0)
    ensures Rotate(c, s, order, now, stamp, newKey, ivs, Committed).0.blobs == s.blobs
  {
    hide RotateLoop, Unseal, BlobOk, Lawful;
    var newId := NewKeyId(s.masterKeyId, stamp);
    RotateAllWorks(c, s, order, newKey, newId, ivs);
    var (s', outcome) := Rotate(c, s, order, now, stamp, newKey, ivs, Committed);
    if outcome.Rotated? {
      forall id | id in s'.records
        ensures Unwraps(c, s'.records[id], s'.keys, s'.origins[id])
        ensures !s'.records[id].deleted ==> s'.records[id].keyId == newId && id in s'.blobs
      {
        RewrapUnwraps(c, s.records[id], s.keys, newKey, newId, ivs(id), s.origins[id]);
      }
      forall id | id in s'.blobs ensures BlobOk(c, s'.blobs[id], s'.records[id], s'.origins[id]) {
        BlobIgnoresKeys(c, s.blobs[id], s.records[id], s'.records[id], s.origins[id]);
      }
    }
  }

  lemma PutKeepsInv(c: Crypto, s: State, id: RecordId, dek: Bytes, iv: Bytes, nonce: Bytes, plaintext: Bytes)
    requires Lawful(c) && Inv(c, s)
    ensures Inv(c, Put(c, s, id, dek, iv, nonce, plaintext))
  {
  }

  lemma DeleteKeepsInv(c: Crypto, s: State, id: RecordId, secure: bool)
    requires Inv(c, s)
    ensures Inv(c, Delete(s, id, secure))
  {
    hide Unwraps, BlobOk;
    if id in s.records {
      DeletedUnwraps(c, s.records[id], s.keys, s.origins[id]);
      if id in s.blobs {
        BlobIgnoresKeys(c, s.blobs[id], s.records[id], s.records[id].(deleted := true), s.origins[id]);
      }
    }
  }

  lemma {:induction false} StepKeepsInv(c: Crypto, s: State, step: Step)
    requires Lawful(c) && Inv(c, s) && (step.DoRotate? ==> step.ending.Committed?)
    ensures Inv(c, Apply(c, s, step))
  {
    hide Rotate, Put, Delete, Lawful, Unwraps, BlobOk;
    if Possible(s, step) {
      match step
      case DoPut(id, dek, iv, nonce, plaintext) =>
        PutKeepsInv(c, s, id, dek, iv, nonce, plaintext);
      case DoDelete(id, secure) =>
        DeleteKeepsInv(c, s, id, secure);
      case DoRotate(order, now, stamp, newKey, ivs, ending) =>
        RotateKeepsInv(c, s, order, now, stamp, newKey, ivs);
      case _ =>
    }
  }

  ghost predicate AllCommitted(steps: seq<Step>) {
    forall i :: 0 <= i < |steps| && steps[i].DoRotate? ==> steps[i].ending.Committed?
  }

  /** After any puts, deletes, unlocks, settings and committed rotations: every active record is
    wrapped under the current key, and every record, deleted ones included, unwraps under the key
    that it names to its original DEK. */
  lemma {:induction false} RunKeepsInv(c: Crypto, s: State, steps: seq<Step>)
    requires Lawful(c) && Inv(c, s) && AllCommitted(steps)
    ensures Inv(c, Run(c, s, steps))
    decreases |steps|
  {
    hide Inv, Apply, Lawful;
    if steps != [] {
      StepKeepsInv(c, s, steps[0]);
      assert forall i :: 0 <= i < |steps[1..]| ==> steps[1..][i] == steps[i + 1];
      RunKeepsInv(c, Apply(c, s, steps[0]), steps[1..]);
    }
  }

  /** After a rotation the next one is not due until the interval, in hours, has passed, and then it
    is, unless automatic rotation is switched off. */
  lemma {:induction false} RotationsAreSpaced(c: Crypto, s: State, order: seq<RecordId>, now: Time, stamp: string,
                                              newKey: Bytes, ivs: RecordId -> Bytes, order': seq<RecordId>, now': Time,
                                              stamp': string, newKey': Bytes, ivs': RecordId -> Bytes)
    requires Inv(c, s) && Lawful(c) && Enumerates(order, Active(s.records))
    requires Rotate(c, s, order, now, stamp, newKey, ivs, Committed).1.Rotated?
    requires Enumerates(order', Active(s.records))
    ensures var s1 := Rotate(c, s, order, now, stamp, newKey, ivs, Committed).0;
      && Active(s1.records) == Active(s.records)
      && (Rotate(c, s1, order', now', stamp', newKey', ivs', Committed).1 == NotDue
          <==> now' < now + s.scheduler.intervalHours * 3600)
  {
    hide RotateLoop, RecordsOk, Rewrap, Lawful;
    RotateAllWorks(c, s, order, newKey, NewKeyId(s.masterKeyId, stamp), ivs);
    var s1 := Rotate(c, s, order, now, stamp, newKey, ivs, Committed).0;
    assert Active(s1.records) == Active(s.records) by {
      RewrapKeepsDeleted(c);
    }
  }

  lemma RewrapKeepsDeleted(c: Crypto)
    ensures forall r, newKey, newId, iv, dek :: Rewrap(c, r, newKey, newId, iv, dek).deleted == r.deleted
  {
  }

  /// Reading

  /** Every rotation of the run draws a key that is not stored yet. */
  ghost predicate NewKeysFresh(c: Crypto, s: State, steps: seq<Step>)
    decreases |steps|
  {
    steps != [] ==>
      && (steps[0].DoRotate? ==> steps[0].newKey !in s.keys.Values)
      && NewKeysFresh(c, Apply(c, s, steps[0]), steps[1..])
  }

  /** What is followed from the put of a record on: the key under which it was put is still stored under
    its id, the keys that engine and settings use are that one or, under a longer id, different ones,
    and until the engine or the settings have moved on the record names that id. */
  ghost predicate Follows(s: State, id: RecordId, keyId: KeyId, key: Bytes) {
    && KeysKnown(s) && keyId in s.keys && s.keys[keyId] == key
    && MovedFrom(s.keys, s.engine.active, keyId, key)
    && MovedFrom(s.keys, s.masterKeyId, keyId, key)
    && id in s.records && id in s.origins
    && (s.engine.active == keyId || s.masterKeyId == keyId ==> s.records[id].keyId == keyId)
  }

  ghost predicate MovedFrom(keys: map<KeyId, Bytes>, current: KeyId, keyId: KeyId, key: Bytes) {
    current in keys && (current == keyId || (|current| > |keyId| && keys[current] != key))
  }

  lemma StepFollows(c: Crypto, s: State, step: Step, id: RecordId, keyId: KeyId, key: Bytes)
    requires Follows(s, id, keyId, key) && (step.DoRotate? ==> step.newKey !in s.keys.Values)
    ensures Follows(Apply(c, s, step), id, keyId, key)
  {
    hide RotateLoop, EncryptEnvelope, ShouldRotate;
    assert key in s.keys.Values;
    if step.DoRotate? && Possible(s, step) {
      RotateAllIff(c, s.records, step.order, s.keys[s.masterKeyId], step.newKey, NewKeyId(s.masterKeyId, step.stamp),
                   step.ivs);
    }
  }

  lemma {:induction false} RunFollows(c: Crypto, s: State, steps: seq<Step>, id: RecordId, keyId: KeyId, key: Bytes)
    requires Follows(s, id, keyId, key) && NewKeysFresh(c, s, steps)
    ensures Follows(Run(c, s, steps), id, keyId, key)
    decreases |steps|
  {
    if steps != [] {
      hide Apply, Follows;
      StepFollows(c, s, steps[0], id, keyId, key);
      RunFollows(c, Apply(c, s, steps[0]), steps[1..], id, keyId, key);
    }
  }

  /** Put a record while the engine is in step, and run on, whatever rotations do and however they end, with
    keys that are not drawn twice. While it is active, reading it gives its plaintext if and only if the
    engine's active key id is still the one of the put, and otherwise fails the integrity check. */
  lemma {:induction false} GetSucceedsIffEngineKept(c: Crypto, s: State, id: RecordId, dek: Bytes, iv: Bytes,
                                                    nonce: Bytes, plaintext: Bytes, steps: seq<Step>)
    requires Lawful(c) && Authenticated(c) && KeySeparating(c) && KeysKnown(s) && InStep(s) && id !in s.origins
    requires NewKeysFresh(c, Put(c, s, id, dek, iv, nonce, plaintext), steps)
    requires id in Active(Run(c, Put(c, s, id, dek, iv, nonce, plaintext), steps).records)
    ensures var s' := Run(c, Put(c, s, id, dek, iv, nonce, plaintext), steps);
      Get(c, s', id) == if s'.engine.active == s.masterKeyId then Plain(plaintext) else IntegrityFailed
  {
    var s1 := Put(c, s, id, dek, iv, nonce, plaintext);
    var s', key := Run(c, s1, steps), s.keys[s.masterKeyId];
    PutIsOkIff(c, s, id, dek, iv, nonce, plaintext);
    assert s1.origins[id] == Origin(dek, plaintext, key) && Follows(s1, id, s.masterKeyId, key);
    hide Run, Put, NewKeysFresh, Authenticated, Lawful;
    RunFollows(c, s1, steps, id, s.masterKeyId, key);
    RunKeepsRecord(c, s1, steps, id);
    RunContinues(c, s1, steps);
    assert RecordOk(c, s', id) && s'.origins[id] == Origin(dek, plaintext, key);
    assert BlobOk(c, s'.blobs[id], s'.records[id], s'.origins[id]);
  }

  /** While the engine is replaced after every rotation, committed or not, that is: if and only if no
    rotation of the run has succeeded. */
  lemma {:induction false} GetSucceedsIffNeverRotated(c: Crypto, s: State, id: RecordId, dek: Bytes, iv: Bytes,
                                                      nonce: Bytes, plaintext: Bytes, steps: seq<Step>)
    requires Lawful(c) && Authenticated(c) && KeySeparating(c) && KeysKnown(s) && InStep(s) && id !in s.origins
    requires NoReloadFails(steps) && NewKeysFresh(c, Put(c, s, id, dek, iv, nonce, plaintext), steps)
    requires id in Active(Run(c, Put(c, s, id, dek, iv, nonce, plaintext), steps).records)
    ensures var s' := Run(c, Put(c, s, id, dek, iv, nonce, plaintext), steps);
      Get(c, s', id) == if EverRotates(c, Put(c, s, id, dek, iv, nonce, plaintext), steps) then IntegrityFailed
                        else Plain(plaintext)
  {
    var s1 := Put(c, s, id, dek, iv, nonce, plaintext);
    assert KeysKnown(s1) && InStep(s1) && s1.masterKeyId == s.masterKeyId;
    hide Run, Put, Get, NewKeysFresh, NoReloadFails, EverRotates, Lawful, Authenticated, KeySeparating;
    GetSucceedsIffEngineKept(c, s, id, dek, iv, nonce, plaintext, steps);
    RunStaysInStep(c, s1, steps);
    RunChangesIdIff(c, s1, steps);
  }

  /// What each request does

  /** The key id that a rotation takes as the old one: that of the state file, or else of the settings. */
  function OldKeyId(s: State): KeyId {
    match s.scheduler.currentKeyId
    case Some(id) => id
    case None => s.masterKeyId
  }

  /** Which outcome a rotation has, in any state whatever. */
  lemma {:induction false} RotationOutcomes(c: Crypto, s: State, order: seq<RecordId>, now: Time, stamp: string,
                                            newKey: Bytes, ivs: RecordId -> Bytes, ending: Ending)
    requires Enumerates(order, Active(s.records))
    ensures var outcome := Rotate(c, s, order, now, stamp, newKey, ivs, ending).1;
      var due := s.scheduler.autoRotate && s.scheduler.lastRotation.Some?
                 && s.scheduler.lastRotation.value + s.scheduler.intervalHours * 3600 <= now;
      var newId := s.masterKeyId + "-v" + stamp;
      && (outcome == NotDue <==> !due)
      && (outcome == KeyMissing <==> due && OldKeyId(s) !in s.keys)
      && (outcome == KeyExists <==> due && OldKeyId(s) in s.keys && newId in s.keys)
      && (outcome == UnwrapFailed <==>
            && due && OldKeyId(s) in s.keys && newId !in s.keys
            && exists id :: id in Active(s.records) && Unseal(c, s.keys[OldKeyId(s)], s.records[id].edek).None?)
  {
    hide RotateLoop, Unseal;
    if OldKeyId(s) in s.keys {
      RotateAllIff(c, s.records, order, s.keys[OldKeyId(s)], newKey, NewKeyId(s.masterKeyId, stamp), ivs);
    }
  }

  /** What a rotation changes, for every ending. One that is not due, finds no key or finds its key id taken
    changes nothing; one that fails to unwrap leaves only the new key behind; one that succeeds names the
    new key in settings and state file with the time, and moves the active records, if it is committed,
    and the engine, unless the reload failed. Deleted records, blobs and settings otherwise stay. */
  lemma {:induction false} RotationEffect(c: Crypto, s: State, order: seq<RecordId>, now: Time, stamp: string,
                                          newKey: Bytes, ivs: RecordId -> Bytes, ending: Ending)
    requires Enumerates(order, Active(s.records))
    ensures var (s', outcome) := Rotate(c, s, order, now, stamp, newKey, ivs, ending);
      var newId := s.masterKeyId + "-v" + stamp;
      match outcome
      case NotDue => s' == s
      case KeyMissing => s' == s
      case KeyExists => s' == s && newId in s.keys
      case UnwrapFailed => newId !in s.keys && s' == s.(keys := s.keys[newId := newKey])
      case Rotated(count, id) =>
        && id == newId && newId !in s.keys && OldKeyId(s) in s.keys && count == |Active(s.records)|
        && s'.keys == s.keys[newId := newKey] && s'.masterKeyId == newId
        && s'.scheduler == s.scheduler.(lastRotation := Some(now), currentKeyId := Some(newId))
        && s'.engine == (if ending == ReloadFailed then s.engine else Engine(newId, s.keys[newId := newKey]))
        && s'.blobs == s.blobs && s'.origins == s.origins && s'.records.Keys == s.records.Keys
        && (ending != Committed ==> s'.records == s.records)
        && forall r :: r in s.records ==>
             if s.records[r].deleted || ending != Committed then s'.records[r] == s.records[r]
             else
               var dek := Unseal(c, s.keys[OldKeyId(s)], s.records[r].edek);
               && dek.Some?
               && s'.records[r] ==
                  s.records[r].(edek := Sealed(c.encrypt(newKey, ivs(r), dek.value), ivs(r)), keyId := newId)
  {
    hide RotateLoop, Unseal, ShouldRotate;
    if OldKeyId(s) in s.keys {
      RotateAllIff(c, s.records, order, s.keys[OldKeyId(s)], newKey, NewKeyId(s.masterKeyId, stamp), ivs);
    }
    EnumerationLength(order, Active(s.records));
  }

  /** A put under a new id stores the wrapped key, the data and the token, all under the engine's active key,
    and labels the record with the key id of the settings; all else stays. */
  lemma PutEffect(c: Crypto, s: State, id: RecordId, dek: Bytes, iv: Bytes, nonce: Bytes, plaintext: Bytes)
    requires KeysKnown(s)
    ensures var s' := Put(c, s, id, dek, iv, nonce, plaintext);
      var key := s.keys[s.engine.active];
      if id in s.origins then s' == s
      else
        var data := Sealed(c.encrypt(dek, nonce, plaintext), nonce);
        && s'.records == s.records[id := Record(false, s.masterKeyId, Sealed(c.encrypt(key, iv, dek), iv),
                                                c.mac(key, data))]
        && s'.blobs == s.blobs[id := data]
        && s' == s.(records := s'.records, blobs := s'.blobs, origins := s'.origins)
  {
  }

  /** A delete marks the record and keeps its key, and a secure one removes the blob; either way the record
    can no longer be read. */
  lemma DeleteEffect(c: Crypto, s: State, id: RecordId, secure: bool)
    ensures var s' := Apply(c, s, DoDelete(id, secure));
      if id !in s.records then s' == s
      else
        && s'.records == s.records[id := s.records[id].(deleted := true)]
        && s'.blobs == (if secure then s.blobs - {id} else s.blobs)
        && s' == s.(records := s'.records, blobs := s'.blobs)
        && Get(c, s', id) == NotFound
  {
  }

  /** When reading a record is refused, and how, where the engine has its own key. */
  lemma GetRefusals(c: Crypto, s: State, id: RecordId)
    requires KeysKnown(s)
    ensures Get(c, s, id) == NotFound <==> id !in s.records || s.records[id].deleted
    ensures Get(c, s, id) == BlobMissing <==> id in s.records && !s.records[id].deleted && id !in s.blobs
    ensures id in s.records && !s.records[id].deleted && id in s.blobs ==>
              var r := s.records[id];
              var intact := c.mac(s.keys[s.engine.active], s.blobs[id]) == r.token;
              && (Get(c, s, id) == IntegrityFailed <==> !intact)
              && (Get(c, s, id) == KeyUnavailable <==> intact && r.keyId !in s.engine.versions)
              && (Get(c, s, id) == DecryptFailed <==>
                    && intact && r.keyId in s.engine.versions
                    && forall dek :: Unseal(c, s.engine.versions[r.keyId], r.edek) == Some(dek) ==>
                         Unseal(c, dek, s.blobs[id]) == None)
  {
    hide Unseal;
  }

  /** An unlock gives the engine the key that the settings name and no other, and changes nothing else. */
  lemma UnlockEffect(c: Crypto, s: State)
    requires KeysKnown(s)
    ensures Apply(c, s, DoUnlock) == s.(engine := Engine(s.masterKeyId, map[s.masterKeyId := s.keys[s.masterKeyId]]))
  {
  }

  /** Settings that are given are taken over, and the others stay, as does when the last rotation was. */
  lemma ConfigureEffect(c: Crypto, s: State, autoRotate: Option<bool>, intervalHours: Option<int>)
    ensures var s' := Apply(c, s, DoConfigure(autoRotate, intervalHours));
      var before, after := s.scheduler, s'.scheduler;
      && s' == s.(scheduler := after)
      && after.lastRotation == before.lastRotation && after.currentKeyId == before.currentKeyId
      && (autoRotate.Some? ==> after.autoRotate == autoRotate.value)
      && (autoRotate.None? ==> after.autoRotate == before.autoRotate)
      && (intervalHours.Some? ==> after.intervalHours == intervalHours.value)
      && (intervalHours.None? ==> after.intervalHours == before.intervalHours)
  {
  }

  /// Where rotations come from

  /** While automatic rotation is switched off, nothing rotates: no run that does not switch it on changes the
    master key id or the stored keys. */
  lemma {:induction false} SwitchedOffNeverRotates(c: Crypto, s: State, steps: seq<Step>)
    requires !s.scheduler.autoRotate
    requires forall i :: 0 <= i < |steps| && steps[i].DoConfigure? ==> steps[i].autoRotate != Some(true)
    ensures var s' := Run(c, s, steps);
      && !s'.scheduler.autoRotate && !EverRotates(c, s, steps)
      && s'.masterKeyId == s.masterKeyId && s'.keys == s.keys
    decreases |steps|
  {
    if steps != [] {
      SwitchedOffStep(c, s, steps[0]);
      hide Apply, Rotates;
      assert forall i :: 0 <= i < |steps[1..]| ==> steps[1..][i] == steps[i + 1];
      SwitchedOffNeverRotates(c, Apply(c, s, steps[0]), steps[1..]);
    }
  }

  lemma SwitchedOffStep(c: Crypto, s: State, step: Step)
    requires !s.scheduler.autoRotate && (step.DoConfigure? ==> step.autoRotate != Some(true))
    ensures var s' := Apply(c, s, step);
      && !s'.scheduler.autoRotate && !Rotates(c, s, step)
      && s'.masterKeyId == s.masterKeyId && s'.keys == s.keys
  {
    hide RotateLoop, EncryptEnvelope;
  }

  /** A state file that never recorded a rotation. */
  ghost predicate NeverRotated(s: State) {
    s.scheduler.lastRotation.None?
  }

  /** Rotations follow only rotations: from a fresh state file, whose last rotation is empty, no run
    ever rotates. Every attempt reports that it is not due, whatever the settings and however much
    time has passed, and the master key id and the stored keys stay what they were. */
  lemma {:induction false} FreshSchedulerNeverRotates(c: Crypto, s: State, steps: seq<Step>)
    requires NeverRotated(s)
    ensures var s' := Run(c, s, steps);
      && NeverRotated(s') && s'.masterKeyId == s.masterKeyId && s'.keys == s.keys
      && (forall now :: !ShouldRotate(s'.scheduler, now))
    decreases |steps|
  {
    hide RotateLoop, EncryptEnvelope;
    if steps != [] {
      FreshSchedulerNeverRotates(c, Apply(c, s, steps[0]), steps[1..]);
    }
  }

  /** The key store's rotate_master_key promises to re-encrypt the master key under a new passphrase;
    the code stores a new key under the old id. */
  function RotatePassphrase(s: State, key: Bytes): State {
    if s.masterKeyId !in s.keys then s else s.(keys := s.keys[s.masterKeyId := key])
  }

  /** After it with any other key, all records still open under the keys they name, deleted ones included,
    if and only if no record names the master key. */
  lemma {:induction false} PassphraseRotationKeepsRecordsIff(c: Crypto, s: State, key: Bytes)
    requires Lawful(c) && Authenticated(c) && AllOk(c, s) && key != s.keys[s.masterKeyId]
    ensures var s' := RotatePassphrase(s, key);
      (forall id :: id in s'.records ==> Unwraps(c, s'.records[id], s'.keys, s'.origins[id]))
      <==> (forall id :: id in s.records ==> s.records[id].keyId != s.masterKeyId)
  {
    hide BlobOk, Unwraps, Lawful, Authenticated;
    forall id | id in s.records
      ensures Unwraps(c, s.records[id], RotatePassphrase(s, key).keys, s.origins[id])
              <==> s.records[id].keyId != s.masterKeyId
    {
      assert RecordOk(c, s, id);
      OtherKeyUnwrapsIff(c, s.records[id], s.keys, s.masterKeyId, key, s.origins[id]);
    }
  }

  lemma OtherKeyUnwrapsIff(c: Crypto, record: Record, keys: map<KeyId, Bytes>, keyId: KeyId, key: Bytes, origin: Origin)
    requires Authenticated(c) && Unwraps(c, record, keys, origin) && keyId in keys && key != keys[keyId]
    ensures Unwraps(c, record, keys[keyId := key], origin) <==> record.keyId != keyId
  {
    if record.keyId == keyId {
      WrongKey(c, record, keys, key, origin);
    }
  }
}
