/** Key rotation as the source runs it: the loop over the records, the scheduled rotation, and the
  route that rebuilds the engine. Each method is proved against module Rotation.
 */
module RotationService {
  import opened Rotation
  import opened RotationRuns

  class KeyService {
    const crypto: Crypto
    var records: map<RecordId, Record>
    var blobs: map<RecordId, Sealed>
    var keys: map<KeyId, Bytes>
    var masterKeyId: KeyId
    var scheduler: Scheduler
    var engine: Engine
    ghost var origins: map<RecordId, Origin>

    ghost function Value(): State
      reads this
    {
      State(records, blobs, keys, masterKeyId, scheduler, engine, origins)
    }

    constructor (crypto: Crypto, masterKeyId: KeyId, key: Bytes, scheduler: Scheduler)
      ensures this.crypto == crypto
      ensures Value() == State(map[], map[], map[masterKeyId := key], masterKeyId, scheduler,
                               Engine(masterKeyId, map[masterKeyId := key]), map[])
      ensures scheduler.currentKeyId == Some(masterKeyId) ==>
                Inv(crypto, Value()) && AllOk(crypto, Value()) && InStep(Value())
    {
      this.crypto, this.masterKeyId, this.scheduler := crypto, masterKeyId, scheduler;
      records, blobs, origins := map[], map[], map[];
      keys, engine := map[masterKeyId := key], Engine(masterKeyId, map[masterKeyId := key]);
      new;
      if scheduler.currentKeyId == Some(masterKeyId) {
        InvMeansAllOk(crypto, Value());
      }
    }

    /** Re-wrap the listed records. False stands for the exception of a failed unwrap, after which
      the records before the failing one are re-wrapped, and the state file is untouched. */
    method RotateAllRecords(order: seq<RecordId>, oldKey: Bytes, newKey: Bytes, newId: KeyId, ivs: RecordId -> Bytes,
                            now: Time) returns (ok: bool, rotated: nat)
      requires forall id :: id in order ==> id in records
      modifies this`records, this`scheduler
      ensures var r := RotateLoop(crypto, old(records), order, |order|, oldKey, newKey, newId, ivs);
        && ok == r.Some?
        && (ok ==> records == r.value && rotated == |order|
                   && scheduler == old(scheduler).(lastRotation := Some(now), currentKeyId := Some(newId)))
        && (!ok ==> scheduler == old(scheduler))
      ensures !ok ==> rotated < |order|
                      && RotateLoop(crypto, old(records), order, rotated, oldKey, newKey, newId, ivs) == Some(records)
    {
      rotated := 0;
      for i := 0 to |order|
        invariant rotated == i && scheduler == old(scheduler)
        invariant RotateLoop(crypto, old(records), order, i, oldKey, newKey, newId, ivs) == Some(records)
      {
        var id := order[i];
        assert id in order;
        var edek := RotateDek(crypto, records[id].edek, oldKey, newKey, ivs(id));
        if edek.None? {
          FailureStays(crypto, old(records), order, i + 1, |order|, oldKey, newKey, newId, ivs);
          return false, rotated;
        }
        records := records[id := records[id].(edek := edek.value, keyId := newId)];
        rotated := rotated + 1;
      }
      scheduler := scheduler.(lastRotation := Some(now), currentKeyId := Some(newId));
      ok := true;
    }

    /** The rotate route. */
    method RotateMasterKey(order: seq<RecordId>, now: Time, stamp: string, newKey: Bytes, ivs: RecordId -> Bytes,
                           ending: Ending) returns (outcome: Outcome)
      requires forall id :: id in order ==> id in records
      modifies this
      ensures (Value(), outcome) == Rotate(crypto, old(Value()), order, now, stamp, newKey, ivs, ending)
    {
      if !ShouldRotate(scheduler, now) {
        return NotDue;
      }
      var oldId := if scheduler.currentKeyId.Some? then scheduler.currentKeyId.value else masterKeyId;
      if oldId !in keys {
        return KeyMissing;
      }
      var oldKey := keys[oldId];
      var newId := NewKeyId(masterKeyId, stamp);
      if newId in keys {
        return KeyExists;
      }
      keys := keys[newId := newKey];
      var saved := records;
      var ok, rotated := RotateAllRecords(order, oldKey, newKey, newId, ivs, now);
      if !ok {
        records := saved;
        return UnwrapFailed;
      }
      masterKeyId := newId;
      var versions: map<KeyId, Bytes> := map[];
      var rest := keys.Keys;
      while rest != {}
        invariant rest <= keys.Keys && versions.Keys == keys.Keys - rest
        invariant forall k :: k in versions ==> versions[k] == keys[k]
        invariant Value() == State(records, old(blobs), old(keys)[newId := newKey], newId, scheduler, old(engine),
                                   old(origins))
        invariant RotateLoop(crypto, old(records), order, |order|, oldKey, newKey, newId, ivs) == Some(records)
        invariant scheduler == old(scheduler).(lastRotation := Some(now), currentKeyId := Some(newId))
        decreases rest
      {
        var k :| k in rest;
        versions := versions[k := keys[k]];
        rest := rest - {k};
      }
      assert versions == keys;
      if !ending.ReloadFailed? {
        engine := Engine(newId, versions);
      }
      if !ending.Committed? {
        records := saved;
      }
      outcome := Rotated(rotated, newId);
    }

    /** Change the settings that are given. */
    method Configure(autoRotate: Option<bool>, intervalHours: Option<int>)
      modifies this`scheduler
      ensures scheduler == Rotation.Configure(old(scheduler), autoRotate, intervalHours)
      ensures autoRotate.Some? ==> scheduler.autoRotate == autoRotate.value
      ensures intervalHours.Some? ==> scheduler.intervalHours == intervalHours.value
    {
      if autoRotate.Some? {
        scheduler := scheduler.(autoRotate := autoRotate.value);
      }
      if intervalHours.Some? {
        scheduler := scheduler.(intervalHours := intervalHours.value);
      }
    }

    /** Store a record; false stands for an engine without its active key. */
    method PutRecord(id: RecordId, dek: Bytes, iv: Bytes, nonce: Bytes, plaintext: Bytes) returns (ok: bool)
      requires id !in origins
      modifies this
      ensures Value() == Put(crypto, old(Value()), id, dek, iv, nonce, plaintext)
      ensures ok <==> old(engine.active in engine.versions)
    {
      if engine.active !in engine.versions {
        return false;
      }
      var key := engine.versions[engine.active];
      var envelope := EncryptEnvelope(crypto, key, dek, iv, nonce, plaintext);
      records := records[id := Record(false, masterKeyId, envelope.edek, crypto.mac(key, envelope.data))];
      blobs := blobs[id := envelope.data];
      origins := origins[id := Origin(dek, plaintext, key)];
      ok := true;
    }
  }

  lemma {:induction false} FailureStays(c: Crypto, records: map<RecordId, Record>, order: seq<RecordId>, m: nat, n: nat,
                                        oldKey: Bytes, newKey: Bytes, newId: KeyId, ivs: RecordId -> Bytes)
    requires m <= n <= |order| && forall id :: id in order ==> id in records
    requires RotateLoop(c, records, order, m, oldKey, newKey, newId, ivs).None?
    ensures RotateLoop(c, records, order, n, oldKey, newKey, newId, ivs).None?
    decreases n - m
  {
    if m < n {
      FailureStays(c, records, order, m, n - 1, oldKey, newKey, newId, ivs);
    }
  }
}
