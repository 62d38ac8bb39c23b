/** Exactly what a sync and a retry make of each row, in terms of what the network did.

  The functions of module Replication compute checksums and acknowledgements; the statements here
  speak only of whether the ciphertext arrived unaltered and the answer came back.
 */
module ReplicationOutcomes {
  import opened Replication
  import opened ReplicationRuns

  /** The primary hears an acknowledgement exactly when the ciphertext arrived as it was sent and the
    answer was not lost. */
  lemma {:induction false} PushHeardIff(standby: Standbys, endpoint: Endpoint, record: RecordId, data: Bytes, net: Net,
                                        config: Config)
    requires Injective(config.checksum)
    ensures Push(standby, endpoint, record, data, net, config).1 <==> net == Delivered(data, true)
  {
  }

  /** What a push leaves on the standbys, whether or not the answer comes back: the ciphertext at the
    endpoint if it arrived as it was sent, and otherwise nothing new. */
  lemma PushEffect(standby: Standbys, endpoint: Endpoint, record: RecordId, data: Bytes, net: Net, config: Config)
    requires Injective(config.checksum)
    ensures var standby' := Push(standby, endpoint, record, data, net, config).0;
      && (forall e :: e != endpoint ==> StoreOf(standby', e) == StoreOf(standby, e))
      && StoreOf(standby', endpoint) ==
         if net.Delivered? && net.arrived == data then StoreOf(standby, endpoint)[record := data]
         else StoreOf(standby, endpoint)
  {
  }

  /** Where a row that was pushed ends up: acked with this retry count, failed with that one, or in the
    dead-letter table when that one reaches the maximum. */
  ghost predicate Landed(db: Db, id: nat, core: Core, acked: nat, failed: nat, net: Net, data: Bytes, retryMax: nat) {
    if net == Delivered(data, true) then Log(id, core, Acked, acked) in db.logs
    else if failed >= retryMax then DeadLetter(id, core) in db.dead
    else Log(id, core, Failed, failed) in db.logs
  }

  /// Sync

  /** In a good state the targets of a sync are the active nodes, each once. */
  lemma {:induction false} ActiveNodesOnce(nodes: seq<Node>)
    requires NodesUnique(nodes)
    ensures NodesUnique(ActiveNodes(nodes))
    ensures forall n :: n in ActiveNodes(nodes) <==> n in nodes && n.status == Active
  {
    if nodes != [] {
      var n := |nodes| - 1;
      assert NodesUnique(nodes[..n]) && forall m :: m in nodes[..n] ==> m.id != nodes[n].id;
      hide NodesUnique;
      ActiveNodesOnce(nodes[..n]);
      UniqueWithOneMore(ActiveNodes(nodes[..n]), nodes[n]);
    }
  }

  lemma UniqueWithOneMore(nodes: seq<Node>, node: Node)
    requires NodesUnique(nodes) && forall m :: m in nodes ==> m.id != node.id
    ensures NodesUnique(nodes + [node])
  {
    assert forall i :: 0 <= i < |nodes| ==> nodes[i] in nodes;
  }

  /** One push of a sync: the id and the core of its row, and what the network does to it. */
  datatype Attempt = Attempt(id: nat, core: Core, net: Net)

  /** The push to the node at position i. */
  function AttemptAt(db: Db, targets: seq<Node>, i: nat, record: RecordId, data: Bytes, snapshot: string, base: nat,
                     net: seq<Net>, config: Config): Attempt
    requires i < |targets|
  {
    Attempt(db.nextId + i, Core(record, targets[i].id, config.checksum(data), snapshot, base + i + 1), NetAt(net, i))
  }

  ghost function FirstRow(a: Attempt, data: Bytes): (row: Log)
    ensures row.id == a.id
  {
    NewLog(a.id, a.core, a.net == Delivered(data, true))
  }

  /** After the first k pushes. */
  ghost predicate Synced(db: Db, db': Db, attempts: seq<Attempt>, data: Bytes) {
    && db'.nextId == db.nextId + |attempts| && db'.dead == db.dead
    && |db'.logs| == |db.logs| + |attempts|
    && (forall id :: id in db'.created <==> id in db.created || db.nextId <= id < db'.nextId)
    && (forall i :: 0 <= i < |attempts| ==>
          && attempts[i].id == db.nextId + i
          && db'.created[db.nextId + i] == attempts[i].core
          && db'.logs[|db.logs| + i] == FirstRow(attempts[i], data))
  }

  lemma SyncedStep(db: Db, db': Db, attempts: seq<Attempt>, a: Attempt, data: Bytes)
    requires Synced(db, db', attempts, data) && a.id == db'.nextId
    ensures Synced(db, Insert(db', FirstRow(a, data)), attempts + [a], data)
  {
  }

  function AttemptsOf(db: Db, targets: seq<Node>, k: nat, record: RecordId, data: Bytes, snapshot: string, base: nat,
                      net: seq<Net>, config: Config): (attempts: seq<Attempt>)
    requires k <= |targets|
    ensures |attempts| == k
    ensures forall i :: 0 <= i < k ==>
              attempts[i] == AttemptAt(db, targets, i, record, data, snapshot, base, net, config)
  {
    seq(k, i requires 0 <= i < k => AttemptAt(db, targets, i, record, data, snapshot, base, net, config))
  }

  lemma {:induction false} SyncLoopRows(db: Db, standby: Standbys, targets: seq<Node>, k: nat, record: RecordId,
                                        data: Bytes, snapshot: string, base: nat, net: seq<Net>, config: Config)
    requires Injective(config.checksum) && k <= |targets|
    ensures Synced(db, SyncLoop(db, standby, targets, k, record, data, snapshot, base, net, config).0,
                   AttemptsOf(db, targets, k, record, data, snapshot, base, net, config), data)
  {
    if k > 0 {
      hide Push, Injective, Synced, Insert, AttemptsOf;
      SyncLoopRows(db, standby, targets, k - 1, record, data, snapshot, base, net, config);
      var (db', standby') := SyncLoop(db, standby, targets, k - 1, record, data, snapshot, base, net, config);
      PushHeardIff(standby', targets[k - 1].endpoint, record, data, NetAt(net, k - 1), config);
      var before := AttemptsOf(db, targets, k - 1, record, data, snapshot, base, net, config);
      var a := AttemptAt(db, targets, k - 1, record, data, snapshot, base, net, config);
      SyncedNextId(db, db', before, data);
      SyncedStep(db, db', before, a, data);
      assert AttemptsOf(db, targets, k, record, data, snapshot, base, net, config) == before + [a];
    }
  }

  lemma SyncedNextId(db: Db, db': Db, attempts: seq<Attempt>, data: Bytes)
    ensures Synced(db, db', attempts, data) ==> db'.nextId == db.nextId + |attempts|
  {
  }

  /** A sync makes one row for each active node and no others, with sequence numbers that continue
    from the highest live one, and each row lands as the network decided. */
  lemma SyncOutcome(db: Db, blobs: map<RecordId, Bytes>, standby: Standbys, record: RecordId, snapshot: string,
                    lookup: Lookup, net: seq<Net>, config: Config)
    requires Injective(config.checksum)
    requires record in blobs && LastNumber(db.logs, lookup).Some?
    ensures var targets := ActiveNodes(db.nodes);
      var outcome := SyncRecord(db, blobs, standby, record, snapshot, lookup, net, config);
      && !outcome.raised
      && (forall id :: id in outcome.db.created <==> id in db.created || db.nextId <= id < db.nextId + |targets|)
      && (forall i :: 0 <= i < |targets| ==>
            var a := AttemptAt(db, targets, i, record, blobs[record], snapshot, MaxNumber(db.logs), net, config);
            && outcome.db.created[a.id] == a.core
            && Landed(outcome.db, a.id, a.core, 0, 1, a.net, blobs[record], config.retryMax))
  {
    hide SyncLoop, Injective, AttemptAt, ProcessDeadLetter, Landed, FirstRow, MaxNumber, NewIds;
    var targets, data, base := ActiveNodes(db.nodes), blobs[record], MaxNumber(db.logs);
    if targets != [] {
      SyncLoopRows(db, standby, targets, |targets|, record, data, snapshot, base, net, config);
      var db' := SyncLoop(db, standby, targets, |targets|, record, data, snapshot, base, net, config).0;
      var attempts := AttemptsOf(db, targets, |targets|, record, data, snapshot, base, net, config);
      forall i | 0 <= i < |targets|
        ensures attempts[i] == AttemptAt(db, targets, i, record, data, snapshot, base, net, config)
        ensures db'.created[attempts[i].id] == attempts[i].core
        ensures Landed(ProcessDeadLetter(db', NewIds(db'.logs, db.nextId), config.retryMax), attempts[i].id,
                       attempts[i].core, 0, 1, attempts[i].net, data, config.retryMax)
      {
        assert db'.logs[|db.logs| + i] in db'.logs;
        FirstRowLands(db', db.nextId, attempts[i], data, config.retryMax);
      }
      SameCreated(db', NewIds(db'.logs, db.nextId), config.retryMax);
    }
  }

  lemma SameCreated(db: Db, touched: set<nat>, retryMax: nat)
    ensures ProcessDeadLetter(db, touched, retryMax).created == db.created
  {
  }

  lemma FirstRowLands(db: Db, first: nat, a: Attempt, data: Bytes, retryMax: nat)
    requires FirstRow(a, data) in db.logs && a.id >= first
    ensures Landed(ProcessDeadLetter(db, NewIds(db.logs, first), retryMax), a.id, a.core, 0, 1, a.net, data, retryMax)
  {
    RowLands(db, NewIds(db.logs, first), FirstRow(a, data), retryMax);
  }

  /** When a sync raises, and then it has changed nothing: some node is active, and the blob is missing
    or, with the query as written, two rows are live already. The maximum of the comment never raises. */
  lemma {:induction false} SyncRaisesIff(db: Db, blobs: map<RecordId, Bytes>, standby: Standbys, record: RecordId,
                                         snapshot: string, lookup: Lookup, net: seq<Net>, config: Config)
    ensures var outcome := SyncRecord(db, blobs, standby, record, snapshot, lookup, net, config);
      && (outcome.raised <==>
            && (exists n :: n in db.nodes && n.status == Active)
            && (record !in blobs || (lookup == AsWritten && |db.logs| >= 2)))
      && (outcome.raised ==> outcome.db == db && outcome.standby == standby)
  {
    hide SyncLoop, ProcessDeadLetter, MaxNumber;
    if ActiveNodes(db.nodes) != [] {
      assert ActiveNodes(db.nodes)[0] in ActiveNodes(db.nodes);
    }
  }

  /** The dead-letter step takes exactly the rows just tried that failed and have used up their retries, adds
    them to the dead letters that were there before, and touches nothing else. */
  lemma DeadLetterEffect(db: Db, touched: set<nat>, retryMax: nat)
    ensures var db' := ProcessDeadLetter(db, touched, retryMax);
      && (forall l :: l in db'.logs <==>
            l in db.logs && !(l.id in touched && l.status == Failed && l.retries >= retryMax))
      && db.dead <= db'.dead
      && (forall d :: d in db'.dead[|db.dead|..] <==>
            exists l :: l in db.logs && l.id in touched && l.status == Failed && l.retries >= retryMax
                        && d == DeadLetter(l.id, l.core))
      && db' == db.(logs := db'.logs, dead := db'.dead)
  {
    KeptMembers(db.logs, touched, retryMax);
    var letters := Letters(db.logs, touched, retryMax);
    assert (db.dead + letters)[|db.dead|..] == letters;
    forall d | d in letters
      ensures exists l :: l in db.logs && l.id in touched && l.status == Failed && l.retries >= retryMax
                          && d == DeadLetter(l.id, l.core)
    {
      var l :| l in db.logs && Doomed(l, touched, retryMax) && d == DeadLetter(l.id, l.core);
    }
    forall d, l | l in db.logs && l.id in touched && l.status == Failed && l.retries >= retryMax
                  && d == DeadLetter(l.id, l.core)
      ensures d in letters
    {
      assert Doomed(l, touched, retryMax);
    }
  }

  /** What the dead-letter step does with a row just tried. */
  lemma RowLands(db: Db, touched: set<nat>, row: Log, retryMax: nat)
    requires row in db.logs && row.id in touched
    ensures var db' := ProcessDeadLetter(db, touched, retryMax);
      if row.status == Failed && row.retries >= retryMax then DeadLetter(row.id, row.core) in db'.dead
      else row in db'.logs
  {
    KeptMembers(db.logs, touched, retryMax);
    if Doomed(row, touched, retryMax) {
      assert DeadLetter(row.id, row.core) in Letters(db.logs, touched, retryMax);
    }
  }

  /// Retry

  /** Which rows a retry pushes. */
  ghost predicate Pushed(db: Db, log: Log, limit: nat) {
    && (log.status == Pending || log.status == Failed) && log.retries < limit
    && NodeActive(db, log.core.node) && log.core.record in db.records
  }

  /** The row log' that the retry loop makes of log. */
  ghost predicate RowAfter(db: Db, blobs: map<RecordId, Bytes>, log: Log, log': Log, limit: nat, net: Net) {
    if Pushed(db, log, limit) then
      && log.core.record in blobs
      && log' == log.(status := if net == Delivered(blobs[log.core.record], true) then Acked else Failed,
                      retries := log.retries + 1)
    else
      log' == if (log.status == Pending || log.status == Failed) && log.retries < limit && NodeActive(db, log.core.node)
              then log.(status := Failed) else log
  }

  lemma RetryOneResult(t: Tried, db: Db, blobs: map<RecordId, Bytes>, log: Log, limit: nat, net: Net, config: Config)
    requires Injective(config.checksum) && !RetryOne(t, db, blobs, log, limit, net, config).raised
    ensures var t' := RetryOne(t, db, blobs, log, limit, net, config);
      && !t.raised && |t'.logs| == |t.logs| + 1 && t'.logs[..|t.logs|] == t.logs
      && RowAfter(db, blobs, log, t'.logs[|t.logs|], limit, net)
      && t'.touched == t.touched + (if Pushed(db, log, limit) then {log.id} else {})
  {
    hide Push, FindNode, Injective;
    if Pushed(db, log, limit) && log.core.record in blobs {
      var endpoint := FindNode(db.nodes, log.core.node).value.endpoint;
      PushHeardIff(t.standby, endpoint, log.core.record, blobs[log.core.record], net, config);
    }
  }

  lemma {:induction false} RetryLoopResult(db: Db, blobs: map<RecordId, Bytes>, standby: Standbys, n: nat, limit: nat,
                                           net: seq<Net>, config: Config)
    requires Injective(config.checksum) && n <= |db.logs|
    ensures var t := RetryLoop(db, blobs, standby, n, limit, net, config);
      !t.raised ==>
        && |t.logs| == n
        && (forall i :: 0 <= i < n ==> RowAfter(db, blobs, db.logs[i], t.logs[i], limit, NetAt(net, i)))
        && (forall id :: id in t.touched <==>
              exists i :: 0 <= i < n && db.logs[i].id == id && Pushed(db, db.logs[i], limit))
  {
    hide RetryOne, RowAfter, Pushed, Injective;
    if n > 0 {
      RetryLoopResult(db, blobs, standby, n - 1, limit, net, config);
      var t := RetryLoop(db, blobs, standby, n - 1, limit, net, config);
      var t' := RetryLoop(db, blobs, standby, n, limit, net, config);
      if !t'.raised {
        RetryOneResult(t, db, blobs, db.logs[n - 1], limit, NetAt(net, n - 1), config);
        assert forall i :: 0 <= i < n - 1 ==> t'.logs[i] == t'.logs[..n - 1][i];
      }
    }
  }

  /** A retry that does not raise, row by row: a row that is not due, or whose node is gone or not
    active, is left as it is; the row of a vanished record fails; every other row is pushed once,
    and lands as the network decided. */
  lemma RetryOutcome(db: Db, blobs: map<RecordId, Bytes>, standby: Standbys, limit: nat, net: seq<Net>, config: Config,
                     i: nat)
    requires Injective(config.checksum) && Ordered(db.logs) && i < |db.logs|
    requires !RetryPending(db, blobs, standby, limit, net, config).raised
    ensures var log, db' := db.logs[i], RetryPending(db, blobs, standby, limit, net, config).db;
      if log.status == Acked || log.status == Sent || log.retries >= limit || !NodeActive(db, log.core.node) then
        log in db'.logs
      else if log.core.record !in db.records then
        log.(status := Failed) in db'.logs
      else
        log.core.record in blobs
        && Landed(db', log.id, log.core, log.retries + 1, log.retries + 1, NetAt(net, i), blobs[log.core.record],
                  config.retryMax)
  {
    hide RetryLoop, Injective, NodeActive;
    RetryLoopResult(db, blobs, standby, |db.logs|, limit, net, config);
    var t := RetryLoop(db, blobs, standby, |db.logs|, limit, net, config);
    var log, row := db.logs[i], t.logs[i];
    assert row in t.logs && RowAfter(db, blobs, log, row, limit, NetAt(net, i));
    if Pushed(db, log, limit) {
      assert row.id in t.touched;
      RowLands(db.(logs := t.logs), t.touched, row, config.retryMax);
    } else {
      assert row.id !in t.touched;
      KeptMembers(t.logs, t.touched, config.retryMax);
    }
  }

  /// The standbys

  /** One of the first k pushes brought the ciphertext to this endpoint. */
  ghost predicate Brought(targets: seq<Node>, net: seq<Net>, data: Bytes, endpoint: Endpoint, k: nat) {
    exists i :: 0 <= i < k <= |targets| && targets[i].endpoint == endpoint
                && NetAt(net, i).Delivered? && NetAt(net, i).arrived == data
  }

  lemma {:induction false} SyncLoopStores(db: Db, standby: Standbys, targets: seq<Node>, k: nat, record: RecordId,
                                          data: Bytes, snapshot: string, base: nat, net: seq<Net>, config: Config,
                                          endpoint: Endpoint)
    requires Injective(config.checksum) && k <= |targets|
    ensures var standby' := SyncLoop(db, standby, targets, k, record, data, snapshot, base, net, config).1;
      StoreOf(standby', endpoint) == if Brought(targets, net, data, endpoint, k)
                                     then StoreOf(standby, endpoint)[record := data] else StoreOf(standby, endpoint)
  {
    if k > 0 {
      hide Push, StoreOf, Injective;
      SyncLoopStores(db, standby, targets, k - 1, record, data, snapshot, base, net, config, endpoint);
      var standby' := SyncLoop(db, standby, targets, k - 1, record, data, snapshot, base, net, config).1;
      PushEffect(standby', targets[k - 1].endpoint, record, data, NetAt(net, k - 1), config);
    }
  }

  /** After a sync an endpoint holds the record's ciphertext if a push brought it there, acknowledged or
    not, and besides that what it held before. */
  lemma SyncStores(db: Db, blobs: map<RecordId, Bytes>, standby: Standbys, record: RecordId, snapshot: string,
                   lookup: Lookup, net: seq<Net>, config: Config, endpoint: Endpoint)
    requires Injective(config.checksum) && record in blobs && LastNumber(db.logs, lookup).Some?
    ensures var standby' := SyncRecord(db, blobs, standby, record, snapshot, lookup, net, config).standby;
      var targets := ActiveNodes(db.nodes);
      StoreOf(standby', endpoint) == if Brought(targets, net, blobs[record], endpoint, |targets|)
                                     then StoreOf(standby, endpoint)[record := blobs[record]]
                                     else StoreOf(standby, endpoint)
  {
    hide SyncLoop, StoreOf, Injective;
    var targets := ActiveNodes(db.nodes);
    if targets != [] {
      SyncLoopStores(db, standby, targets, |targets|, record, blobs[record], snapshot,
                     LastNumber(db.logs, lookup).value, net, config, endpoint);
    }
  }

  /** The push of this row of a retry brought the record's ciphertext to this endpoint. */
  ghost predicate RowBrought(db: Db, blobs: map<RecordId, Bytes>, log: Log, limit: nat, net: Net, endpoint: Endpoint,
                             record: RecordId)
  {
    && Pushed(db, log, limit) && log.core.record == record && record in blobs
    && FindNode(db.nodes, log.core.node).value.endpoint == endpoint
    && net.Delivered? && net.arrived == blobs[record]
  }

  ghost predicate AnyBrought(db: Db, blobs: map<RecordId, Bytes>, n: nat, limit: nat, net: seq<Net>, endpoint: Endpoint,
                             record: RecordId)
  {
    exists i :: 0 <= i < n <= |db.logs| && RowBrought(db, blobs, db.logs[i], limit, NetAt(net, i), endpoint, record)
  }

  /** The store at the endpoint has the same entry for the record. */
  ghost predicate SameEntry(standby: Standbys, standby': Standbys, endpoint: Endpoint, record: RecordId) {
    && (record in StoreOf(standby', endpoint) <==> record in StoreOf(standby, endpoint))
    && (record in StoreOf(standby, endpoint) ==>
          StoreOf(standby', endpoint)[record] == StoreOf(standby, endpoint)[record])
  }

  lemma RetryOneStores(t: Tried, db: Db, blobs: map<RecordId, Bytes>, log: Log, limit: nat, net: Net, config: Config,
                       endpoint: Endpoint, record: RecordId)
    requires Injective(config.checksum) && !RetryOne(t, db, blobs, log, limit, net, config).raised
    ensures var standby' := RetryOne(t, db, blobs, log, limit, net, config).standby;
      if RowBrought(db, blobs, log, limit, net, endpoint, record)
      then Holds(standby', endpoint, record, blobs[record]) else SameEntry(t.standby, standby', endpoint, record)
  {
    hide Push, FindNode, Injective, StoreOf, Holds;
    if Pushed(db, log, limit) && log.core.record in blobs {
      var target := FindNode(db.nodes, log.core.node).value.endpoint;
      PushEffect(t.standby, target, log.core.record, blobs[log.core.record], net, config);
      HoldsIff(RetryOne(t, db, blobs, log, limit, net, config).standby, target, log.core.record,
               blobs[log.core.record]);
    }
  }

  lemma HoldsIff(standby: Standbys, endpoint: Endpoint, record: RecordId, data: Bytes)
    ensures Holds(standby, endpoint, record, data) <==>
            record in StoreOf(standby, endpoint) && StoreOf(standby, endpoint)[record] == data
  {
  }

  lemma {:induction false} RetryLoopStores(db: Db, blobs: map<RecordId, Bytes>, standby: Standbys, n: nat, limit: nat,
                                           net: seq<Net>, config: Config, endpoint: Endpoint, record: RecordId)
    requires Injective(config.checksum) && n <= |db.logs|
    requires !RetryLoop(db, blobs, standby, n, limit, net, config).raised
    ensures var standby' := RetryLoop(db, blobs, standby, n, limit, net, config).standby;
      if AnyBrought(db, blobs, n, limit, net, endpoint, record)
      then record in blobs && Holds(standby', endpoint, record, blobs[record])
      else SameEntry(standby, standby', endpoint, record)
  {
    if n > 0 {
      hide RetryOne, RowBrought, StoreOf, Injective;
      var t := RetryLoop(db, blobs, standby, n - 1, limit, net, config);
      var net' := NetAt(net, n - 1);
      NotRaisedBefore(t, db, blobs, db.logs[n - 1], limit, net', config);
      RetryLoopStores(db, blobs, standby, n - 1, limit, net, config, endpoint, record);
      RetryOneStores(t, db, blobs, db.logs[n - 1], limit, net', config, endpoint, record);
      if RowBrought(db, blobs, db.logs[n - 1], limit, net', endpoint, record) {
        BroughtHasBlob(db, blobs, db.logs[n - 1], limit, net', endpoint, record);
      } else if AnyBrought(db, blobs, n - 1, limit, net, endpoint, record) {
        HeldEntry(t.standby, RetryOne(t, db, blobs, db.logs[n - 1], limit, net', config).standby, endpoint, record,
                  blobs[record]);
      }
    }
  }

  lemma NotRaisedBefore(t: Tried, db: Db, blobs: map<RecordId, Bytes>, log: Log, limit: nat, net: Net, config: Config)
    ensures !RetryOne(t, db, blobs, log, limit, net, config).raised ==> !t.raised
  {
  }

  lemma BroughtHasBlob(db: Db, blobs: map<RecordId, Bytes>, log: Log, limit: nat, net: Net, endpoint: Endpoint,
                       record: RecordId)
    ensures RowBrought(db, blobs, log, limit, net, endpoint, record) ==> record in blobs
  {
  }

  lemma HeldEntry(standby: Standbys, standby': Standbys, endpoint: Endpoint, record: RecordId, data: Bytes)
    requires Holds(standby, endpoint, record, data) && SameEntry(standby, standby', endpoint, record)
    ensures Holds(standby', endpoint, record, data)
  {
  }

  /** The row is due, and the blob of its record is gone. */
  ghost predicate Stuck(db: Db, blobs: map<RecordId, Bytes>, log: Log, limit: nat) {
    Pushed(db, log, limit) && log.core.record !in blobs
  }

  lemma {:induction false} RaisedStays(db: Db, blobs: map<RecordId, Bytes>, standby: Standbys, m: nat, n: nat,
                                       limit: nat, net: seq<Net>, config: Config)
    requires m <= n <= |db.logs| && RetryLoop(db, blobs, standby, m, limit, net, config).raised
    ensures RetryLoop(db, blobs, standby, n, limit, net, config) == RetryLoop(db, blobs, standby, m, limit, net, config)
    decreases n - m
  {
    if m < n {
      RaisedStays(db, blobs, standby, m, n - 1, limit, net, config);
    }
  }

  /** With n for the number of rows before the first one that is stuck: after a retry an endpoint holds a
    record's ciphertext if the push of one of the first n rows brought it there, acknowledged or not,
    and otherwise what it held before. If there is a stuck row the retry raises; the tables are then as
    before, but the standbys are not. */
  lemma {:induction false} RetryStores(db: Db, blobs: map<RecordId, Bytes>, standby: Standbys, n: nat, limit: nat,
                                       net: seq<Net>, config: Config, endpoint: Endpoint, record: RecordId)
    requires Injective(config.checksum) && n <= |db.logs|
    requires forall i :: 0 <= i < n ==> !Stuck(db, blobs, db.logs[i], limit)
    requires n < |db.logs| ==> Stuck(db, blobs, db.logs[n], limit)
    ensures var outcome := RetryPending(db, blobs, standby, limit, net, config);
      && (outcome.raised <==> n < |db.logs|)
      && (outcome.raised ==> outcome.db == db)
      && if AnyBrought(db, blobs, n, limit, net, endpoint, record)
         then record in blobs && Holds(outcome.standby, endpoint, record, blobs[record])
         else SameEntry(standby, outcome.standby, endpoint, record)
  {
    assert !RetryLoop(db, blobs, standby, n, limit, net, config).raised by {
      RetryRaisesIff(db, blobs, standby, n, limit, net, config);
      hide RetryLoop;
      assert forall i :: 0 <= i < n ==> !Stuck(db, blobs, db.logs[i], limit);
    }
    hide Injective, AnyBrought, SameEntry, Holds;
    RetryLoopStores(db, blobs, standby, n, limit, net, config, endpoint, record);
    if n < |db.logs| {
      StuckRaises(db, blobs, standby, n, limit, net, config);
      RaisedStays(db, blobs, standby, n + 1, |db.logs|, limit, net, config);
    }
    hide RetryLoop;
  }

  lemma {:induction false} StuckRaises(db: Db, blobs: map<RecordId, Bytes>, standby: Standbys, n: nat, limit: nat,
                                       net: seq<Net>, config: Config)
    requires n < |db.logs| && Stuck(db, blobs, db.logs[n], limit)
    requires !RetryLoop(db, blobs, standby, n, limit, net, config).raised
    ensures RetryLoop(db, blobs, standby, n + 1, limit, net, config)
         == RetryLoop(db, blobs, standby, n, limit, net, config).(raised := true)
  {
    hide Push, FindNode;
  }

  /// Nodes and resets

  /** Unregistering takes the node away and fails its pending and sent rows; every other node and every
    other row, and all else of the rows, stays. An unknown node is refused. */
  lemma UnregisterEffect(db: Db, id: NodeId)
    ensures Unregister(db, id).Some? <==> exists n :: n in db.nodes && n.id == id
    ensures Unregister(db, id).Some? ==>
              var db' := Unregister(db, id).value;
              && (forall n :: n in db'.nodes <==> n in db.nodes && n.id != id)
              && |db'.logs| == |db.logs|
              && (forall i :: 0 <= i < |db.logs| ==>
                    var l := db.logs[i];
                    db'.logs[i] == if l.core.node == id && (l.status == Pending || l.status == Sent)
                                   then l.(status := Failed) else l)
              && db' == db.(nodes := db'.nodes, logs := db'.logs)
  {
  }

  /** A health check makes every node that is not disabled active or unhealthy, and changes nothing else. */
  lemma HealthEffect(db: Db, healthy: set<NodeId>)
    ensures var db' := HealthCheck(db, healthy);
      && |db'.nodes| == |db.nodes|
      && (forall i :: 0 <= i < |db.nodes| ==>
            && db'.nodes[i].id == db.nodes[i].id && db'.nodes[i].endpoint == db.nodes[i].endpoint
            && db'.nodes[i].status == if db.nodes[i].status == Disabled then Disabled
                                      else if db.nodes[i].id in healthy then Active else Unhealthy)
      && db' == db.(nodes := db'.nodes)
  {
  }

  /** How many rows a node has. */
  function RowsOf(logs: seq<Log>, node: NodeId): nat {
    if logs == [] then 0 else (if logs[0].core.node == node then 1 else 0) + RowsOf(logs[1..], node)
  }

  lemma {:induction false} RowsOfSplit(front: seq<Log>, back: seq<Log>, node: NodeId)
    ensures RowsOf(front + back, node) == RowsOf(front, node) + RowsOf(back, node)
  {
    if front == [] {
      assert front + back == back;
    } else {
      assert (front + back)[1..] == front[1..] + back;
      RowsOfSplit(front[1..], back, node);
    }
  }

  /** The rest is the old table without the rows of the node: these positions of it, in their order. */
  ghost predicate KeepsRest(logs: seq<Log>, logs': seq<Log>, node: NodeId, at: seq<nat>) {
    && |at| == |logs'|
    && (forall k :: 0 <= k < |at| ==> at[k] < |logs| && logs'[k] == logs[at[k]] && logs[at[k]].core.node != node)
    && (forall j, k :: 0 <= j < k < |at| ==> at[j] < at[k])
    && (forall i :: 0 <= i < |logs| && logs[i].core.node != node ==> i in at)
  }

  lemma {:induction false} WithoutLogsKeepsRest(logs: seq<Log>, node: NodeId) returns (at: seq<nat>)
    ensures KeepsRest(logs, WithoutLogsOf(logs, node), node, at)
    ensures |WithoutLogsOf(logs, node)| == |logs| - RowsOf(logs, node)
  {
    if logs == [] {
      at := [];
    } else {
      var n := |logs| - 1;
      at := WithoutLogsKeepsRest(logs[..n], node);
      RowsOfSplit(logs[..n], [logs[n]], node);
      assert logs == logs[..n] + [logs[n]];
      assert RowsOf([logs[n]], node) == if logs[n].core.node == node then 1 else 0;
      if logs[n].core.node != node {
        at := at + [n];
      }
    }
  }

  /** A reset deletes exactly the rows of the node, keeps the order of the rest, remembers the deleted ids
    as cleared, and touches neither nodes, records nor dead letters. */
  lemma ResetEffect(db: Db, node: NodeId) returns (at: seq<nat>)
    ensures var db' := ResetSync(db, node);
      && (forall l :: l in db'.logs <==> l in db.logs && l.core.node != node)
      && KeepsRest(db.logs, db'.logs, node, at)
      && |db'.logs| == |db.logs| - RowsOf(db.logs, node)
      && (forall id :: id in db'.cleared <==>
            id in db.cleared || exists l :: l in db.logs && l.core.node == node && l.id == id)
      && db' == db.(logs := db'.logs, cleared := db'.cleared)
  {
    ResetMembers(db.logs, node);
    at := WithoutLogsKeepsRest(db.logs, node);
  }
}
