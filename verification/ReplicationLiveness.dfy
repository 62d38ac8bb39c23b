/** What becomes of a row: retries come to an end, and what keeps a row, or a whole table, from getting
  there. */
module ReplicationLiveness {
  import opened Replication
  import opened ReplicationRuns
  import opened ReplicationOutcomes

  /// Retries come to an end

  /** The row is acked or has become a dead letter. */
  ghost predicate Settled(db: Db, id: nat) {
    (exists l :: l in db.logs && l.id == id && l.status == Acked) || (exists d :: d in db.dead && d.origin == id)
  }

  /** The row is live, unfinished, and has been tried this often. */
  ghost predicate Waiting(db: Db, id: nat, core: Core, retries: nat) {
    exists l :: l in db.logs && l.id == id && l.core == core && l.retries == retries
                && (l.status == Pending || l.status == Failed)
  }

  /** Some row is due, its node is active and its record exists, but the blob of the record is gone. */
  ghost predicate Stalled(db: Db, blobs: map<RecordId, Bytes>, limit: nat) {
    exists l :: l in db.logs && Stalls(db, blobs, limit, l)
  }

  ghost predicate Stalls(db: Db, blobs: map<RecordId, Bytes>, limit: nat, l: Log) {
    Eligible(l, limit) && NodeActive(db, l.core.node) && l.core.record in db.records && l.core.record !in blobs
  }

  lemma {:induction false} StalledIffRaises(db: Db, blobs: map<RecordId, Bytes>, standby: Standbys, limit: nat,
                                            net: seq<Net>, config: Config)
    ensures RetryPending(db, blobs, standby, limit, net, config).raised <==> Stalled(db, blobs, limit)
  {
    hide RetryLoop;
    RetryRaisesIff(db, blobs, standby, |db.logs|, limit, net, config);
    if Stalled(db, blobs, limit) {
      var l :| l in db.logs && Stalls(db, blobs, limit, l);
      var i :| 0 <= i < |db.logs| && db.logs[i] == l;
    } else {
      assert forall i :: 0 <= i < |db.logs| ==> !Stalls(db, blobs, limit, db.logs[i]);
    }
  }

  /** A retry that does not raise settles the row or uses up one of its retries. It leaves it alone only
    if its limit is below the configured maximum, the node is not active, or the record is gone. */
  lemma {:induction false} RetryProgress(db: Db, blobs: map<RecordId, Bytes>, standby: Standbys, limit: nat,
                                         net: seq<Net>, config: Config, id: nat, core: Core, retries: nat)
    requires Injective(config.checksum) && Ordered(db.logs) && RetriesLeft(db.logs, {}, config.retryMax)
    requires Waiting(db, id, core, retries) && !Stalled(db, blobs, limit)
    ensures var outcome := RetryPending(db, blobs, standby, limit, net, config);
      && !outcome.raised
      && (|| Settled(outcome.db, id)
          || Waiting(outcome.db, id, core, retries + 1)
          || (Waiting(outcome.db, id, core, retries)
              && (limit < config.retryMax || !NodeActive(db, core.node) || core.record !in db.records)))
  {
    hide RetryPending, Injective, Ordered, NodeActive;
    StalledIffRaises(db, blobs, standby, limit, net, config);
    var log :| log in db.logs && log.id == id && log.core == core && log.retries == retries
               && (log.status == Pending || log.status == Failed);
    var i :| 0 <= i < |db.logs| && db.logs[i] == log;
    RetryOutcome(db, blobs, standby, limit, net, config, i);
  }

  /** Dead letters stay, and so does an acked row whose node is not reset. */
  lemma SettledStays(w: World, step: Step, config: Config, id: nat, node: NodeId)
    requires Inv(w, config) && Settled(w.db, id) && step.action != Reset(node)
    requires forall l :: l in w.db.logs && l.id == id ==> l.core.node == node
    ensures Settled(Apply(w, step, config).db, id)
  {
    if d :| d in w.db.dead && d.origin == id {
      DeadStays(w, step, config, d);
    } else {
      var l :| l in w.db.logs && l.id == id && l.status == Acked;
      AckedStays(w, step, config, l);
    }
  }

  /** Every step but a retry and a reset of its node leaves a waiting row waiting, tried just as often. */
  lemma OtherStepWaits(w: World, step: Step, config: Config, id: nat, core: Core, retries: nat)
    requires Inv(w, config) && Waiting(w.db, id, core, retries)
    requires step.action != Reset(core.node)
    requires step.action.Retry? ==> !step.commit
    ensures Waiting(Apply(w, step, config).db, id, core, retries)
  {
    hide Accounted, RetriesLeft, CoresOk, StandbysOk, AckedHeld, SyncRecord, RetryPending, WithoutLogsOf;
    var log :| log in w.db.logs && log.id == id && log.core == core && log.retries == retries
               && (log.status == Pending || log.status == Failed);
    match step.action
    case Put(record, data, snapshot, lookup, net) =>
      var blobs := w.blobs[record := data];
      var db := w.db.(records := w.db.records + {record});
      AccountedIgnoresRecords(w.db, db.records);
      SyncKeepsRow(db, blobs, w.standby, record, snapshot, lookup, net, config, log);
    case Sync(record, snapshot, lookup, net) =>
      SyncKeepsRow(w.db, w.blobs, w.standby, record, snapshot, lookup, net, config, log);
    case Reset(node) =>
      ResetMembers(w.db.logs, node);
    case UnregisterNode(node) =>
      var i :| 0 <= i < |w.db.logs| && w.db.logs[i] == log;
      assert FailAll(w.db.logs, node)[i] in FailAll(w.db.logs, node);
    case _ =>
  }

  /** A retry that reaches the row of this core: it is committed, nothing stalls it, its limit is no less
    than the configured maximum, the node is active and the record exists. */
  ghost predicate Reaches(w: World, step: Step, core: Core, config: Config) {
    && step.action.Retry? && step.commit && step.action.limit >= config.retryMax
    && NodeActive(w.db, core.node) && core.record in w.db.records
    && !Stalled(w.db, w.blobs, step.action.limit)
  }

  /** How many steps of the run reach the row. */
  ghost function Tries(w: World, steps: seq<Step>, core: Core, config: Config): nat
    decreases |steps|
  {
    if steps == [] then 0
    else (if Reaches(w, steps[0], core, config) then 1 else 0)
         + Tries(Apply(w, steps[0], config), steps[1..], core, config)
  }

  /** No step of the run resets the node. */
  ghost predicate NeverReset(steps: seq<Step>, node: NodeId) {
    forall i :: 0 <= i < |steps| ==> steps[i].action != Reset(node)
  }

  lemma NeverResetTail(steps: seq<Step>, node: NodeId)
    requires NeverReset(steps, node) && steps != []
    ensures steps[0].action != Reset(node) && NeverReset(steps[1..], node)
  {
    assert forall i :: 0 <= i < |steps[1..]| ==> steps[1..][i] == steps[i + 1];
  }

  lemma {:induction false} SettledStaysOnRun(w: World, steps: seq<Step>, config: Config, id: nat, core: Core)
    requires Injective(config.checksum) && Inv(w, config) && Settled(w.db, id)
    requires id in w.db.created && w.db.created[id] == core
    requires NeverReset(steps, core.node)
    ensures Settled(Run(w, steps, config).db, id)
    decreases |steps|
  {
    if steps != [] {
      hide Apply, Settled, NeverReset;
      NeverResetTail(steps, core.node);
      SettledStays(w, steps[0], config, id, core.node);
      StepKeepsInv(w, steps[0], config);
      SettledStaysOnRun(Apply(w, steps[0], config), steps[1..], config, id, core);
    }
  }

  /** One step of a run for a waiting row. */
  lemma WaitingStep(w: World, step: Step, config: Config, id: nat, core: Core, retries: nat)
    requires Injective(config.checksum) && Inv(w, config) && Waiting(w.db, id, core, retries)
    requires step.action != Reset(core.node)
    ensures var db' := Apply(w, step, config).db;
      || Settled(db', id)
      || Waiting(db', id, core, retries + 1)
      || (!Reaches(w, step, core, config) && Waiting(db', id, core, retries))
  {
    hide Settled, Waiting, RetryPending, SyncRecord, ResetSync, Unregister, Stalled, NodeActive, Injective;
    if step.action.Retry? && step.commit {
      var limit, net := step.action.limit, step.action.net;
      StalledIffRaises(w.db, w.blobs, w.standby, limit, net, config);
      if !Stalled(w.db, w.blobs, limit) {
        RetryProgress(w.db, w.blobs, w.standby, limit, net, config, id, core, retries);
      }
    } else {
      OtherStepWaits(w, step, config, id, core, retries);
    }
  }

  lemma WaitingHasRetriesLeft(w: World, config: Config, id: nat, core: Core, retries: nat)
    requires Inv(w, config) && Waiting(w.db, id, core, retries)
    ensures retries < config.retryMax
  {
  }

  /** Whatever the network does, whatever other requests come in between, and whatever becomes of nodes,
    records and blobs meanwhile: once a row has been reached as often as it has retries left, it is
    acked or in the dead-letter table. Only a reset of its node is ruled out, which deletes it. */
  lemma {:induction false} RetriesTerminate(w: World, steps: seq<Step>, config: Config, id: nat, core: Core,
                                            retries: nat)
    requires Injective(config.checksum) && Inv(w, config)
    requires Waiting(w.db, id, core, retries) || Settled(w.db, id)
    requires id in w.db.created && w.db.created[id] == core
    requires NeverReset(steps, core.node)
    requires retries + Tries(w, steps, core, config) >= config.retryMax
    ensures Settled(Run(w, steps, config).db, id)
    decreases |steps|
  {
    hide Apply, Settled, Waiting, Inv, Injective, NeverReset, Reaches;
    if Settled(w.db, id) {
      SettledStaysOnRun(w, steps, config, id, core);
    } else if steps == [] {
      WaitingHasRetriesLeft(w, config, id, core, retries);
      assert false;
    } else {
      var w' := Apply(w, steps[0], config);
      NeverResetTail(steps, core.node);
      StepKeepsInv(w, steps[0], config);
      WaitingStep(w, steps[0], config, id, core, retries);
      if Settled(w'.db, id) {
        SettledStaysOnRun(w', steps[1..], config, id, core);
      } else if Waiting(w'.db, id, core, retries + 1) {
        RetriesTerminate(w', steps[1..], config, id, core, retries + 1);
      } else {
        RetriesTerminate(w', steps[1..], config, id, core, retries);
      }
    }
  }

  /** The calls of the retry route. */
  predicate Called(step: Step, retryMax: nat) {
    step.action.Retry? && step.action.limit >= retryMax && step.commit
  }

  function Calls(steps: seq<Step>, retryMax: nat): nat {
    if steps == [] then 0 else (if Called(steps[0], retryMax) then 1 else 0) + Calls(steps[1..], retryMax)
  }

  /** At every call of the run the node is active, the record exists and nothing stalls. */
  ghost predicate Undisturbed(w: World, steps: seq<Step>, core: Core, config: Config)
    decreases |steps|
  {
    steps != [] ==>
      && (Called(steps[0], config.retryMax) ==> Reaches(w, steps[0], core, config))
      && Undisturbed(Apply(w, steps[0], config), steps[1..], core, config)
  }

  /** Then every call reaches the row, so that replication_retry_max calls settle it. */
  lemma {:induction false} EveryCallReaches(w: World, steps: seq<Step>, core: Core, config: Config)
    requires Undisturbed(w, steps, core, config)
    ensures Tries(w, steps, core, config) == Calls(steps, config.retryMax)
    decreases |steps|
  {
    hide Stalled, NodeActive, Apply;
    if steps != [] {
      EveryCallReaches(Apply(w, steps[0], config), steps[1..], core, config);
    }
  }

  /** So replication_retry_max undisturbed calls of the retry route settle a waiting row. */
  lemma {:induction false} RetryMaxCallsSettle(w: World, steps: seq<Step>, config: Config, id: nat, core: Core,
                                               retries: nat)
    requires Injective(config.checksum) && Inv(w, config) && Waiting(w.db, id, core, retries)
    requires Undisturbed(w, steps, core, config) && NeverReset(steps, core.node)
    requires Calls(steps, config.retryMax) >= config.retryMax
    ensures Settled(Run(w, steps, config).db, id)
  {
    hide Run, Settled, Undisturbed, Injective, NeverReset;
    EveryCallReaches(w, steps, core, config);
    RetriesTerminate(w, steps, config, id, core, retries);
  }

  /// The measure

  /** The retries that a row has left. */
  function Rest(l: Log, retryMax: nat): nat {
    if (l.status == Pending || l.status == Failed) && l.retries < retryMax then retryMax - l.retries else 0
  }

  function Remaining(logs: seq<Log>, retryMax: nat): nat {
    if logs == [] then 0 else Remaining(logs[..|logs| - 1], retryMax) + Rest(logs[|logs| - 1], retryMax)
  }

  lemma {:induction false} RemainingLess(logs: seq<Log>, logs': seq<Log>, retryMax: nat)
    requires |logs'| == |logs| && forall i :: 0 <= i < |logs| ==> Rest(logs'[i], retryMax) <= Rest(logs[i], retryMax)
    ensures Remaining(logs', retryMax) <= Remaining(logs, retryMax)
    ensures (exists i :: 0 <= i < |logs| && Rest(logs'[i], retryMax) < Rest(logs[i], retryMax)) ==>
              Remaining(logs', retryMax) < Remaining(logs, retryMax)
  {
    hide Rest;
    if logs != [] {
      RemainingLess(logs[..|logs| - 1], logs'[..|logs| - 1], retryMax);
    }
  }

  /** What becomes a dead letter had nothing left. */
  lemma {:induction false} KeptRemaining(logs: seq<Log>, touched: set<nat>, retryMax: nat)
    ensures Remaining(Kept(logs, touched, retryMax), retryMax) == Remaining(logs, retryMax)
  {
    if logs != [] {
      var n := |logs| - 1;
      var kept := Kept(logs[..n], touched, retryMax);
      KeptRemaining(logs[..n], touched, retryMax);
      if Doomed(logs[n], touched, retryMax) {
        assert Kept(logs, touched, retryMax) == kept;
      } else {
        assert Kept(logs, touched, retryMax) == kept + [logs[n]];
        assert (kept + [logs[n]])[..|kept|] == kept;
      }
    }
  }

  /** The retries left over all rows never grow in a retry, and shrink whenever it pushes any row,
    whatever the network does. */
  lemma {:induction false} RemainingShrinks(db: Db, blobs: map<RecordId, Bytes>, standby: Standbys, limit: nat,
                                            net: seq<Net>, config: Config)
    requires Injective(config.checksum) && RetriesLeft(db.logs, {}, config.retryMax)
    requires !RetryPending(db, blobs, standby, limit, net, config).raised
    ensures var logs' := RetryPending(db, blobs, standby, limit, net, config).db.logs;
      && Remaining(logs', config.retryMax) <= Remaining(db.logs, config.retryMax)
      && ((exists l :: l in db.logs && Pushed(db, l, limit)) ==>
            Remaining(logs', config.retryMax) < Remaining(db.logs, config.retryMax))
  {
    hide RetryLoop, Remaining, Injective, NodeActive, RetriesLeft;
    RetryLoopResult(db, blobs, standby, |db.logs|, limit, net, config);
    var t := RetryLoop(db, blobs, standby, |db.logs|, limit, net, config);
    forall i | 0 <= i < |db.logs|
      ensures Rest(t.logs[i], config.retryMax) <= Rest(db.logs[i], config.retryMax)
      ensures Pushed(db, db.logs[i], limit) ==>
                Rest(t.logs[i], config.retryMax) < Rest(db.logs[i], config.retryMax)
    {
      LeftIfFailed(db.logs, db.logs[i], config.retryMax);
      assert RowAfter(db, blobs, db.logs[i], t.logs[i], limit, NetAt(net, i));
    }
    RemainingLess(db.logs, t.logs, config.retryMax);
    KeptRemaining(t.logs, t.touched, config.retryMax);
    if l :| l in db.logs && Pushed(db, l, limit) {
      var i :| 0 <= i < |db.logs| && db.logs[i] == l;
      assert Rest(t.logs[i], config.retryMax) < Rest(db.logs[i], config.retryMax);
    }
  }

  lemma LeftIfFailed(logs: seq<Log>, l: Log, retryMax: nat)
    requires RetriesLeft(logs, {}, retryMax) && l in logs
    ensures l.status == Acked || (l.status == Failed && l.retries < retryMax)
  {
  }

  /** The measure is zero exactly when every live row is acked. */
  lemma {:induction false} RemainingZeroIff(logs: seq<Log>, retryMax: nat)
    requires RetriesLeft(logs, {}, retryMax)
    ensures Remaining(logs, retryMax) == 0 <==> forall l :: l in logs ==> l.status == Acked
  {
    if logs != [] {
      var n := |logs| - 1;
      assert logs == logs[..n] + [logs[n]];
      RemainingZeroIff(logs[..n], retryMax);
    }
  }

  /// What stalls a retry

  /** A purge removes the blob at once, but its row only with the commit. If it is rolled back while a row
    of the record is due, every retry raises and leaves all rows as they were, its own and others. */
  lemma {:induction false} RolledBackPurgeStalls(w: World, log: Log, steps: seq<Step>, config: Config)
    requires log in w.db.logs && (log.status == Pending || log.status == Failed)
    requires NodeActive(w.db, log.core.node) && log.core.record in w.db.records
    requires forall i :: 0 <= i < |steps| ==> steps[i].action.Retry? && steps[i].action.limit > log.retries
    ensures Run(Apply(w, Step(Purge(log.core.record), false), config), steps, config).db == w.db
  {
    hide NodeActive, RetryPending;
    var w' := Apply(w, Step(Purge(log.core.record), false), config);
    assert w'.db == w.db && log.core.record !in w'.blobs;
    StalledForGood(w', log, steps, config);
  }

  lemma {:induction false} StalledForGood(w: World, log: Log, steps: seq<Step>, config: Config)
    requires log in w.db.logs && Stalls(w.db, w.blobs, log.retries + 1, log)
    requires forall i :: 0 <= i < |steps| ==> steps[i].action.Retry? && steps[i].action.limit > log.retries
    ensures Run(w, steps, config).db == w.db
    decreases |steps|
  {
    hide NodeActive, RetryPending;
    if steps != [] {
      var action := steps[0].action;
      StalledIffRaises(w.db, w.blobs, w.standby, action.limit, action.net, config);
      assert Stalls(w.db, w.blobs, action.limit, log);
      assert forall i :: 0 <= i < |steps[1..]| ==> steps[1..][i] == steps[i + 1];
      StalledForGood(Apply(w, steps[0], config), log, steps[1..], config);
    }
  }

  /// Unregistering

  /** The node was registered once and is not any more. */
  ghost predicate Gone(w: World, node: NodeId) {
    node in w.endpoints && FindNode(w.db.nodes, node).None?
  }

  lemma {:induction false} SyncKeepsNodes(db: Db, blobs: map<RecordId, Bytes>, standby: Standbys, record: RecordId,
                                          snapshot: string, lookup: Lookup, net: seq<Net>, config: Config)
    ensures SyncRecord(db, blobs, standby, record, snapshot, lookup, net, config).db.nodes == db.nodes
    ensures SyncRecord(db, blobs, standby, record, snapshot, lookup, net, config).db.records == db.records
    ensures SyncRecord(db, blobs, standby, record, snapshot, lookup, net, config).db.cleared == db.cleared
  {
    hide SyncLoop;
    var targets := ActiveNodes(db.nodes);
    if targets != [] && record in blobs && LastNumber(db.logs, lookup).Some? {
      SyncLoopKeepsNodes(db, standby, targets, |targets|, record, blobs[record], snapshot,
                         LastNumber(db.logs, lookup).value, net, config);
    }
  }

  lemma {:induction false} SyncLoopKeepsNodes(db: Db, standby: Standbys, targets: seq<Node>, k: nat, record: RecordId,
                                              data: Bytes, snapshot: string, base: nat, net: seq<Net>, config: Config)
    requires k <= |targets|
    ensures var db' := SyncLoop(db, standby, targets, k, record, data, snapshot, base, net, config).0;
      db'.nodes == db.nodes && db'.records == db.records && db'.cleared == db.cleared
  {
    hide Push;
    if k > 0 {
      SyncLoopKeepsNodes(db, standby, targets, k - 1, record, data, snapshot, base, net, config);
    }
  }

  lemma RetryKeepsNodes(db: Db, blobs: map<RecordId, Bytes>, standby: Standbys, limit: nat, net: seq<Net>,
                        config: Config)
    ensures var db' := RetryPending(db, blobs, standby, limit, net, config).db;
      && db'.nodes == db.nodes && db'.records == db.records
      && db'.created == db.created && db'.cleared == db.cleared
  {
    hide RetryLoop;
  }

  /** An id that is gone stays gone: ids are never given out again. */
  lemma GoneStays(w: World, step: Step, config: Config, node: NodeId)
    requires Gone(w, node)
    ensures Gone(Apply(w, step, config), node)
  {
    hide SyncRecord, RetryPending, WithoutLogsOf, FailAll, FindNode;
    NotFoundIff(w.db.nodes, node);
    match step.action
    case Put(record, data, snapshot, lookup, net) =>
      var db := w.db.(records := w.db.records + {record});
      SyncKeepsNodes(db, w.blobs[record := data], w.standby, record, snapshot, lookup, net, config);
    case Sync(record, snapshot, lookup, net) =>
      SyncKeepsNodes(w.db, w.blobs, w.standby, record, snapshot, lookup, net, config);
    case Register(id, endpoint) =>
      NotFoundIff(w.db.nodes + [Node(id, endpoint, Active)], node);
    case Retry(limit, net) =>
      RetryKeepsNodes(w.db, w.blobs, w.standby, limit, net, config);
    case UnregisterNode(id) =>
      NotFoundIff(WithoutNode(w.db.nodes, id), node);
    case Health(healthy) =>
      NotFoundIff(HealthCheck(w.db, healthy).nodes, node);
    case _ =>
  }

  lemma NotFoundIff(nodes: seq<Node>, node: NodeId)
    ensures FindNode(nodes, node).None? <==> forall n :: n in nodes ==> n.id != node
  {
  }

  /** A row of a node that is gone is left exactly as it is by every step but a reset. */
  lemma StrandedRowStays(w: World, step: Step, config: Config, log: Log)
    requires Injective(config.checksum) && Inv(w, config) && Gone(w, log.core.node)
    requires log in w.db.logs && step.action != Reset(log.core.node)
    ensures log in Apply(w, step, config).db.logs
  {
    hide Accounted, CoresOk, StandbysOk, AckedHeld, SyncRecord, RetryPending, WithoutLogsOf, Injective;
    var i :| 0 <= i < |w.db.logs| && w.db.logs[i] == log;
    match step.action
    case Put(record, data, snapshot, lookup, net) =>
      var db := w.db.(records := w.db.records + {record});
      AccountedIgnoresRecords(w.db, db.records);
      SyncKeepsRow(db, w.blobs[record := data], w.standby, record, snapshot, lookup, net, config, log);
    case Sync(record, snapshot, lookup, net) =>
      SyncKeepsRow(w.db, w.blobs, w.standby, record, snapshot, lookup, net, config, log);
    case Retry(limit, net) =>
      assert Ordered(w.db.logs) by {
        AccountedOrdered(w.db);
      }
      if !RetryPending(w.db, w.blobs, w.standby, limit, net, config).raised {
        RetryOutcome(w.db, w.blobs, w.standby, limit, net, config, i);
      }
    case Reset(node) =>
      ResetMembers(w.db.logs, node);
    case UnregisterNode(node) =>
      assert FailAll(w.db.logs, node)[i] == log;
    case _ =>
  }

  lemma AccountedOrdered(db: Db)
    ensures Accounted(db) ==> Ordered(db.logs)
  {
  }

  lemma {:induction false} StrandedRowStaysOnRun(w: World, steps: seq<Step>, config: Config, log: Log)
    requires Injective(config.checksum) && Inv(w, config) && Gone(w, log.core.node)
    requires log in w.db.logs && NeverReset(steps, log.core.node)
    ensures log in Run(w, steps, config).db.logs
    decreases |steps|
  {
    hide Apply, Inv, Injective, Gone, NeverReset;
    if steps != [] {
      NeverResetTail(steps, log.core.node);
      StrandedRowStays(w, steps[0], config, log);
      GoneStays(w, steps[0], config, log.core.node);
      StepKeepsInv(w, steps[0], config);
      StrandedRowStaysOnRun(Apply(w, steps[0], config), steps[1..], config, log);
    }
  }

  /** In a good state no row is pending or sent, so that unregistering a node removes the node and
    changes no row; and from then on its rows are never touched again, so that a failed one stays
    failed and never becomes a dead letter, until a reset deletes it. */
  lemma {:induction false} UnregisterStrandsRows(w: World, node: NodeId, steps: seq<Step>, config: Config)
    requires Injective(config.checksum) && Inv(w, config) && Unregister(w.db, node).Some?
    requires NeverReset(steps, node)
    ensures var w' := Apply(w, Step(UnregisterNode(node), true), config);
      && w'.db.logs == w.db.logs
      && forall l :: l in w.db.logs && l.core.node == node ==> l in Run(w', steps, config).db.logs
  {
    hide Accounted, StandbysOk, AckedHeld, Injective, Run, CoreOk;
    var step := Step(UnregisterNode(node), true);
    var w' := Apply(w, step, config);
    assert forall i :: 0 <= i < |w.db.logs| ==> w.db.logs[i] in w.db.logs;
    assert w'.db.logs == w.db.logs;
    assert Gone(w', node) by {
      NotFoundIff(WithoutNode(w.db.nodes, node), node);
    }
    assert Inv(w', config) by {
      StepKeepsInv(w, step, config);
    }
    forall l | l in w.db.logs && l.core.node == node ensures l in Run(w', steps, config).db.logs {
      StrandedRowStaysOnRun(w', steps, config, l);
    }
  }

  /// Resets

  /** Ids that a reset has cleared stay cleared. */
  lemma ClearedStays(w: World, step: Step, config: Config)
    ensures w.db.cleared <= Apply(w, step, config).db.cleared
  {
    hide SyncRecord, RetryPending, WithoutLogsOf, HealthCheck, Unregister;
    match step.action
    case Put(record, data, snapshot, lookup, net) =>
      var db := w.db.(records := w.db.records + {record});
      SyncKeepsNodes(db, w.blobs[record := data], w.standby, record, snapshot, lookup, net, config);
    case Sync(record, snapshot, lookup, net) =>
      SyncKeepsNodes(w.db, w.blobs, w.standby, record, snapshot, lookup, net, config);
    case Retry(limit, net) =>
      RetryKeepsNodes(w.db, w.blobs, w.standby, limit, net, config);
    case Health(healthy) =>
      HealthEffect(w.db, healthy);
    case UnregisterNode(node) =>
      UnregisterEffect(w.db, node);
    case _ =>
  }

  lemma {:induction false} RunKeepsCleared(w: World, steps: seq<Step>, config: Config)
    ensures w.db.cleared <= Run(w, steps, config).db.cleared
    decreases |steps|
  {
    if steps != [] {
      hide Apply;
      ClearedStays(w, steps[0], config);
      RunKeepsCleared(Apply(w, steps[0], config), steps[1..], config);
    }
  }

  /** What a committed reset has deleted is gone for good: whatever later steps do, none of the rows that the
    node had is ever live or a dead letter again. */
  lemma {:induction false} ResetIsForGood(w: World, node: NodeId, steps: seq<Step>, config: Config, log: Log)
    requires Injective(config.checksum) && Inv(w, config) && log in w.db.logs && log.core.node == node
    ensures var w' := Run(Apply(w, Step(Reset(node), true), config), steps, config);
      && (forall l :: l in w'.db.logs ==> l.id != log.id)
      && (forall d :: d in w'.db.dead ==> d.origin != log.id)
  {
    hide Run, Injective, ResetSync, CoresOk, StandbysOk, AckedHeld, RetriesLeft;
    var step := Step(Reset(node), true);
    var w1 := Apply(w, step, config);
    var _ := ResetEffect(w.db, node);
    assert log.id in w1.db.cleared;
    StepKeepsInv(w, step, config);
    RunKeepsInv(w1, steps, config);
    RunKeepsCleared(w1, steps, config);
  }

  /// Commits and purges

  lemma UncommittedKeepsTables(w: World, action: Action, config: Config)
    ensures Apply(w, Step(action, false), config).db == w.db
  {
    hide SyncRecord, RetryPending, ResetSync, HealthCheck, Unregister;
  }

  /** A request that is not committed leaves the tables as they were; what it did to blobs and standbys is what
    it does when it is committed. */
  lemma RollbackIsOfTablesOnly(w: World, action: Action, config: Config)
    ensures var w', w'' := Apply(w, Step(action, false), config), Apply(w, Step(action, true), config);
      w'.db == w.db && w' == w''.(db := w.db)
  {
    hide SyncRecord, RetryPending, ResetSync, HealthCheck, Unregister;
    UncommittedKeepsTables(w, action, config);
  }

  /** Registering a new id adds an active node with that endpoint; an id that was used before is refused. */
  lemma RegisterEffect(w: World, node: NodeId, endpoint: Endpoint, config: Config)
    ensures var w' := Apply(w, Step(Register(node, endpoint), true), config);
      if node in w.endpoints then w' == w
      else
        && w'.db == w.db.(nodes := w.db.nodes + [Node(node, endpoint, Active)])
        && w'.endpoints == w.endpoints[node := endpoint]
        && w'.standby == w.standby && w'.blobs == w.blobs
  {
  }

  /** A put of a new id writes its blob at once; its record appears with the commit unless the sync raises,
    and then the standbys hold what the sync brought them. */
  lemma PutEffect(w: World, record: RecordId, data: Bytes, snapshot: string, lookup: Lookup, net: seq<Net>,
                  config: Config)
    ensures var w' := Apply(w, Step(Put(record, data, snapshot, lookup, net), true), config);
      if record in w.written then w' == w
      else
        && w'.blobs == w.blobs[record := data] && w'.written == w.written[record := data]
        && var sync := SyncRecord(w.db.(records := w.db.records + {record}), w'.blobs, w.standby, record, snapshot,
                                  lookup, net, config);
           && w'.standby == sync.standby
           && (sync.raised ==> w'.db == w.db)
           && (!sync.raised ==> w'.db == sync.db && record in w'.db.records)
  {
    hide SyncRecord;
    var db := w.db.(records := w.db.records + {record});
    SyncKeepsNodes(db, w.blobs[record := data], w.standby, record, snapshot, lookup, net, config);
  }

  /** A sync of a stored record is taken over with the commit unless it raises; what it brought the standbys
    stays in either case. A record that is not stored is not synced. */
  lemma SyncEffect(w: World, record: RecordId, snapshot: string, lookup: Lookup, net: seq<Net>, commit: bool,
                   config: Config)
    ensures var w' := Apply(w, Step(Sync(record, snapshot, lookup, net), commit), config);
      if record !in w.db.records then w' == w
      else
        var sync := SyncRecord(w.db, w.blobs, w.standby, record, snapshot, lookup, net, config);
        w' == w.(standby := sync.standby, db := if sync.raised || !commit then w.db else sync.db)
  {
    hide SyncRecord;
  }

  /** A committed health check sets every node that is not disabled to what its ping says, and does no more. */
  lemma HealthCheckEffect(w: World, healthy: set<NodeId>, config: Config)
    ensures var w' := Apply(w, Step(Health(healthy), true), config);
      && w' == w.(db := w.db.(nodes := w'.db.nodes)) && |w'.db.nodes| == |w.db.nodes|
      && forall i :: 0 <= i < |w.db.nodes| ==>
           var status := if w.db.nodes[i].status == Disabled then Disabled
                         else if w.db.nodes[i].id in healthy then Active else Unhealthy;
           w'.db.nodes[i] == w.db.nodes[i].(status := status)
  {
    HealthEffect(w.db, healthy);
  }

  /** A purge of a record removes its blob, and if it is committed its row in the records. */
  lemma PurgeEffect(w: World, record: RecordId, commit: bool, config: Config)
    requires record in w.db.records
    ensures var w' := Apply(w, Step(Purge(record), commit), config);
      && w'.blobs == w.blobs - {record}
      && w'.db.records == (if commit then w.db.records - {record} else w.db.records)
      && w' == w.(blobs := w'.blobs, db := w.db.(records := w'.db.records))
  {
  }

  /// The sequence query as it is written

  /** Two rows are acked and some node is active. */
  ghost predicate Jammed(w: World) {
    && (exists a, b :: a in w.db.logs && b in w.db.logs && a != b && a.status == Acked && b.status == Acked)
    && (exists n :: n in w.db.nodes && n.status == Active)
  }

  /** The requests of everyday use, with the sequence query as it is written. */
  predicate Everyday(step: Step) {
    match step.action
    case Put(_, _, _, lookup, _) => lookup == AsWritten
    case Sync(_, _, lookup, _) => lookup == AsWritten
    case Purge(_) => true
    case Register(_, _) => true
    case Retry(_, _) => true
    case _ => false
  }

  lemma JammedSyncRaises(w: World, step: Step, config: Config)
    requires Jammed(w) && Everyday(step) && (step.action.Put? || step.action.Sync?)
    ensures Apply(w, step, config).db == w.db
  {
    hide SyncRecord;
    match step.action
    case Put(record, data, snapshot, lookup, net) =>
      var db := w.db.(records := w.db.records + {record});
      SyncRaisesIff(db, w.blobs[record := data], w.standby, record, snapshot, lookup, net, config);
    case Sync(record, snapshot, lookup, net) =>
      SyncRaisesIff(w.db, w.blobs, w.standby, record, snapshot, lookup, net, config);
  }

  lemma OtherStepKeeps(w: World, step: Step, config: Config)
    requires Everyday(step) && !step.action.Put? && !step.action.Sync?
    ensures var db' := Apply(w, step, config).db;
      db'.created == w.db.created && db'.records <= w.db.records && forall n :: n in w.db.nodes ==> n in db'.nodes
  {
    hide RetryPending, SyncRecord, Unregister, HealthCheck, ResetSync;
    match step.action
    case Retry(limit, net) =>
      RetryKeepsNodes(w.db, w.blobs, w.standby, limit, net, config);
    case _ =>
  }

  lemma JammedStep(w: World, step: Step, config: Config)
    requires Injective(config.checksum) && Inv(w, config) && Jammed(w) && Everyday(step)
    ensures var w' := Apply(w, step, config);
      Jammed(w') && w'.db.created == w.db.created && w'.db.records <= w.db.records
  {
    hide Inv, Injective, Apply;
    if step.action.Put? || step.action.Sync? {
      JammedSyncRaises(w, step, config);
    } else {
      OtherStepKeeps(w, step, config);
      var a, b :| a in w.db.logs && b in w.db.logs && a != b && a.status == Acked && b.status == Acked;
      AckedStays(w, step, config, a);
      AckedStays(w, step, config, b);
    }
  }

  /** With the query as written, no record is ever stored again from then on, and no row made: every put
    and every sync raises, whatever else happens, until a reset, an unregistering or a health check. */
  lemma {:induction false} JammedForGood(w: World, steps: seq<Step>, config: Config)
    requires Injective(config.checksum) && Inv(w, config) && Jammed(w)
    requires forall i :: 0 <= i < |steps| ==> Everyday(steps[i])
    ensures var w' := Run(w, steps, config);
      Jammed(w') && w'.db.created == w.db.created && w'.db.records <= w.db.records
    decreases |steps|
  {
    hide Apply, Inv, Injective, Jammed, Everyday;
    if steps != [] {
      JammedStep(w, steps[0], config);
      StepKeepsInv(w, steps[0], config);
      assert forall i :: 0 <= i < |steps[1..]| ==> steps[1..][i] == steps[i + 1];
      JammedForGood(Apply(w, steps[0], config), steps[1..], config);
    }
  }

  /// Runs that get there

  lemma RunOne(w: World, step: Step, config: Config)
    ensures Run(w, [step], config) == Apply(w, step, config)
  {
    assert [step][1..] == [];
  }

  lemma {:induction false} RunCons(w: World, step: Step, steps: seq<Step>, config: Config)
    ensures Run(w, [step] + steps, config) == Run(Apply(w, step, config), steps, config)
  {
    assert ([step] + steps)[1..] == steps;
  }

  /** The nodes a and b, registered in this order. */
  function TwoNodes(a: NodeId, e: Endpoint, b: NodeId, f: Endpoint): seq<Step> {
    [Step(Register(a, e), true), Step(Register(b, f), true)]
  }

  lemma AfterTwoNodes(a: NodeId, e: Endpoint, b: NodeId, f: Endpoint, config: Config)
    requires a != b
    ensures var w := Run(EMPTY, TwoNodes(a, e, b, f), config);
      && w.db == EMPTY.db.(nodes := [Node(a, e, Active), Node(b, f, Active)])
      && w.written == map[] && w.blobs == map[]
  {
    var one, two := Step(Register(a, e), true), Step(Register(b, f), true);
    assert TwoNodes(a, e, b, f) == [one] + [two];
    RunCons(EMPTY, one, [two], config);
    RunOne(Apply(EMPTY, one, config), two, config);
  }

  lemma TwoActive(a: Node, b: Node)
    requires a.status == Active && b.status == Active
    ensures ActiveNodes([a, b]) == [a, b]
  {
    assert [a][..0] == [] && ActiveNodes([a]) == [a];
    assert [a, b][..1] == [a];
  }

  /** Two standbys and one put that both acknowledge are enough. */
  lemma TwoNodesJam(a: NodeId, e: Endpoint, b: NodeId, f: Endpoint, record: RecordId, data: Bytes, snapshot: string,
                    config: Config)
    requires Injective(config.checksum) && a != b
    ensures var net := [Delivered(data, true), Delivered(data, true)];
      var w := Run(EMPTY, TwoNodes(a, e, b, f), config);
      Jammed(Apply(w, Step(Put(record, data, snapshot, AsWritten, net), true), config))
  {
    hide Run, SyncRecord, ActiveNodes, Injective;
    var net := [Delivered(data, true), Delivered(data, true)];
    var w := Run(EMPTY, TwoNodes(a, e, b, f), config);
    AfterTwoNodes(a, e, b, f, config);
    TwoActive(w.db.nodes[0], w.db.nodes[1]);
    var db, blobs := w.db.(records := w.db.records + {record}), w.blobs[record := data];
    SyncOutcome(db, blobs, w.standby, record, snapshot, AsWritten, net, config);
    SyncKeepsNodes(db, blobs, w.standby, record, snapshot, AsWritten, net, config);
    var db' := SyncRecord(db, blobs, w.standby, record, snapshot, AsWritten, net, config).db;
    assert db'.nodes[0] in db'.nodes && db'.nodes[0].status == Active;
    var targets := ActiveNodes(db.nodes);
    var x := AttemptAt(db, targets, 0, record, data, snapshot, MaxNumber(db.logs), net, config);
    var y := AttemptAt(db, targets, 1, record, data, snapshot, MaxNumber(db.logs), net, config);
    assert Log(x.id, x.core, Acked, 0) in db'.logs && Log(y.id, y.core, Acked, 0) in db'.logs;
  }

  /** A put whose push is lost, the soft delete of the record, which syncs it once more, and a purge that is
    rolled back stall the retries, whatever becomes of the second push. */
  lemma StallIsReachable(a: NodeId, e: Endpoint, record: RecordId, data: Bytes, snapshot: string, lookup: Lookup,
                         snapshot': string, lookup': Lookup, net: seq<Net>, limit: nat, config: Config)
    requires Injective(config.checksum) && config.retryMax >= 2 && limit >= 2
    ensures var steps := [Step(Register(a, e), true)] + [Step(Put(record, data, snapshot, lookup, [Lost]), true)]
                         + [Step(Sync(record, snapshot', lookup', net), true)] + [Step(Purge(record), false)];
      var w := Run(EMPTY, steps, config);
      Stalled(w.db, w.blobs, limit)
  {
    var one, two := Step(Register(a, e), true), Step(Put(record, data, snapshot, lookup, [Lost]), true);
    var three, four := Step(Sync(record, snapshot', lookup', net), true), Step(Purge(record), false);
    var w1 := Apply(EMPTY, one, config);
    var w2 := Apply(w1, two, config);
    var w3 := Apply(w2, three, config);
    RunFour(one, two, three, four, config);
    assert w1.db == EMPTY.db.(nodes := [Node(a, e, Active)]) && w1.written == map[];
    var l := LostPut(w1, Node(a, e, Active), record, data, snapshot, lookup, config);
    assert Inv(w2, config) by {
      Reachable([], config);
      StepKeepsInv(EMPTY, one, config);
      StepKeepsInv(w1, two, config);
    }
    DeleteSyncKeeps(w2, record, snapshot', lookup', net, config, l);
    PurgeLeavesStall(w3, Node(a, e, Active), l, limit, config);
  }

  lemma RunFour(one: Step, two: Step, three: Step, four: Step, config: Config)
    ensures Run(EMPTY, [one] + [two] + [three] + [four], config)
         == Apply(Apply(Apply(Apply(EMPTY, one, config), two, config), three, config), four, config)
  {
    hide Apply;
    var w1 := Apply(EMPTY, one, config);
    var w2 := Apply(w1, two, config);
    assert [one] + [two] + [three] + [four] == [one] + ([two] + ([three] + [four]));
    RunCons(EMPTY, one, [two] + ([three] + [four]), config);
    RunCons(w1, two, [three] + [four], config);
    RunCons(w2, three, [four], config);
    RunOne(Apply(w2, three, config), four, config);
  }

  lemma DeleteSyncKeeps(w: World, record: RecordId, snapshot: string, lookup: Lookup, net: seq<Net>, config: Config,
                        l: Log)
    requires Inv(w, config) && l in w.db.logs
    ensures var w' := Apply(w, Step(Sync(record, snapshot, lookup, net), true), config);
      l in w'.db.logs && w'.db.nodes == w.db.nodes && w'.db.records == w.db.records
  {
    hide SyncRecord, Accounted, RetriesLeft, CoresOk, StandbysOk, AckedHeld;
    SyncKeepsRow(w.db, w.blobs, w.standby, record, snapshot, lookup, net, config, l);
    SyncKeepsNodes(w.db, w.blobs, w.standby, record, snapshot, lookup, net, config);
  }

  lemma PurgeLeavesStall(w: World, node: Node, l: Log, limit: nat, config: Config)
    requires w.db.nodes == [node] && node.status == Active && l in w.db.logs && l.core.node == node.id
    requires l.status == Failed && l.retries < limit && l.core.record in w.db.records
    ensures var w' := Apply(w, Step(Purge(l.core.record), false), config);
      Stalled(w'.db, w'.blobs, limit)
  {
    var w' := Apply(w, Step(Purge(l.core.record), false), config);
    assert NodeActive(w'.db, node.id);
    assert Stalls(w'.db, w'.blobs, limit, l);
  }

  lemma LostPut(w: World, node: Node, record: RecordId, data: Bytes, snapshot: string, lookup: Lookup, config: Config)
    returns (l: Log)
    requires Injective(config.checksum) && config.retryMax >= 2 && node.status == Active
    requires w.db.nodes == [node] && w.db.logs == [] && record !in w.written
    ensures var db' := Apply(w, Step(Put(record, data, snapshot, lookup, [Lost]), true), config).db;
      && db'.nodes == [node] && record in db'.records
      && l in db'.logs && l.status == Failed && l.retries == 1 && l.core.node == node.id && l.core.record == record
  {
    hide SyncRecord, Injective;
    var db, blobs := w.db.(records := w.db.records + {record}), w.blobs[record := data];
    assert [node][..0] == [];
    assert ActiveNodes(db.nodes) == [node];
    SyncOutcome(db, blobs, w.standby, record, snapshot, lookup, [Lost], config);
    SyncKeepsNodes(db, blobs, w.standby, record, snapshot, lookup, [Lost], config);
    var a := AttemptAt(db, [node], 0, record, data, snapshot, MaxNumber(db.logs), [Lost], config);
    l := Log(a.id, a.core, Failed, 1);
  }
}
