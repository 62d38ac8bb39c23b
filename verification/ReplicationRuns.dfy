/** Runs of the primary, its standbys and the network: what holds in every reachable state.

  Each request is one transaction. A step that is not committed, or that raises, leaves the tables
  as they were, but the standbys keep what reached them: HTTP pushes do not roll back.
 */
module ReplicationRuns {
  import opened Replication

  /** The fields endpoints and written are history: every node ever registered, and the ciphertext
    that was written for each record id. */
  datatype World = World(
    db: Db,
    blobs: map<RecordId, Bytes>,
    standby: Standbys,
    endpoints: map<NodeId, Endpoint>,
    written: map<RecordId, Bytes>)

  datatype Action =
    | Put(record: RecordId, data: Bytes, snapshot: string, lookup: Lookup, net: seq<Net>)
    | Sync(record: RecordId, snapshot: string, lookup: Lookup, net: seq<Net>)
    | Purge(record: RecordId)
    | Register(node: NodeId, endpoint: Endpoint)
    | UnregisterNode(node: NodeId)
    | Health(healthy: set<NodeId>)
    | Retry(limit: nat, net: seq<Net>)
    | Reset(node: NodeId)

  datatype Step = Step(action: Action, commit: bool)

  const EMPTY := World(Db([], {}, [], [], 0, map[], {}), map[], map[], map[], map[])

  /** The end of a request. */
  function Finish(w: World, outcome: Outcome, commit: bool): World {
    w.(db := if commit && !outcome.raised then outcome.db else w.db, standby := outcome.standby)
  }

  /** Record and node ids are random UUIDs: an id that was drawn before changes nothing. */
  function Apply(w: World, step: Step, config: Config): World {
    match step.action
    case Put(record, data, snapshot, lookup, net) =>
      if record in w.written then w
      else
        var w' := w.(blobs := w.blobs[record := data], written := w.written[record := data]);
        var db := w.db.(records := w.db.records + {record});
        Finish(w', SyncRecord(db, w'.blobs, w'.standby, record, snapshot, lookup, net, config), step.commit)
    case Sync(record, snapshot, lookup, net) =>
      if record !in w.db.records then w
      else Finish(w, SyncRecord(w.db, w.blobs, w.standby, record, snapshot, lookup, net, config), step.commit)
    case Purge(record) =>
      if record !in w.db.records then w
      else
        Finish(w.(blobs := w.blobs - {record}),
               Outcome(w.db.(records := w.db.records - {record}), w.standby, false), step.commit)
    case Register(node, endpoint) =>
      if node in w.endpoints then w
      else
        Finish(w.(endpoints := w.endpoints[node := endpoint]),
               Outcome(w.db.(nodes := w.db.nodes + [Node(node, endpoint, Active)]), w.standby, false), step.commit)
    case UnregisterNode(node) =>
      var db := Unregister(w.db, node);
      if db.None? then w else Finish(w, Outcome(db.value, w.standby, false), step.commit)
    case Health(healthy) =>
      Finish(w, Outcome(HealthCheck(w.db, healthy), w.standby, false), step.commit)
    case Retry(limit, net) =>
      Finish(w, RetryPending(w.db, w.blobs, w.standby, limit, net, config), step.commit)
    case Reset(node) =>
      Finish(w, Outcome(ResetSync(w.db, node), w.standby, false), step.commit)
  }

  function Run(w: World, steps: seq<Step>, config: Config): World
    decreases |steps|
  {
    if steps == [] then w else Run(Apply(w, steps[0], config), steps[1..], config)
  }

  /// The invariant

  function Ids(logs: seq<Log>): set<nat> {
    set l | l in logs :: l.id
  }

  function Origins(dead: seq<DeadLetter>): set<nat> {
    set d | d in dead :: d.origin
  }

  /** Rows stand in the order of their ids and of their sequence numbers, without repetition. */
  ghost predicate Ordered(logs: seq<Log>) {
    forall i, j :: 0 <= i < j < |logs| ==> logs[i].id < logs[j].id && logs[i].core.number < logs[j].core.number
  }

  ghost predicate Unrepeated(dead: seq<DeadLetter>) {
    forall i, j :: 0 <= i < j < |dead| ==> dead[i].origin != dead[j].origin
  }

  /** Every row ever created is in exactly one of the live table, the dead-letter table and the set
    of rows cleared by a reset, and its core is the one it was created with. */
  ghost predicate Accounted(db: Db) {
    && Ordered(db.logs)
    && Unrepeated(db.dead)
    && Ids(db.logs) !! Origins(db.dead) !! db.cleared
    && db.created.Keys == Ids(db.logs) + Origins(db.dead) + db.cleared
    && (forall id :: id in db.created ==> id < db.nextId)
    && (forall l :: l in db.logs ==> l.id in db.created && db.created[l.id] == l.core)
    && (forall d :: d in db.dead ==> d.origin in db.created && db.created[d.origin] == d.core)
  }

  /** Every row has been pushed and is acked or failed; a failed row has been tried at least once, and
    unless it was touched in this operation it has retries left. */
  ghost predicate RetriesLeft(logs: seq<Log>, touched: set<nat>, retryMax: nat) {
    forall l :: l in logs ==>
      && (l.status == Acked || l.status == Failed)
      && (l.status == Failed ==> l.retries >= 1)
      && (l.status == Failed && l.id !in touched ==> l.retries < retryMax)
  }

  ghost predicate CoreOk(core: Core, endpoints: map<NodeId, Endpoint>, written: map<RecordId, Bytes>, config: Config) {
    && core.node in endpoints
    && core.record in written
    && core.checksum == config.checksum(written[core.record])
  }

  ghost predicate NodesUnique(nodes: seq<Node>) {
    forall i, j :: 0 <= i < j < |nodes| ==> nodes[i].id != nodes[j].id
  }

  ghost predicate CoresOk(db: Db, endpoints: map<NodeId, Endpoint>, written: map<RecordId, Bytes>, config: Config) {
    && (forall id :: id in db.created ==> CoreOk(db.created[id], endpoints, written, config))
    && (forall n :: n in db.nodes ==> n.id in endpoints && endpoints[n.id] == n.endpoint)
    && NodesUnique(db.nodes)
  }

  /** A standby holds no bytes for a record but the ciphertext that the primary wrote. */
  ghost predicate StandbysOk(standby: Standbys, written: map<RecordId, Bytes>) {
    forall e, r :: e in standby && r in standby[e] ==> r in written && standby[e][r] == written[r]
  }

  predicate Holds(standby: Standbys, endpoint: Endpoint, record: RecordId, data: Bytes) {
    endpoint in standby && record in standby[endpoint] && standby[endpoint][record] == data
  }

  ghost predicate AckedHeld(logs: seq<Log>, standby: Standbys, endpoints: map<NodeId, Endpoint>,
                            written: map<RecordId, Bytes>)
  {
    forall l :: l in logs && l.status == Acked ==>
      && l.core.node in endpoints
      && l.core.record in written
      && Holds(standby, endpoints[l.core.node], l.core.record, written[l.core.record])
  }

  ghost predicate Inv(w: World, config: Config) {
    && Accounted(w.db)
    && RetriesLeft(w.db.logs, {}, config.retryMax)
    && CoresOk(w.db, w.endpoints, w.written, config)
    && BlobsOk(w.blobs, w.written)
    && StandbysOk(w.standby, w.written)
    && AckedHeld(w.db.logs, w.standby, w.endpoints, w.written)
  }

  /** What a standby holds rightly it goes on holding. */
  ghost predicate Grows(standby: Standbys, standby': Standbys, written: map<RecordId, Bytes>) {
    forall e, r :: r in written && Holds(standby, e, r, written[r]) ==> Holds(standby', e, r, written[r])
  }

  /// Pushes

  /** A push only ever adds the right bytes, and an acknowledgement means they are there. */
  lemma {:induction false} PushIsSafe(standby: Standbys, endpoint: Endpoint, record: RecordId, data: Bytes, net: Net,
                                      config: Config, written: map<RecordId, Bytes>)
    requires Injective(config.checksum) && StandbysOk(standby, written)
    requires record in written && written[record] == data
    ensures var (standby', ok) := Push(standby, endpoint, record, data, net, config);
      && StandbysOk(standby', written)
      && (ok ==> Holds(standby', endpoint, record, data))
      && Grows(standby, standby', written)
  {
  }

  /** A push of bytes that the standby holds already changes nothing, whatever arrives. */
  lemma RepeatedPush(standby: Standbys, endpoint: Endpoint, record: RecordId, data: Bytes, net: Net, config: Config)
    requires Injective(config.checksum) && Holds(standby, endpoint, record, data)
    ensures Push(standby, endpoint, record, data, net, config).0 == standby
  {
    match net
    case Lost =>
    case Delivered(arrived, _) =>
      if config.checksum(arrived) == config.checksum(data) {
        assert StoreOf(standby, endpoint)[record := arrived] == standby[endpoint];
      }
  }

  /// Dead letters

  lemma {:induction false} KeptMembers(logs: seq<Log>, touched: set<nat>, retryMax: nat)
    ensures forall l :: l in Kept(logs, touched, retryMax) <==> l in logs && !Doomed(l, touched, retryMax)
    ensures forall d :: d in Letters(logs, touched, retryMax) <==>
              exists l :: l in logs && Doomed(l, touched, retryMax) && d == DeadLetter(l.id, l.core)
  {
    if logs != [] {
      var n := |logs| - 1;
      KeptMembers(logs[..n], touched, retryMax);
      assert logs == logs[..n] + [logs[n]];
    }
  }

  lemma OrderedAppend(logs: seq<Log>, last: Log)
    requires Ordered(logs)
    requires forall l :: l in logs ==> l.id < last.id && l.core.number < last.core.number
    ensures Ordered(logs + [last])
  {
    assert forall i :: 0 <= i < |logs| ==> logs[i] in logs;
  }

  lemma UnrepeatedAppend(dead: seq<DeadLetter>, last: DeadLetter)
    requires Unrepeated(dead)
    requires forall d :: d in dead ==> d.origin != last.origin
    ensures Unrepeated(dead + [last])
  {
    assert forall i :: 0 <= i < |dead| ==> dead[i] in dead;
  }

  lemma {:induction false} KeptOrdered(logs: seq<Log>, touched: set<nat>, retryMax: nat)
    requires Ordered(logs)
    ensures Ordered(Kept(logs, touched, retryMax))
    ensures Unrepeated(Letters(logs, touched, retryMax))
  {
    if logs != [] {
      var n := |logs| - 1;
      var init, last := logs[..n], logs[n];
      KeptOrdered(init, touched, retryMax);
      KeptMembers(init, touched, retryMax);
      assert forall l :: l in init ==> l.id < last.id && l.core.number < last.core.number;
      if Doomed(last, touched, retryMax) {
        UnrepeatedAppend(Letters(init, touched, retryMax), DeadLetter(last.id, last.core));
      } else {
        OrderedAppend(Kept(init, touched, retryMax), last);
      }
    }
  }

  lemma OrderedIdsUnique(logs: seq<Log>, l: Log, l': Log)
    requires Ordered(logs) && l in logs && l' in logs && l.id == l'.id
    ensures l == l'
  {
    var i :| 0 <= i < |logs| && logs[i] == l;
    var j :| 0 <= j < |logs| && logs[j] == l';
    assert i < j || j < i || i == j;
  }

  /** The dead-letter step keeps every row accounted for and leaves no used-up row behind. */
  lemma {:induction false} DeadLettersKeep(db: Db, touched: set<nat>, config: Config)
    requires Accounted(db) && RetriesLeft(db.logs, touched, config.retryMax)
    ensures Accounted(ProcessDeadLetter(db, touched, config.retryMax))
    ensures RetriesLeft(Kept(db.logs, touched, config.retryMax), {}, config.retryMax)
  {
    var m := config.retryMax;
    var logs, letters := Kept(db.logs, touched, m), Letters(db.logs, touched, m);
    KeptMembers(db.logs, touched, m);
    KeptOrdered(db.logs, touched, m);
    forall l, d | l in logs && d in letters ensures l.id != d.origin {
      var l' :| l' in db.logs && Doomed(l', touched, m) && d == DeadLetter(l'.id, l'.core);
      if l.id == l'.id {
        OrderedIdsUnique(db.logs, l, l');
        assert false;
      }
    }
    assert Ids(logs) !! Origins(letters);
    assert Ids(logs) + Origins(letters) == Ids(db.logs) by {
      forall l | l in db.logs ensures l.id in Ids(logs) + Origins(letters) {
        if Doomed(l, touched, m) {
          assert DeadLetter(l.id, l.core) in letters;
        }
      }
    }
    var dead := db.dead + letters;
    assert Origins(dead) == Origins(db.dead) + Origins(letters);
    forall i, j | 0 <= i < j < |dead| ensures dead[i].origin != dead[j].origin {
      if i < |db.dead| <= j {
        assert dead[i] in db.dead && dead[j] in letters;
        assert dead[i].origin in Origins(db.dead) && dead[j].origin in Origins(letters);
      }
    }
  }

  /// Sync

  /** The highest live number, or 0 when there is no row. */
  lemma {:induction false} MaxNumberBounds(logs: seq<Log>)
    ensures forall l :: l in logs ==> l.core.number <= MaxNumber(logs)
    ensures MaxNumber(logs) == 0 || exists l :: l in logs && l.core.number == MaxNumber(logs)
  {
    if logs != [] {
      var n := |logs| - 1;
      MaxNumberBounds(logs[..n]);
      assert logs == logs[..n] + [logs[n]];
    }
  }

  lemma InsertKeeps(db: Db, log: Log)
    requires Accounted(db) && log.id == db.nextId
    requires forall l :: l in db.logs ==> l.core.number < log.core.number
    ensures Accounted(Insert(db, log))
  {
    forall l | l in db.logs ensures l.id < log.id {
      assert l.id in db.created;
    }
    OrderedAppend(db.logs, log);
    assert Ids(db.logs + [log]) == Ids(db.logs) + {log.id};
    assert log.id !in db.created;
  }

  /** The state of a sync after some of its pushes. */
  ghost predicate MidSync(db: Db, db': Db, standby: Standbys, endpoints: map<NodeId, Endpoint>,
                          written: map<RecordId, Bytes>, last: nat, config: Config)
  {
    && Accounted(db')
    && CoresOk(db', endpoints, written, config)
    && StandbysOk(standby, written)
    && AckedHeld(db'.logs, standby, endpoints, written)
    && RetriesLeft(db'.logs, NewIds(db'.logs, db.nextId), config.retryMax)
    && (forall l :: l in db'.logs ==> l.core.number <= last)
    && db'.nextId >= db.nextId
    && db' == db.(logs := db'.logs, nextId := db'.nextId, created := db'.created)
    && db.logs <= db'.logs
    && Extends(db.created, db'.created)
  }

  lemma {:induction false} SyncStepKeeps(db: Db, db': Db, standby: Standbys, node: Node, record: RecordId, data: Bytes,
                                         snapshot: string, last: nat, net: Net, config: Config,
                                         endpoints: map<NodeId, Endpoint>, written: map<RecordId, Bytes>)
    requires Injective(config.checksum)
    requires MidSync(db, db', standby, endpoints, written, last, config)
    requires record in written && written[record] == data
    requires node.id in endpoints && endpoints[node.id] == node.endpoint
    ensures var (standby', ok) := Push(standby, node.endpoint, record, data, net, config);
      var core := Core(record, node.id, config.checksum(data), snapshot, last + 1);
      && MidSync(db, Insert(db', NewLog(db'.nextId, core, ok)), standby', endpoints, written, last + 1, config)
      && Grows(standby, standby', written)
  {
    var (standby', ok) := Push(standby, node.endpoint, record, data, net, config);
    var core := Core(record, node.id, config.checksum(data), snapshot, last + 1);
    var log := NewLog(db'.nextId, core, ok);
    hide Accounted, RetriesLeft, CoresOk, StandbysOk, AckedHeld, Push, Injective, NewIds;
    PushIsSafe(standby, node.endpoint, record, data, net, config, written);
    InsertKeeps(db', log);
    InsertKeepsCores(db', log, endpoints, written, config);
    AckedStaysHeld(db'.logs, log, standby, standby', endpoints, written);
    NewRowRetries(db'.logs, log, db.nextId, config.retryMax);
  }

  lemma InsertKeepsCores(db: Db, log: Log, endpoints: map<NodeId, Endpoint>, written: map<RecordId, Bytes>,
                         config: Config)
    requires Accounted(db) && log.id == db.nextId
    requires CoresOk(db, endpoints, written, config) && CoreOk(log.core, endpoints, written, config)
    ensures CoresOk(Insert(db, log), endpoints, written, config)
    ensures Extends(db.created, Insert(db, log).created)
  {
    hide CoreOk;
    assert forall id :: id in db.created ==> id != log.id;
  }

  lemma NewRowRetries(logs: seq<Log>, log: Log, first: nat, retryMax: nat)
    requires RetriesLeft(logs, NewIds(logs, first), retryMax)
    requires log.id >= first && (log.status == Acked || (log.status == Failed && log.retries >= 1))
    ensures RetriesLeft(logs + [log], NewIds(logs + [log], first), retryMax)
  {
    forall l | l in logs ensures l.id in NewIds(logs + [log], first) <==> l.id in NewIds(logs, first) {
      if l.id >= first {
        assert l in logs + [log];
      }
    }
    assert log in logs + [log];
  }

  lemma GrowsTransitive(a: Standbys, b: Standbys, c: Standbys, written: map<RecordId, Bytes>)
    ensures Grows(a, a, written)
    ensures Grows(a, b, written) && Grows(b, c, written) ==> Grows(a, c, written)
  {
  }

  lemma {:induction false} SyncLoopKeeps(db: Db, standby: Standbys, targets: seq<Node>, k: nat, record: RecordId,
                                         data: Bytes, snapshot: string, base: nat, net: seq<Net>, config: Config,
                                         endpoints: map<NodeId, Endpoint>, written: map<RecordId, Bytes>)
    requires Injective(config.checksum) && k <= |targets|
    requires MidSync(db, db, standby, endpoints, written, base, config)
    requires record in written && written[record] == data
    requires forall n :: n in targets ==> n.id in endpoints && endpoints[n.id] == n.endpoint
    ensures var (db', standby') := SyncLoop(db, standby, targets, k, record, data, snapshot, base, net, config);
      && MidSync(db, db', standby', endpoints, written, base + k, config)
      && Grows(standby, standby', written)
  {
    hide MidSync, Push, Insert, NewLog, CoreOk, Injective;
    if k == 0 {
      GrowsTransitive(standby, standby, standby, written);
    } else {
      SyncLoopKeeps(db, standby, targets, k - 1, record, data, snapshot, base, net, config, endpoints, written);
      var (db', standby') := SyncLoop(db, standby, targets, k - 1, record, data, snapshot, base, net, config);
      SyncStepKeeps(db, db', standby', targets[k - 1], record, data, snapshot, base + k - 1, NetAt(net, k - 1), config,
                    endpoints, written);
      var standby'' := Push(standby', targets[k - 1].endpoint, record, data, NetAt(net, k - 1), config).0;
      GrowsTransitive(standby, standby', standby'', written);
    }
  }

  /** The history of created rows only grows. */
  ghost predicate Extends(created: map<nat, Core>, created': map<nat, Core>) {
    forall id :: id in created ==> id in created' && created'[id] == created[id]
  }

  /** The parts of the invariant that an operation on the tables and the standbys must keep. */
  ghost predicate Good(db: Db, standby: Standbys, endpoints: map<NodeId, Endpoint>, written: map<RecordId, Bytes>,
                       config: Config)
  {
    && Accounted(db)
    && RetriesLeft(db.logs, {}, config.retryMax)
    && CoresOk(db, endpoints, written, config)
    && StandbysOk(standby, written)
    && AckedHeld(db.logs, standby, endpoints, written)
  }

  /** An operation keeps the invariant, only adds right bytes to the standbys, and forgets no row. */
  ghost predicate Kind(db: Db, standby: Standbys, outcome: Outcome, endpoints: map<NodeId, Endpoint>,
                       written: map<RecordId, Bytes>, config: Config)
  {
    && (!outcome.raised ==> Good(outcome.db, outcome.standby, endpoints, written, config))
    && (!outcome.raised ==> Extends(db.created, outcome.db.created))
    && StandbysOk(outcome.standby, written)
    && Grows(standby, outcome.standby, written)
  }

  ghost predicate BlobsOk(blobs: map<RecordId, Bytes>, written: map<RecordId, Bytes>) {
    forall r :: r in blobs ==> r in written && blobs[r] == written[r]
  }

  lemma SyncKeeps(db: Db, blobs: map<RecordId, Bytes>, standby: Standbys, record: RecordId, snapshot: string,
                  lookup: Lookup, net: seq<Net>, config: Config, endpoints: map<NodeId, Endpoint>,
                  written: map<RecordId, Bytes>)
    requires Injective(config.checksum) && Good(db, standby, endpoints, written, config) && BlobsOk(blobs, written)
    ensures Kind(db, standby, SyncRecord(db, blobs, standby, record, snapshot, lookup, net, config), endpoints, written,
                 config)
  {
    hide MidSync, Grows, SyncLoop, ProcessDeadLetter, Accounted, RetriesLeft, CoreOk, AckedHeld, Injective;
    var targets := ActiveNodes(db.nodes);
    GrowsTransitive(standby, standby, standby, written);
    if targets != [] && record in blobs && LastNumber(db.logs, lookup).Some? {
      var base, data := LastNumber(db.logs, lookup).value, blobs[record];
      MidSyncStart(db, standby, endpoints, written, config);
      SyncLoopKeeps(db, standby, targets, |targets|, record, data, snapshot, base, net, config, endpoints, written);
      var (db', standby') := SyncLoop(db, standby, targets, |targets|, record, data, snapshot, base, net, config);
      MidSyncEnd(db, db', standby', endpoints, written, base + |targets|, config);
    }
  }

  lemma MidSyncStart(db: Db, standby: Standbys, endpoints: map<NodeId, Endpoint>, written: map<RecordId, Bytes>,
                     config: Config)
    requires Good(db, standby, endpoints, written, config)
    ensures MidSync(db, db, standby, endpoints, written, MaxNumber(db.logs), config)
  {
    MaxNumberBounds(db.logs);
    NoNewIds(db);
  }

  lemma MidSyncEnd(db: Db, db': Db, standby: Standbys, endpoints: map<NodeId, Endpoint>, written: map<RecordId, Bytes>,
                   last: nat, config: Config)
    requires MidSync(db, db', standby, endpoints, written, last, config)
    ensures Extends(db.created, ProcessDeadLetter(db', NewIds(db'.logs, db.nextId), config.retryMax).created)
    ensures Good(ProcessDeadLetter(db', NewIds(db'.logs, db.nextId), config.retryMax), standby, endpoints, written,
                 config)
  {
    ProcessKeeps(db', standby, NewIds(db'.logs, db.nextId), endpoints, written, config);
  }

  lemma NoNewIds(db: Db)
    requires Accounted(db)
    ensures NewIds(db.logs, db.nextId) == {}
  {
  }

  /** The end of a sync and of a retry. */
  lemma ProcessKeeps(db: Db, standby: Standbys, touched: set<nat>, endpoints: map<NodeId, Endpoint>,
                     written: map<RecordId, Bytes>, config: Config)
    requires Accounted(db) && RetriesLeft(db.logs, touched, config.retryMax)
    requires CoresOk(db, endpoints, written, config) && StandbysOk(standby, written)
    requires AckedHeld(db.logs, standby, endpoints, written)
    ensures Good(ProcessDeadLetter(db, touched, config.retryMax), standby, endpoints, written, config)
  {
    DeadLettersKeep(db, touched, config);
    KeptMembers(db.logs, touched, config.retryMax);
  }

  /// Retry

  /** What a retry does to a row: the identity stays, a row that was pushed is acked or failed, any
    other row keeps its status or, from pending, fails. */
  ghost predicate RetriedRow(l: Log, l': Log, touched: set<nat>) {
    && l'.id == l.id
    && l'.core == l.core
    && if l.id in touched then (l'.status == Acked || l'.status == Failed) && l'.retries == l.retries + 1
       else l'.retries == l.retries && (l'.status == l.status || (l.status == Pending && l'.status == Failed))
  }

  ghost predicate MidRetry(db: Db, n: nat, standby: Standbys, t: Tried, endpoints: map<NodeId, Endpoint>,
                           written: map<RecordId, Bytes>)
    requires n <= |db.logs|
  {
    && StandbysOk(t.standby, written)
    && Grows(standby, t.standby, written)
    && (!t.raised ==>
          && |t.logs| == n
          && (forall i :: 0 <= i < n ==> RetriedRow(db.logs[i], t.logs[i], t.touched))
          && (forall id :: id in t.touched ==> exists i :: 0 <= i < n && db.logs[i].id == id)
          && AckedHeld(t.logs, t.standby, endpoints, written))
  }

  lemma {:induction false} RetryStepKeeps(db: Db, n: nat, blobs: map<RecordId, Bytes>, standby: Standbys, t: Tried,
                                          limit: nat, net: Net, config: Config, endpoints: map<NodeId, Endpoint>,
                                          written: map<RecordId, Bytes>)
    requires Injective(config.checksum) && BlobsOk(blobs, written) && n < |db.logs|
    requires Good(db, standby, endpoints, written, config)
    requires MidRetry(db, n, standby, t, endpoints, written)
    ensures MidRetry(db, n + 1, standby, RetryOne(t, db, blobs, db.logs[n], limit, net, config), endpoints, written)
  {
    var log := db.logs[n];
    var node := FindNode(db.nodes, log.core.node);
    var t' := RetryOne(t, db, blobs, log, limit, net, config);
    if !t.raised {
      assert log.id !in t.touched by {
        assert forall i :: 0 <= i < n ==> db.logs[i].id < log.id;
      }
      if Eligible(log, limit) && node.Some? && node.value.status == Active
         && log.core.record in db.records && log.core.record in blobs {
        PushIsSafe(t.standby, node.value.endpoint, log.core.record, blobs[log.core.record], net, config, written);
        GrowsTransitive(standby, t.standby, t'.standby, written);
        AckedStaysHeld(t.logs, t'.logs[n], t.standby, t'.standby, endpoints, written);
        TouchedRows(db, n, t, t');
      } else if !t'.raised {
        AckedStaysHeld(t.logs, t'.logs[n], t.standby, t'.standby, endpoints, written);
        TouchedRows(db, n, t, t');
      }
    }
  }

  lemma TouchedRows(db: Db, n: nat, t: Tried, t': Tried)
    requires n < |db.logs| && |t.logs| == n && |t'.logs| == n + 1 && t'.logs[..n] == t.logs
    requires forall i :: 0 <= i < n ==> RetriedRow(db.logs[i], t.logs[i], t.touched)
    requires forall id :: id in t.touched ==> exists i :: 0 <= i < n && db.logs[i].id == id
    requires t'.touched == t.touched || t'.touched == t.touched + {db.logs[n].id}
    requires Ordered(db.logs)
    requires RetriedRow(db.logs[n], t'.logs[n], t'.touched)
    ensures forall i :: 0 <= i < n + 1 ==> RetriedRow(db.logs[i], t'.logs[i], t'.touched)
    ensures forall id :: id in t'.touched ==> exists i :: 0 <= i < n + 1 && db.logs[i].id == id
  {
    forall i | 0 <= i < n ensures RetriedRow(db.logs[i], t'.logs[i], t'.touched) {
      assert t'.logs[..n][i] == t.logs[i];
      assert db.logs[i].id < db.logs[n].id;
    }
    forall id | id in t'.touched ensures exists i :: 0 <= i < n + 1 && db.logs[i].id == id {
      if id in t.touched {
        var i :| 0 <= i < n && db.logs[i].id == id;
      } else {
        assert db.logs[n].id == id;
      }
    }
  }

  lemma AckedStaysHeld(logs: seq<Log>, log: Log, standby: Standbys, standby': Standbys,
                       endpoints: map<NodeId, Endpoint>, written: map<RecordId, Bytes>)
    requires AckedHeld(logs, standby, endpoints, written) && Grows(standby, standby', written)
    requires log.status == Acked ==>
      && log.core.node in endpoints && log.core.record in written
      && Holds(standby', endpoints[log.core.node], log.core.record, written[log.core.record])
    ensures AckedHeld(logs + [log], standby', endpoints, written)
  {
  }

  lemma MidRetryStart(db: Db, standby: Standbys, endpoints: map<NodeId, Endpoint>, written: map<RecordId, Bytes>)
    requires StandbysOk(standby, written)
    ensures MidRetry(db, 0, standby, Tried([], standby, {}, false), endpoints, written)
  {
    hide StandbysOk;
    GrowsTransitive(standby, standby, standby, written);
  }

  lemma {:induction false} RetryLoopKeeps(db: Db, blobs: map<RecordId, Bytes>, standby: Standbys, n: nat, limit: nat,
                                          net: seq<Net>, config: Config, endpoints: map<NodeId, Endpoint>,
                                          written: map<RecordId, Bytes>)
    requires Injective(config.checksum) && BlobsOk(blobs, written) && n <= |db.logs|
    requires Good(db, standby, endpoints, written, config) && StandbysOk(standby, written)
    ensures MidRetry(db, n, standby, RetryLoop(db, blobs, standby, n, limit, net, config), endpoints, written)
  {
    hide MidRetry, Good, RetryOne, BlobsOk, Injective;
    if n == 0 {
      MidRetryStart(db, standby, endpoints, written);
    } else {
      RetryLoopKeeps(db, blobs, standby, n - 1, limit, net, config, endpoints, written);
      RetryStepKeeps(db, n - 1, blobs, standby, RetryLoop(db, blobs, standby, n - 1, limit, net, config), limit,
                     NetAt(net, n - 1), config, endpoints, written);
    }
  }

  /** Rewriting rows without touching ids and cores keeps the accounts. */
  lemma SameRowsAccounted(db: Db, logs: seq<Log>)
    requires Accounted(db) && |logs| == |db.logs|
    requires forall i :: 0 <= i < |logs| ==> logs[i].id == db.logs[i].id && logs[i].core == db.logs[i].core
    ensures Accounted(db.(logs := logs))
  {
    assert Ids(logs) == Ids(db.logs) by {
      forall l | l in logs ensures l.id in Ids(db.logs) {
        var i :| 0 <= i < |logs| && logs[i] == l;
        assert db.logs[i] in db.logs;
      }
      forall l | l in db.logs ensures l.id in Ids(logs) {
        var i :| 0 <= i < |logs| && db.logs[i] == l;
        assert logs[i] in logs;
      }
    }
    forall l | l in logs ensures l.id in db.created && db.created[l.id] == l.core {
      var i :| 0 <= i < |logs| && logs[i] == l;
      assert db.logs[i] in db.logs;
    }
  }

  lemma RetryKeeps(db: Db, blobs: map<RecordId, Bytes>, standby: Standbys, limit: nat, net: seq<Net>, config: Config,
                   endpoints: map<NodeId, Endpoint>, written: map<RecordId, Bytes>)
    requires Injective(config.checksum) && BlobsOk(blobs, written) && Good(db, standby, endpoints, written, config)
    ensures Kind(db, standby, RetryPending(db, blobs, standby, limit, net, config), endpoints, written, config)
  {
    RetryLoopKeeps(db, blobs, standby, |db.logs|, limit, net, config, endpoints, written);
    var t := RetryLoop(db, blobs, standby, |db.logs|, limit, net, config);
    if !t.raised {
      hide RetryLoop, StandbysOk, AckedHeld, Grows, ProcessDeadLetter, Accounted, CoreOk;
      SameRowsAccounted(db, t.logs);
      RetriedRowsRetries(db.logs, t.logs, t.touched, config.retryMax);
      ProcessKeeps(db.(logs := t.logs), t.standby, t.touched, endpoints, written, config);
    }
  }

  lemma RetriedRowsRetries(logs: seq<Log>, logs': seq<Log>, touched: set<nat>, retryMax: nat)
    requires RetriesLeft(logs, {}, retryMax) && |logs'| == |logs|
    requires forall i :: 0 <= i < |logs| ==> RetriedRow(logs[i], logs'[i], touched)
    ensures RetriesLeft(logs', touched, retryMax)
  {
    forall l | l in logs'
      ensures l.status == Acked || (l.status == Failed && l.retries >= 1 && (l.id in touched || l.retries < retryMax))
    {
      var i :| 0 <= i < |logs'| && logs'[i] == l;
      assert logs[i] in logs && RetriedRow(logs[i], logs'[i], touched);
    }
  }

  /// Nodes and resets

  lemma {:induction false} ResetMembers(logs: seq<Log>, node: NodeId)
    ensures forall l :: l in WithoutLogsOf(logs, node) <==> l in logs && l.core.node != node
    ensures Ordered(logs) ==> Ordered(WithoutLogsOf(logs, node))
  {
    if logs != [] {
      var n := |logs| - 1;
      var init, last := logs[..n], logs[n];
      ResetMembers(init, node);
      assert logs == init + [last];
      if Ordered(logs) && last.core.node != node {
        assert forall l :: l in init ==> l.id < last.id && l.core.number < last.core.number;
        OrderedAppend(WithoutLogsOf(init, node), last);
      }
    }
  }

  lemma ResetKeeps(db: Db, node: NodeId, standby: Standbys, endpoints: map<NodeId, Endpoint>,
                   written: map<RecordId, Bytes>, config: Config)
    requires Good(db, standby, endpoints, written, config)
    ensures Good(ResetSync(db, node), standby, endpoints, written, config)
  {
    ResetMembers(db.logs, node);
    var logs := WithoutLogsOf(db.logs, node);
    var gone := set l | l in db.logs && l.core.node == node :: l.id;
    assert Ids(db.logs) == Ids(logs) + gone;
    forall l, l' | l in logs && l' in db.logs && l'.core.node == node ensures l.id != l'.id {
      if l.id == l'.id {
        OrderedIdsUnique(db.logs, l, l');
        assert false;
      }
    }
    assert Ids(logs) !! gone;
  }

  lemma FailAllKeeps(logs: seq<Log>, node: NodeId, standby: Standbys, endpoints: map<NodeId, Endpoint>,
                     written: map<RecordId, Bytes>, retryMax: nat)
    requires RetriesLeft(logs, {}, retryMax) && AckedHeld(logs, standby, endpoints, written)
    ensures RetriesLeft(FailAll(logs, node), {}, retryMax)
    ensures AckedHeld(FailAll(logs, node), standby, endpoints, written)
  {
    hide Holds;
    forall l | l in FailAll(logs, node)
      ensures l in logs
    {
      var i :| 0 <= i < |logs| && FailAll(logs, node)[i] == l;
      assert logs[i] in logs && l == FailedBy(logs[i], node);
    }
  }

  lemma {:induction false} WithoutNodeUnique(nodes: seq<Node>, id: NodeId)
    requires NodesUnique(nodes)
    ensures NodesUnique(WithoutNode(nodes, id))
  {
    if nodes != [] {
      var n := |nodes| - 1;
      WithoutNodeUnique(nodes[..n], id);
      assert forall m :: m in nodes[..n] ==> m.id != nodes[n].id;
      var rest := WithoutNode(nodes[..n], id);
      assert forall i :: 0 <= i < |rest| ==> rest[i] in nodes[..n];
    }
  }

  lemma UnregisterKeeps(db: Db, node: NodeId, standby: Standbys, endpoints: map<NodeId, Endpoint>,
                        written: map<RecordId, Bytes>, config: Config)
    requires Good(db, standby, endpoints, written, config)
    ensures Unregister(db, node).Some? ==> Good(Unregister(db, node).value, standby, endpoints, written, config)
    ensures Unregister(db, node).Some? ==> Unregister(db, node).value.created == db.created
  {
    hide Accounted, CoreOk, StandbysOk, RetriesLeft, AckedHeld;
    var logs := FailAll(db.logs, node);
    FailAllKeeps(db.logs, node, standby, endpoints, written, config.retryMax);
    SameRowsAccounted(db, logs);
    WithoutNodeUnique(db.nodes, node);
    AccountedIgnoresNodes(db.(logs := logs), WithoutNode(db.nodes, node));
  }

  /** Nodes and records play no part in the accounts. */
  lemma AccountedIgnoresNodes(db: Db, nodes: seq<Node>)
    ensures Accounted(db.(nodes := nodes)) == Accounted(db)
  {
  }

  /// Every step keeps the invariant

  lemma EndpointsGrow(db: Db, standby: Standbys, endpoints: map<NodeId, Endpoint>, written: map<RecordId, Bytes>,
                      node: NodeId, endpoint: Endpoint, config: Config)
    requires Good(db, standby, endpoints, written, config) && node !in endpoints
    ensures Good(db, standby, endpoints[node := endpoint], written, config)
  {
  }

  lemma WrittenGrows(db: Db, standby: Standbys, endpoints: map<NodeId, Endpoint>, written: map<RecordId, Bytes>,
                     record: RecordId, data: Bytes, config: Config)
    requires Good(db, standby, endpoints, written, config) && record !in written
    ensures Good(db, standby, endpoints, written[record := data], config)
    ensures Good(db.(records := db.records + {record}), standby, endpoints, written[record := data], config)
  {
  }

  /** A request that ends in rollback keeps the invariant too: what the standbys gained is right. */
  lemma FinishKeeps(w: World, outcome: Outcome, commit: bool, config: Config)
    requires Inv(w, config) && Kind(w.db, w.standby, outcome, w.endpoints, w.written, config)
    ensures Inv(Finish(w, outcome, commit), config)
    ensures Extends(w.db.created, Finish(w, outcome, commit).db.created)
  {
  }

  lemma SimpleStepKeeps(w: World, step: Step, config: Config)
    requires Injective(config.checksum) && Inv(w, config)
    requires step.action.Purge? || step.action.Register? || step.action.Health? || step.action.Reset?
             || step.action.UnregisterNode?
    ensures Inv(Apply(w, step, config), config)
    ensures Extends(w.db.created, Apply(w, step, config).db.created)
  {
    hide Accounted, RetriesLeft, StandbysOk, AckedHeld, CoreOk, ProcessDeadLetter, WithoutLogsOf, Unregister;
    GrowsTransitive(w.standby, w.standby, w.standby, w.written);
    match step.action
    case Purge(record) =>
      AccountedIgnoresRecords(w.db, w.db.records - {record});
    case Register(node, endpoint) =>
      if node !in w.endpoints {
        hide CoresOk;
        EndpointsGrow(w.db, w.standby, w.endpoints, w.written, node, endpoint, config);
        AccountedIgnoresNodes(w.db, w.db.nodes + [Node(node, endpoint, Active)]);
        RegisterKeepsCores(w.db, w.endpoints, w.written, node, endpoint, config);
      }
    case Health(healthy) =>
      AccountedIgnoresNodes(w.db, HealthCheck(w.db, healthy).nodes);
    case Reset(node) =>
      ResetKeeps(w.db, node, w.standby, w.endpoints, w.written, config);
    case UnregisterNode(node) =>
      UnregisterKeeps(w.db, node, w.standby, w.endpoints, w.written, config);
  }

  lemma RegisterKeepsCores(db: Db, endpoints: map<NodeId, Endpoint>, written: map<RecordId, Bytes>, node: NodeId,
                           endpoint: Endpoint, config: Config)
    requires CoresOk(db, endpoints, written, config) && node !in endpoints
    ensures CoresOk(db.(nodes := db.nodes + [Node(node, endpoint, Active)]), endpoints[node := endpoint], written,
                    config)
  {
    assert forall i :: 0 <= i < |db.nodes| ==> db.nodes[i] in db.nodes;
  }

  lemma AccountedIgnoresRecords(db: Db, records: set<RecordId>)
    ensures Accounted(db.(records := records)) == Accounted(db)
  {
  }

  lemma {:induction false} StepKeepsInv(w: World, step: Step, config: Config)
    requires Injective(config.checksum) && Inv(w, config)
    ensures Inv(Apply(w, step, config), config)
    ensures Extends(w.db.created, Apply(w, step, config).db.created)
  {
    match step.action
    case Put(record, data, snapshot, lookup, net) =>
      if record !in w.written {
        hide Accounted, RetriesLeft, StandbysOk, AckedHeld, CoresOk, SyncRecord, Grows, Injective;
        var w' := w.(blobs := w.blobs[record := data], written := w.written[record := data]);
        var db := w.db.(records := w.db.records + {record});
        WrittenGrows(w.db, w.standby, w.endpoints, w.written, record, data, config);
        SyncKeeps(db, w'.blobs, w'.standby, record, snapshot, lookup, net, config, w.endpoints, w'.written);
        FinishKeeps(w', SyncRecord(db, w'.blobs, w'.standby, record, snapshot, lookup, net, config), step.commit,
                    config);
      }
    case Sync(record, snapshot, lookup, net) =>
      if record in w.db.records {
        hide Accounted, RetriesLeft, StandbysOk, AckedHeld, CoresOk, SyncRecord, Grows, Injective;
        SyncKeeps(w.db, w.blobs, w.standby, record, snapshot, lookup, net, config, w.endpoints, w.written);
        FinishKeeps(w, SyncRecord(w.db, w.blobs, w.standby, record, snapshot, lookup, net, config), step.commit,
                    config);
      }
    case Retry(limit, net) =>
      hide Accounted, RetriesLeft, StandbysOk, AckedHeld, CoresOk, RetryPending, Grows, Injective;
      RetryKeeps(w.db, w.blobs, w.standby, limit, net, config, w.endpoints, w.written);
      FinishKeeps(w, RetryPending(w.db, w.blobs, w.standby, limit, net, config), step.commit, config);
    case _ =>
      SimpleStepKeeps(w, step, config);
  }

  lemma {:induction false} RunKeepsInv(w: World, steps: seq<Step>, config: Config)
    requires Injective(config.checksum) && Inv(w, config)
    ensures Inv(Run(w, steps, config), config)
    ensures Extends(w.db.created, Run(w, steps, config).db.created)
    decreases |steps|
  {
    if steps != [] {
      hide Inv, Apply;
      StepKeepsInv(w, steps[0], config);
      RunKeepsInv(Apply(w, steps[0], config), steps[1..], config);
    }
  }

  /// What a reachable state guarantees

  lemma Reachable(steps: seq<Step>, config: Config)
    requires Injective(config.checksum)
    ensures Inv(Run(EMPTY, steps, config), config)
  {
    RunKeepsInv(EMPTY, steps, config);
  }

  /** In every state that can be reached, whatever the network did and whichever requests were
    rolled back: an acked row means that the standby holds exactly the ciphertext that the primary
    wrote, whose hash is the checksum of the row. */
  lemma AckedMeansHeld(steps: seq<Step>, config: Config, log: Log)
    requires Injective(config.checksum)
    requires log in Run(EMPTY, steps, config).db.logs && log.status == Acked
    ensures var w := Run(EMPTY, steps, config);
      && log.core.node in w.endpoints
      && log.core.record in w.written
      && Holds(w.standby, w.endpoints[log.core.node], log.core.record, w.written[log.core.record])
      && log.core.checksum == config.checksum(w.written[log.core.record])
  {
    Reachable(steps, config);
    var w := Run(EMPTY, steps, config);
    assert log.id in w.db.created;
  }

  /** No standby ever holds other bytes for a record than the primary's ciphertext. */
  lemma StandbyNeverWrong(steps: seq<Step>, config: Config, endpoint: Endpoint, record: RecordId)
    requires Injective(config.checksum)
    requires record in StoreOf(Run(EMPTY, steps, config).standby, endpoint)
    ensures var w := Run(EMPTY, steps, config);
      record in w.written && StoreOf(w.standby, endpoint)[record] == w.written[record]
  {
    Reachable(steps, config);
  }

  /** Every row ever created is live, dead or cleared, and in only one of these, with the record,
    node, checksum, snapshot and sequence number it was created with; and a live row is acked, or
    has failed at least once and not yet used up its retries. */
  lemma RowsAreConserved(steps: seq<Step>, config: Config, id: nat)
    requires Injective(config.checksum)
    requires id in Run(EMPTY, steps, config).db.created
    ensures var db := Run(EMPTY, steps, config).db;
      var live := exists l :: l in db.logs && l.id == id;
      var dead := exists d :: d in db.dead && d.origin == id;
      && (live || dead || id in db.cleared)
      && !(live && dead) && !(live && id in db.cleared) && !(dead && id in db.cleared)
      && (forall l :: l in db.logs && l.id == id ==>
            && l.core == db.created[id]
            && (l.status == Acked || (l.status == Failed && 1 <= l.retries < config.retryMax)))
      && (forall d :: d in db.dead && d.origin == id ==> d.core == db.created[id])
  {
    Reachable(steps, config);
  }

  /// Acknowledgement is final

  /** The first rows of a sync's table are the old table. */
  lemma {:induction false} SyncLoopExtends(db: Db, standby: Standbys, targets: seq<Node>, k: nat, record: RecordId,
                                           data: Bytes, snapshot: string, base: nat, net: seq<Net>, config: Config)
    requires k <= |targets|
    ensures db.logs <= SyncLoop(db, standby, targets, k, record, data, snapshot, base, net, config).0.logs
    ensures db.nextId <= SyncLoop(db, standby, targets, k, record, data, snapshot, base, net, config).0.nextId
    ensures SyncLoop(db, standby, targets, k, record, data, snapshot, base, net, config).0.dead == db.dead
  {
    hide Push;
    if k > 0 {
      SyncLoopExtends(db, standby, targets, k - 1, record, data, snapshot, base, net, config);
    }
  }

  /** A sync leaves every old row as it is, whatever its status. */
  lemma SyncKeepsRow(db: Db, blobs: map<RecordId, Bytes>, standby: Standbys, record: RecordId, snapshot: string,
                     lookup: Lookup, net: seq<Net>, config: Config, log: Log)
    requires Accounted(db) && log in db.logs
    ensures log in SyncRecord(db, blobs, standby, record, snapshot, lookup, net, config).db.logs
  {
    assert log.id in db.created;
    hide Accounted, Push, SyncLoop;
    var targets := ActiveNodes(db.nodes);
    if targets != [] && record in blobs && LastNumber(db.logs, lookup).Some? {
      var base := LastNumber(db.logs, lookup).value;
      SyncLoopExtends(db, standby, targets, |targets|, record, blobs[record], snapshot, base, net, config);
      var db' := SyncLoop(db, standby, targets, |targets|, record, blobs[record], snapshot, base, net, config).0;
      KeptMembers(db'.logs, NewIds(db'.logs, db.nextId), config.retryMax);
      assert log in db'.logs;
    }
  }

  lemma RetryOneRow(t: Tried, db: Db, blobs: map<RecordId, Bytes>, log: Log, limit: nat, net: Net, config: Config)
    ensures var t' := RetryOne(t, db, blobs, log, limit, net, config);
      !t'.raised ==>
        && !t.raised
        && |t'.logs| == |t.logs| + 1 && t'.logs[..|t.logs|] == t.logs
        && t.touched <= t'.touched
        && t'.logs[|t.logs|].id == log.id
        && (!Eligible(log, limit) ==> t'.logs[|t.logs|] == log)
  {
    hide Push, FindNode, Eligible;
  }

  /** The row at position i after the retry loop has passed it. */
  lemma {:induction false} RetryLoopRow(db: Db, blobs: map<RecordId, Bytes>, standby: Standbys, n: nat, limit: nat,
                                        net: seq<Net>, config: Config)
    requires n <= |db.logs|
    ensures var t := RetryLoop(db, blobs, standby, n, limit, net, config);
      !t.raised ==>
        && |t.logs| == n
        && (forall i :: 0 <= i < n && !Eligible(db.logs[i], limit) ==> t.logs[i] == db.logs[i])
        && (forall i :: 0 <= i < n ==> t.logs[i].id == db.logs[i].id)
  {
    hide RetryOne, Eligible;
    if n > 0 {
      RetryLoopRow(db, blobs, standby, n - 1, limit, net, config);
      var t := RetryLoop(db, blobs, standby, n - 1, limit, net, config);
      var t' := RetryLoop(db, blobs, standby, n, limit, net, config);
      RetryOneRow(t, db, blobs, db.logs[n - 1], limit, NetAt(net, n - 1), config);
      assert !t'.raised ==> forall i :: 0 <= i < n - 1 ==> t'.logs[i] == t'.logs[..n - 1][i];
    }
  }

  lemma RetryKeepsAcked(db: Db, blobs: map<RecordId, Bytes>, standby: Standbys, limit: nat, net: seq<Net>,
                        config: Config, log: Log)
    requires log in db.logs && log.status == Acked
    ensures log in RetryPending(db, blobs, standby, limit, net, config).db.logs
  {
    hide RetryLoop;
    RetryLoopRow(db, blobs, standby, |db.logs|, limit, net, config);
    var t := RetryLoop(db, blobs, standby, |db.logs|, limit, net, config);
    if !t.raised {
      KeptMembers(t.logs, t.touched, config.retryMax);
      var i :| 0 <= i < |db.logs| && db.logs[i] == log;
      assert t.logs[i] == log;
    }
  }

  /** An acked row stays as it is through every step but a reset of its node. */
  lemma AckedStays(w: World, step: Step, config: Config, log: Log)
    requires Inv(w, config) && log in w.db.logs && log.status == Acked
    requires step.action != Reset(log.core.node)
    ensures log in Apply(w, step, config).db.logs
  {
    hide Accounted, RetriesLeft, CoresOk, StandbysOk, AckedHeld, SyncRecord, RetryPending, WithoutLogsOf;
    match step.action
    case Put(record, data, snapshot, lookup, net) =>
      var blobs := w.blobs[record := data];
      var db := w.db.(records := w.db.records + {record});
      AccountedIgnoresRecords(w.db, db.records);
      SyncKeepsRow(db, blobs, w.standby, record, snapshot, lookup, net, config, log);
    case Sync(record, snapshot, lookup, net) =>
      SyncKeepsRow(w.db, w.blobs, w.standby, record, snapshot, lookup, net, config, log);
    case Retry(limit, net) =>
      RetryKeepsAcked(w.db, w.blobs, w.standby, limit, net, config, log);
    case Reset(node) =>
      ResetMembers(w.db.logs, node);
    case UnregisterNode(node) =>
      var i :| 0 <= i < |w.db.logs| && w.db.logs[i] == log;
      assert FailAll(w.db.logs, node)[i] == log;
    case _ =>
  }

  /** Over a run in which its node is not reset, an acked row is left exactly as it is. */
  lemma {:induction false} AckedStaysOnRun(w: World, steps: seq<Step>, config: Config, log: Log)
    requires Injective(config.checksum) && Inv(w, config) && log in w.db.logs && log.status == Acked
    requires forall i :: 0 <= i < |steps| ==> steps[i].action != Reset(log.core.node)
    ensures log in Run(w, steps, config).db.logs
    decreases |steps|
  {
    hide Apply, Inv, Injective;
    if steps != [] {
      AckedStays(w, steps[0], config, log);
      StepKeepsInv(w, steps[0], config);
      assert forall i :: 0 <= i < |steps[1..]| ==> steps[1..][i] == steps[i + 1];
      AckedStaysOnRun(Apply(w, steps[0], config), steps[1..], config, log);
    }
  }

  /** A dead letter stays through every step. */
  lemma DeadStays(w: World, step: Step, config: Config, d: DeadLetter)
    requires d in w.db.dead
    ensures d in Apply(w, step, config).db.dead
  {
    hide SyncLoop, RetryLoop, LastNumber, ActiveNodes;
    match step.action
    case Put(record, data, snapshot, lookup, net) =>
      var db := w.db.(records := w.db.records + {record});
      SyncDeadStays(db, w.blobs[record := data], w.standby, record, snapshot, lookup, net, config, d);
    case Sync(record, snapshot, lookup, net) =>
      SyncDeadStays(w.db, w.blobs, w.standby, record, snapshot, lookup, net, config, d);
    case _ =>
  }

  lemma SyncDeadStays(db: Db, blobs: map<RecordId, Bytes>, standby: Standbys, record: RecordId, snapshot: string,
                      lookup: Lookup, net: seq<Net>, config: Config, d: DeadLetter)
    requires d in db.dead
    ensures d in SyncRecord(db, blobs, standby, record, snapshot, lookup, net, config).db.dead
  {
    hide SyncLoop;
    var targets := ActiveNodes(db.nodes);
    if targets != [] && record in blobs && LastNumber(db.logs, lookup).Some? {
      SyncLoopExtends(db, standby, targets, |targets|, record, blobs[record], snapshot,
                      LastNumber(db.logs, lookup).value, net, config);
    }
  }

  /// When a retry raises

  ghost predicate NodeActive(db: Db, node: NodeId) {
    FindNode(db.nodes, node).Some? && FindNode(db.nodes, node).value.status == Active
  }

  /** A retry fails as a whole exactly when some row it has to push belongs to a record whose row
    exists while its blob is gone, as a purge that was rolled back leaves it. */
  lemma {:induction false} RetryRaisesIff(db: Db, blobs: map<RecordId, Bytes>, standby: Standbys, n: nat, limit: nat,
                                          net: seq<Net>, config: Config)
    requires n <= |db.logs|
    ensures RetryLoop(db, blobs, standby, n, limit, net, config).raised <==>
            exists i :: 0 <= i < n && Eligible(db.logs[i], limit) && NodeActive(db, db.logs[i].core.node)
                        && db.logs[i].core.record in db.records && db.logs[i].core.record !in blobs
  {
    hide Push;
    if n > 0 {
      RetryRaisesIff(db, blobs, standby, n - 1, limit, net, config);
    }
  }
}
