/** Push replication to standby nodes (replication/engine.py, and the receiving route).

  The tables are values; the operations of the source are functions on them, used both by the
  methods of class ReplicationEngine (module ReplicationService) and by the runs of module
  ReplicationRuns. The network is an adversary: each push is given an outcome.
 */
module Replication {
  type NodeId = string
  type RecordId = string
  type Endpoint = string
  type Bytes = seq<int>
  type Digest = seq<int>

  datatype Option<T> = None | Some(value: T)

  datatype NodeStatus = Active | Unhealthy | Disabled

  datatype Node = Node(id: NodeId, endpoint: Endpoint, status: NodeStatus)

  datatype LogStatus = Pending | Sent | Failed | Acked

  /** What never changes about a log row, and what a dead letter keeps of it. */
  datatype Core = Core(record: RecordId, node: NodeId, checksum: Digest, snapshot: string, number: nat)

  datatype Log = Log(id: nat, core: Core, status: LogStatus, retries: nat)

  datatype DeadLetter = DeadLetter(origin: nat, core: Core)

  /** The tables of the primary. The fields created and cleared are history: every log row ever
    inserted, and the rows that a reset has deleted. */
  datatype Db = Db(
    nodes: seq<Node>,
    records: set<RecordId>,
    logs: seq<Log>,
    dead: seq<DeadLetter>,
    nextId: nat,
    created: map<nat, Core>,
    cleared: set<nat>)

  type Standbys = map<Endpoint, map<RecordId, Bytes>>

  datatype Config = Config(retryMax: nat, checksum: Bytes -> Digest)

  /** A hash that no two byte strings share. */
  ghost predicate Injective(h: Bytes -> Digest) {
    forall a, b :: h(a) == h(b) ==> a == b
  }

  /** What the network does to one push: it never arrives, or it arrives with these bytes as its
    ciphertext and the answer comes back or is lost. */
  datatype Net = Lost | Delivered(arrived: Bytes, answered: bool)

  function NetAt(net: seq<Net>, k: nat): Net {
    if k < |net| then net[k] else Lost
  }

  /// The standby

  function StoreOf(standby: Standbys, endpoint: Endpoint): map<RecordId, Bytes> {
    if endpoint in standby then standby[endpoint] else map[]
  }

  /** The receiving route: the bytes are kept only if they hash to the checksum that came along. */
  function Receive(standby: Standbys, endpoint: Endpoint, record: RecordId, arrived: Bytes, claimed: Digest,
                   config: Config): (Standbys, bool)
  {
    if config.checksum(arrived) != claimed then (standby, false)
    else (standby[endpoint := StoreOf(standby, endpoint)[record := arrived]], true)
  }

  /** One push: the new stores of the standbys, and whether the primary sees an acknowledgement. */
  function Push(standby: Standbys, endpoint: Endpoint, record: RecordId, data: Bytes, net: Net, config: Config)
    : (Standbys, bool)
  {
    match net
    case Lost => (standby, false)
    case Delivered(arrived, answered) =>
      var (standby', ok) := Receive(standby, endpoint, record, arrived, config.checksum(data), config);
      (standby', ok && answered)
  }

  /// Dead letters

  predicate Doomed(log: Log, touched: set<nat>, retryMax: nat) {
    log.id in touched && log.status == Failed && log.retries >= retryMax
  }

  function Kept(logs: seq<Log>, touched: set<nat>, retryMax: nat): seq<Log> {
    if logs == [] then []
    else
      var n := |logs| - 1;
      Kept(logs[..n], touched, retryMax) + (if Doomed(logs[n], touched, retryMax) then [] else [logs[n]])
  }

  function Letters(logs: seq<Log>, touched: set<nat>, retryMax: nat): seq<DeadLetter> {
    if logs == [] then []
    else
      var n := |logs| - 1;
      Letters(logs[..n], touched, retryMax)
      + (if Doomed(logs[n], touched, retryMax) then [DeadLetter(logs[n].id, logs[n].core)] else [])
  }

  /** Rows just tried that have used up their retries move to the dead-letter table. */
  function ProcessDeadLetter(db: Db, touched: set<nat>, retryMax: nat): Db {
    db.(logs := Kept(db.logs, touched, retryMax), dead := db.dead + Letters(db.logs, touched, retryMax))
  }

  /// Sync

  /** How the highest sequence number is looked up. AsWritten is the query of the source, which
    raises as soon as two rows exist; AsDocumented is the maximum that its comment asks for. */
  datatype Lookup = AsWritten | AsDocumented

  function MaxNumber(logs: seq<Log>): nat {
    if logs == [] then 0
    else
      var m, n := MaxNumber(logs[..|logs| - 1]), logs[|logs| - 1].core.number;
      if n > m then n else m
  }

  function LastNumber(logs: seq<Log>, lookup: Lookup): Option<nat> {
    if lookup.AsWritten? && |logs| >= 2 then None else Some(MaxNumber(logs))
  }

  function ActiveNodes(nodes: seq<Node>): (active: seq<Node>)
    ensures forall n :: n in active <==> n in nodes && n.status == Active
  {
    if nodes == [] then []
    else ActiveNodes(nodes[..|nodes| - 1])
         + (if nodes[|nodes| - 1].status == Active then [nodes[|nodes| - 1]] else [])
  }

  function Insert(db: Db, log: Log): Db {
    db.(logs := db.logs + [log], nextId := db.nextId + 1, created := db.created[log.id := log.core])
  }

  /** The row that a push to one node leaves behind. */
  function NewLog(id: nat, core: Core, ok: bool): Log {
    Log(id, core, if ok then Acked else Failed, if ok then 0 else 1)
  }

  /** The first k pushes of a sync. */
  function SyncLoop(db: Db, standby: Standbys, targets: seq<Node>, k: nat, record: RecordId, data: Bytes,
                    snapshot: string, base: nat, net: seq<Net>, config: Config): (Db, Standbys)
    requires k <= |targets|
  {
    if k == 0 then (db, standby)
    else
      var (db', standby') := SyncLoop(db, standby, targets, k - 1, record, data, snapshot, base, net, config);
      var node := targets[k - 1];
      var (standby'', ok) := Push(standby', node.endpoint, record, data, NetAt(net, k - 1), config);
      var core := Core(record, node.id, config.checksum(data), snapshot, base + k);
      (Insert(db', NewLog(db'.nextId, core, ok)), standby'')
  }

  /** The tables and stores after an operation; raised stands for an exception, after which the
    session is discarded. */
  datatype Outcome = Outcome(db: Db, standby: Standbys, raised: bool)

  /** The rows inserted since the table's next id was first. */
  function NewIds(logs: seq<Log>, first: nat): set<nat> {
    set l | l in logs && l.id >= first :: l.id
  }

  function SyncRecord(db: Db, blobs: map<RecordId, Bytes>, standby: Standbys, record: RecordId, snapshot: string,
                      lookup: Lookup, net: seq<Net>, config: Config): Outcome
  {
    var targets := ActiveNodes(db.nodes);
    if targets == [] then Outcome(db, standby, false)
    else if record !in blobs then Outcome(db, standby, true)
    else if LastNumber(db.logs, lookup).None? then Outcome(db, standby, true)
    else
      var base := LastNumber(db.logs, lookup).value;
      var (db', standby') :=
        SyncLoop(db, standby, targets, |targets|, record, blobs[record], snapshot, base, net, config);
      Outcome(ProcessDeadLetter(db', NewIds(db'.logs, db.nextId), config.retryMax), standby', false)
  }

  /// Retry

  function FindNode(nodes: seq<Node>, id: NodeId): (r: Option<Node>)
    ensures r.Some? ==> r.value in nodes && r.value.id == id
    ensures r.None? ==> forall n :: n in nodes ==> n.id != id
  {
    if nodes == [] then None
    else if nodes[0].id == id then Some(nodes[0])
    else FindNode(nodes[1..], id)
  }

  predicate Eligible(log: Log, limit: nat) {
    (log.status == Pending || log.status == Failed) && log.retries < limit
  }

  datatype Tried = Tried(logs: seq<Log>, standby: Standbys, touched: set<nat>, raised: bool)

  /** What the loop does with the row log after reaching state t. */
  function RetryOne(t: Tried, db: Db, blobs: map<RecordId, Bytes>, log: Log, limit: nat, net: Net, config: Config)
    : Tried
  {
    var node := FindNode(db.nodes, log.core.node);
    if t.raised then t
    else if !Eligible(log, limit) || node.None? || node.value.status != Active then t.(logs := t.logs + [log])
    else if log.core.record !in db.records then t.(logs := t.logs + [log.(status := Failed)])
    else if log.core.record !in blobs then t.(raised := true)
    else
      var (standby', ok) := Push(t.standby, node.value.endpoint, log.core.record, blobs[log.core.record], net, config);
      Tried(t.logs + [log.(status := if ok then Acked else Failed, retries := log.retries + 1)],
            standby', t.touched + {log.id}, false)
  }

  /** The first n rows, which are in the order of their sequence numbers. */
  function RetryLoop(db: Db, blobs: map<RecordId, Bytes>, standby: Standbys, n: nat, limit: nat, net: seq<Net>,
                     config: Config): Tried
    requires n <= |db.logs|
  {
    if n == 0 then Tried([], standby, {}, false)
    else RetryOne(RetryLoop(db, blobs, standby, n - 1, limit, net, config), db, blobs, db.logs[n - 1], limit,
                  NetAt(net, n - 1), config)
  }

  function RetryPending(db: Db, blobs: map<RecordId, Bytes>, standby: Standbys, limit: nat, net: seq<Net>,
                        config: Config): Outcome
  {
    var t := RetryLoop(db, blobs, standby, |db.logs|, limit, net, config);
    if t.raised then Outcome(db, t.standby, true)
    else Outcome(ProcessDeadLetter(db.(logs := t.logs), t.touched, config.retryMax), t.standby, false)
  }

  /// Nodes and resets

  function FailedBy(log: Log, node: NodeId): Log {
    if log.core.node == node && (log.status == Pending || log.status == Sent) then log.(status := Failed) else log
  }

  function FailAll(logs: seq<Log>, node: NodeId): (r: seq<Log>)
    ensures |r| == |logs| && forall i :: 0 <= i < |r| ==> r[i] == FailedBy(logs[i], node)
  {
    seq(|logs|, i requires 0 <= i < |logs| => FailedBy(logs[i], node))
  }

  function WithoutNode(nodes: seq<Node>, id: NodeId): (r: seq<Node>)
    ensures forall n :: n in r <==> n in nodes && n.id != id
  {
    if nodes == [] then []
    else WithoutNode(nodes[..|nodes| - 1], id) + (if nodes[|nodes| - 1].id == id then [] else [nodes[|nodes| - 1]])
  }

  /** Unregistering an unknown node raises. */
  function Unregister(db: Db, id: NodeId): Option<Db> {
    if FindNode(db.nodes, id).None? then None
    else Some(db.(nodes := WithoutNode(db.nodes, id), logs := FailAll(db.logs, id)))
  }

  function Checked(node: Node, healthy: set<NodeId>): Node {
    if node.status == Disabled then node
    else node.(status := if node.id in healthy then Active else Unhealthy)
  }

  function HealthCheck(db: Db, healthy: set<NodeId>): Db {
    db.(nodes := seq(|db.nodes|, i requires 0 <= i < |db.nodes| => Checked(db.nodes[i], healthy)))
  }

  function WithoutLogsOf(logs: seq<Log>, node: NodeId): seq<Log> {
    if logs == [] then []
    else
      var n := |logs| - 1;
      WithoutLogsOf(logs[..n], node) + (if logs[n].core.node == node then [] else [logs[n]])
  }

  function ResetSync(db: Db, node: NodeId): Db {
    db.(logs := WithoutLogsOf(db.logs, node),
        cleared := db.cleared + set l | l in db.logs && l.core.node == node :: l.id)
  }

  /// The change feed

  function Newer(logs: seq<Log>, since: int): seq<Log> {
    if logs == [] then []
    else if logs[0].core.number > since then [logs[0]] + Newer(logs[1..], since)
    else Newer(logs[1..], since)
  }

  function Take<T>(s: seq<T>, n: nat): seq<T> {
    if n <= |s| then s[..n] else s
  }

  function ChangesSince(db: Db, since: int, limit: nat): seq<Log> {
    Take(Newer(db.logs, since), limit)
  }
}
