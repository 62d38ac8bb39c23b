/** The replication engine of the source: methods that change the tables in loops, each proved
  against the function of module Replication that says what it does.

  db is what the session sees. An operation that raises leaves db in the middle of its work, as the
  source does; the route then drops the session (ReplicationRuns.Finish).
 */
module ReplicationService {
  import opened Replication
  import opened ReplicationRuns
  import opened ReplicationFeed
  import opened ReplicationOutcomes

  class ReplicationEngine {
    const config: Config
    var db: Db
    var blobs: map<RecordId, Bytes>
    var standby: Standbys

    constructor (config: Config)
      ensures this.config == config
      ensures db == EMPTY.db && blobs == map[] && standby == map[]
    {
      this.config := config;
      db, blobs, standby := EMPTY.db, map[], map[];
    }

    /** The standby's side of a push. */
    method ReceivePush(endpoint: Endpoint, record: RecordId, arrived: Bytes, claimed: Digest) returns (checksumOk: bool)
      modifies this`standby
      ensures (standby, checksumOk) == Receive(old(standby), endpoint, record, arrived, claimed, config)
      ensures checksumOk <==> config.checksum(arrived) == claimed
      ensures checksumOk ==> standby.Keys == old(standby).Keys + {endpoint}
      ensures checksumOk ==> StoreOf(standby, endpoint) == StoreOf(old(standby), endpoint)[record := arrived]
      ensures forall e :: e in old(standby) && (e != endpoint || !checksumOk) ==>
                e in standby && standby[e] == old(standby)[e]
      ensures !checksumOk ==> standby == old(standby)
    {
      if config.checksum(arrived) != claimed {
        return false;
      }
      standby := standby[endpoint := StoreOf(standby, endpoint)[record := arrived]];
      checksumOk := true;
    }

    method PushRecord(node: Node, record: RecordId, data: Bytes, net: Net) returns (ok: bool)
      modifies this`standby
      ensures (standby, ok) == Push(old(standby), node.endpoint, record, data, net, config)
    {
      match net
      case Lost =>
        ok := false;
      case Delivered(arrived, answered) =>
        var checksumOk := ReceivePush(node.endpoint, record, arrived, config.checksum(data));
        ok := checksumOk && answered;
    }

    method ProcessDeadLetters(touched: set<nat>)
      modifies this`db
      ensures db == ProcessDeadLetter(old(db), touched, config.retryMax)
    {
      var logs := db.logs;
      var kept: seq<Log> := [];
      for i := 0 to |logs|
        invariant logs == old(db.logs)
        invariant kept == Kept(logs[..i], touched, config.retryMax)
        invariant db == old(db).(dead := old(db).dead + Letters(logs[..i], touched, config.retryMax))
      {
        assert logs[..i + 1][..i] == logs[..i];
        if Doomed(logs[i], touched, config.retryMax) {
          db := db.(dead := db.dead + [DeadLetter(logs[i].id, logs[i].core)]);
        } else {
          kept := kept + [logs[i]];
        }
      }
      assert logs[..|logs|] == logs;
      db := db.(logs := kept);
    }

    /** Push a record to every active node, in the order of their rows. */
    method SyncRecord(record: RecordId, snapshot: string, lookup: Lookup, net: seq<Net>) returns (raised: bool)
      modifies this`db, this`standby
      ensures Outcome(db, standby, raised)
           == Replication.SyncRecord(old(db), blobs, old(standby), record, snapshot, lookup, net, config)
    {
      hide Push, ProcessDeadLetter, LastNumber, ActiveNodes;
      var targets := ActiveNodes(db.nodes);
      if targets == [] {
        return false;
      }
      if record !in blobs {
        return true;
      }
      var data := blobs[record];
      var last := LastNumber(db.logs, lookup);
      if last.None? {
        return true;
      }
      var maxNumber, first := last.value, db.nextId;
      for k := 0 to |targets|
        invariant maxNumber == last.value + k
        invariant blobs == old(blobs)
        invariant (db, standby)
               == SyncLoop(old(db), old(standby), targets, k, record, data, snapshot, last.value, net, config)
      {
        var node := targets[k];
        maxNumber := maxNumber + 1;
        var log := Log(db.nextId, Core(record, node.id, config.checksum(data), snapshot, maxNumber), Pending, 0);
        db := Insert(db, log);
        ghost var before := db.logs;
        var ok := PushRecord(node, record, data, NetAt(net, k));
        log := log.(status := if ok then Acked else Failed);
        if !ok {
          log := log.(retries := log.retries + 1);
        }
        db := db.(logs := db.logs[|db.logs| - 1 := log]);
        assert before[|before| - 1 := log] == before[..|before| - 1] + [log];
      }
      ProcessDeadLetters(NewIds(db.logs, first));
      raised := false;
    }

    /** The loop body of RetryPending for one row: the row as it is left, whether or not it was pushed. */
    method TryRow(log: Log, limit: nat, net: Net, touched: set<nat>, ghost front: seq<Log>)
      returns (row: Log, touched': set<nat>, raised: bool)
      modifies this`standby
      ensures RetryOne(Tried(front, old(standby), touched, false), db, blobs, log, limit, net, config)
           == if raised then Tried(front, standby, touched, true) else Tried(front + [row], standby, touched', false)
    {
      hide Push, FindNode;
      row, touched', raised := log, touched, false;
      if Eligible(log, limit) {
        var node := FindNode(db.nodes, log.core.node);
        if node.Some? && node.value.status == Active {
          if log.core.record !in db.records {
            row := log.(status := Failed);
          } else if log.core.record !in blobs {
            raised := true;
          } else {
            var ok := PushRecord(node.value, log.core.record, blobs[log.core.record], net);
            row := log.(status := if ok then Acked else Failed, retries := log.retries + 1);
            touched' := touched + {log.id};
          }
        }
      }
    }

    /** Try the failed and pending rows again, in the order of their sequence numbers, which is the
      order of the rows (ReplicationRuns.Ordered). If a blob is missing the rows before it are left as
      the loop made them, and the session is then discarded. */
    method RetryPending(limit: nat, net: seq<Net>) returns (raised: bool)
      modifies this`db, this`standby
      ensures var outcome := Replication.RetryPending(old(db), blobs, old(standby), limit, net, config);
        && raised == outcome.raised
        && standby == outcome.standby
        && (!raised ==> db == outcome.db)
      ensures var t := RetryLoop(old(db), blobs, old(standby), |old(db).logs|, limit, net, config);
        raised ==> |t.logs| <= |old(db).logs| && db == HalfDone(old(db), t.logs)
    {
      hide Push, FindNode, Doomed, ProcessDeadLetter, RetryLoop, RetryOne, HalfDone;
      var touched: set<nat> := {};
      ghost var start, t := db, Tried([], standby, {}, false);
      RetryLoopStart(db, blobs, standby, limit, net, config);
      HalfDoneEnds(start, []);
      for i := 0 to |db.logs|
        invariant blobs == old(blobs) && start == old(db) && |db.logs| == |start.logs|
        invariant t == RetryLoop(start, blobs, old(standby), i, limit, net, config)
        invariant t == Tried(t.logs, standby, touched, false) && |t.logs| == i
        invariant db == HalfDone(start, t.logs)
      {
        HalfDoneNext(start, t.logs);
        RetryLoopStep(start, blobs, old(standby), i, limit, net, config);
        RetryIgnoresLogs(t, start, db.logs, blobs, db.logs[i], limit, NetAt(net, i), config);
        var row, stuck;
        row, touched, stuck := TryRow(db.logs[i], limit, NetAt(net, i), touched, t.logs);
        if stuck {
          RaisedStays(start, blobs, old(standby), i + 1, |start.logs|, limit, net, config);
          return true;
        }
        HalfDoneUpdate(start, t.logs, row);
        db := db.(logs := db.logs[i := row]);
        t := Tried(t.logs + [row], standby, touched, false);
      }
      HalfDoneEnds(start, t.logs);
      ProcessDeadLetters(touched);
      raised := false;
    }

    /** Remove a node; its unfinished rows fail. False stands for "Node not found". */
    method UnregisterNode(id: NodeId) returns (found: bool)
      modifies this`db
      ensures found <==> Unregister(old(db), id).Some?
      ensures db == if found then Unregister(old(db), id).value else old(db)
      ensures found <==> exists n :: n in old(db).nodes && n.id == id
      ensures found ==> forall n :: n in db.nodes <==> n in old(db).nodes && n.id != id
      ensures found ==> |db.logs| == |old(db).logs| && forall i :: 0 <= i < |db.logs| ==>
                db.logs[i] == if old(db).logs[i].core.node == id
                                 && (old(db).logs[i].status == Pending || old(db).logs[i].status == Sent)
                              then old(db).logs[i].(status := Failed) else old(db).logs[i]
    {
      if FindNode(db.nodes, id).None? {
        return false;
      }
      for i := 0 to |db.logs|
        invariant |db.logs| == |old(db.logs)| && db == old(db).(logs := db.logs)
        invariant forall k :: 0 <= k < i ==> db.logs[k] == FailedBy(old(db.logs)[k], id)
        invariant db.logs[i..] == old(db.logs)[i..]
      {
        var log := db.logs[i];
        assert log == old(db.logs)[i];
        if log.core.node == id && (log.status == Pending || log.status == Sent) {
          db := db.(logs := db.logs[i := log.(status := Failed)]);
        }
      }
      assert db.logs == FailAll(old(db.logs), id);
      db := db.(nodes := WithoutNode(db.nodes, id));
      found := true;
    }

    /** Delete the rows of a node, so that it is synced afresh. */
    method ResetSync(node: NodeId) returns (clearedLogs: nat)
      modifies this`db
      ensures db == Replication.ResetSync(old(db), node)
      ensures clearedLogs == RowsOf(old(db).logs, node)
      ensures forall l :: l in db.logs <==> l in old(db).logs && l.core.node != node
    {
      var logs := db.logs;
      var rest: seq<Log> := [];
      clearedLogs := 0;
      for i := 0 to |logs|
        invariant logs == old(db.logs) && db == old(db)
        invariant rest == WithoutLogsOf(logs[..i], node)
        invariant clearedLogs == i - |rest|
      {
        assert logs[..i + 1][..i] == logs[..i];
        if logs[i].core.node == node {
          clearedLogs := clearedLogs + 1;
        } else {
          rest := rest + [logs[i]];
        }
      }
      assert logs[..|logs|] == logs;
      var _ := ResetEffect(db, node);
      db := db.(logs := rest, cleared := db.cleared + set l | l in logs && l.core.node == node :: l.id);
    }

    /** A page of the change feed. */
    method GetChangesSince(since: int, limit: nat) returns (page: seq<Log>)
      ensures page == ChangesSince(db, since, limit)
      ensures IsPage(db.logs, since, limit, page)
    {
      page := [];
      for i := 0 to |db.logs|
        invariant page == Take(Newer(db.logs[..i], since), limit)
      {
        var log := db.logs[i];
        assert db.logs[..i + 1] == db.logs[..i] + [log];
        NewerAppend(db.logs[..i], log, since);
        if log.core.number > since && |page| < limit {
          page := page + [log];
        }
      }
      assert db.logs[..|db.logs|] == db.logs;
      TakeIsPage(db.logs, since, limit);
    }
  }

  lemma RetryIgnoresLogs(t: Tried, db: Db, logs: seq<Log>, blobs: map<RecordId, Bytes>, log: Log, limit: nat, net: Net,
                         config: Config)
    ensures RetryOne(t, db.(logs := logs), blobs, log, limit, net, config)
         == RetryOne(t, db, blobs, log, limit, net, config)
  {
  }

  /** The table with its first rows replaced. */
  ghost function HalfDone(db: Db, front: seq<Log>): Db
    requires |front| <= |db.logs|
  {
    db.(logs := front + db.logs[|front|..])
  }

  lemma HalfDoneEnds(db: Db, front: seq<Log>)
    ensures HalfDone(db, []) == db
    ensures |front| == |db.logs| ==> HalfDone(db, front) == db.(logs := front)
  {
    assert [] + db.logs[0..] == db.logs;
    assert |front| == |db.logs| ==> front + db.logs[|front|..] == front;
  }

  lemma HalfDoneNext(db: Db, front: seq<Log>)
    requires |front| < |db.logs|
    ensures var half := HalfDone(db, front);
      half == db.(logs := half.logs) && |half.logs| == |db.logs| && half.logs[|front|] == db.logs[|front|]
  {
  }

  lemma HalfDoneUpdate(db: Db, front: seq<Log>, row: Log)
    requires |front| < |db.logs|
    ensures var half := HalfDone(db, front);
      && |half.logs| == |db.logs|
      && half.(logs := half.logs[|front| := row]) == HalfDone(db, front + [row])
  {
    assert HalfDone(db, front).logs[|front| := row] == (front + [row]) + db.logs[|front| + 1..];
  }

  lemma RetryLoopStart(db: Db, blobs: map<RecordId, Bytes>, standby: Standbys, limit: nat, net: seq<Net>,
                       config: Config)
    ensures RetryLoop(db, blobs, standby, 0, limit, net, config) == Tried([], standby, {}, false)
  {
  }

  lemma RetryLoopStep(db: Db, blobs: map<RecordId, Bytes>, standby: Standbys, n: nat, limit: nat, net: seq<Net>,
                      config: Config)
    requires n < |db.logs|
    ensures RetryLoop(db, blobs, standby, n + 1, limit, net, config)
         == RetryOne(RetryLoop(db, blobs, standby, n, limit, net, config), db, blobs, db.logs[n], limit, NetAt(net, n),
                     config)
  {
  }
}
