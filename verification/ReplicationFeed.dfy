/** The change feed of a standby that pulls (engine.py, 329-352). */
module ReplicationFeed {
  import opened Replication
  import opened ReplicationRuns
  import opened ReplicationOutcomes
  import opened ReplicationLiveness

  /// The change feed

  /** How many rows at the front are not newer than since. */
  function Older(logs: seq<Log>, since: int): nat {
    if logs == [] || logs[0].core.number > since then 0 else 1 + Older(logs[1..], since)
  }

  lemma {:induction false} NewerIsSuffix(logs: seq<Log>, since: int)
    requires Ordered(logs)
    ensures Older(logs, since) <= |logs| && Newer(logs, since) == logs[Older(logs, since)..]
    ensures forall i :: 0 <= i < |logs| ==> (logs[i].core.number > since <==> i >= Older(logs, since))
  {
    if logs != [] {
      NewerIsSuffix(logs[1..], since);
      assert forall i :: 0 < i < |logs| ==> logs[i] == logs[1..][i - 1];
      if logs[0].core.number > since {
        AllNewer(logs, since);
      } else {
        assert Newer(logs, since) == logs[1..][Older(logs[1..], since)..];
      }
    }
  }

  lemma {:induction false} AllNewer(logs: seq<Log>, since: int)
    requires Ordered(logs) && logs != [] && logs[0].core.number > since
    ensures Newer(logs, since) == logs
    ensures forall i :: 0 <= i < |logs| ==> logs[i].core.number > since
  {
    assert forall i :: 0 < i < |logs| ==> logs[0].core.number < logs[i].core.number;
    assert logs == [logs[0]] + logs[1..];
    if |logs| > 1 {
      assert logs[1..][0] == logs[1];
      AllNewer(logs[1..], since);
    }
  }

  lemma {:induction false} NewerMembers(logs: seq<Log>, since: int)
    ensures forall l :: l in Newer(logs, since) <==> l in logs && l.core.number > since
  {
    if logs != [] {
      NewerMembers(logs[1..], since);
      assert logs == [logs[0]] + logs[1..];
    }
  }

  lemma {:induction false} NewerAppend(logs: seq<Log>, log: Log, since: int)
    ensures Newer(logs + [log], since) == Newer(logs, since) + (if log.core.number > since then [log] else [])
  {
    if logs == [] {
      assert [log][1..] == [];
      assert [] + [log] == [log];
    } else {
      NewerAppend(logs[1..], log, since);
      assert (logs + [log])[1..] == logs[1..] + [log];
    }
  }

  /** A page holds at most limit rows, all of them above since; in a table ordered by number it is ordered
    too, and a row above since that it leaves out comes after all of a full page. */
  ghost predicate IsPage(logs: seq<Log>, since: int, limit: nat, page: seq<Log>) {
    && |page| <= limit
    && (forall l :: l in page ==> l in logs && l.core.number > since)
    && (Ordered(logs) ==> Ordered(page))
    && (forall l :: l in logs && l.core.number > since && l !in page ==>
          |page| == limit && (Ordered(logs) ==> forall m :: m in page ==> m.core.number < l.core.number))
  }

  lemma TakeIsPage(logs: seq<Log>, since: int, limit: nat)
    ensures IsPage(logs, since, limit, Take(Newer(logs, since), limit))
  {
    hide Newer, Older;
    NewerMembers(logs, since);
    var newer := Newer(logs, since);
    var page := Take(newer, limit);
    assert forall i :: 0 <= i < |page| ==> page[i] == newer[i] && page[i] in page;
    if Ordered(logs) {
      NewerIsSuffix(logs, since);
      assert Ordered(newer) by {
        SuffixOrdered(logs, Older(logs, since));
      }
    }
    forall l | l in logs && l.core.number > since && l !in page
      ensures |page| == limit && (Ordered(logs) ==> forall m :: m in page ==> m.core.number < l.core.number)
    {
      var j :| 0 <= j < |newer| && newer[j] == l;
      assert j >= |page|;
    }
  }

  lemma SuffixOrdered(logs: seq<Log>, k: nat)
    requires Ordered(logs) && k <= |logs|
    ensures Ordered(logs[k..])
  {
    forall i, j | 0 <= i < j < |logs[k..]|
      ensures logs[k..][i].id < logs[k..][j].id && logs[k..][i].core.number < logs[k..][j].core.number
    {
      assert logs[k..][i] == logs[k + i] && logs[k..][j] == logs[k + j];
    }
  }

  lemma NextPage(db: Db, since: int, limit: nat)
    requires Ordered(db.logs) && limit > 0 && ChangesSince(db, since, limit) != []
    ensures var page := ChangesSince(db, since, limit);
      Newer(db.logs, since) == page + Newer(db.logs, page[|page| - 1].core.number)
  {
    hide Newer, Older;
    NewerIsSuffix(db.logs, since);
    var page, k := ChangesSince(db, since, limit), Older(db.logs, since);
    var last := k + |page| - 1;
    assert page[|page| - 1] == db.logs[last];
    NewerIsSuffix(db.logs, db.logs[last].core.number);
    var k' := Older(db.logs, db.logs[last].core.number);
    assert last + 1 < |db.logs| ==> db.logs[last].core.number < db.logs[last + 1].core.number;
    assert k' == last + 1;
  }

  /** A standby that polls, each time with the last number it saw, until a page is empty. */
  ghost function PollAll(db: Db, since: int, limit: nat): seq<Log>
    requires Ordered(db.logs) && limit > 0
    decreases |Newer(db.logs, since)|
  {
    var page := ChangesSince(db, since, limit);
    if page == [] then []
    else
      NextPage(db, since, limit);
      page + PollAll(db, page[|page| - 1].core.number, limit)
  }

  /** Polling in any reachable state ends, and delivers every live row above the start exactly once
    and in increasing order, whatever the page size. */
  lemma PollingIsComplete(steps: seq<Step>, config: Config, since: int, limit: nat)
    requires Injective(config.checksum) && limit > 0
    ensures var db := Run(EMPTY, steps, config).db;
      && Ordered(db.logs)
      && Ordered(PollAll(db, since, limit))
      && (forall l :: l in PollAll(db, since, limit) <==> l in db.logs && l.core.number > since)
  {
    Reachable(steps, config);
    PollDelivers(Run(EMPTY, steps, config).db, since, limit);
  }

  lemma PollDelivers(db: Db, since: int, limit: nat)
    requires Ordered(db.logs) && limit > 0
    ensures Ordered(PollAll(db, since, limit))
    ensures forall l :: l in PollAll(db, since, limit) <==> l in db.logs && l.core.number > since
  {
    hide Newer, PollAll, Older;
    PollIsNewer(db, since, limit);
    NewerIsSuffix(db.logs, since);
    var logs, k := db.logs, Older(db.logs, since);
    SuffixOrdered(logs, k);
    forall l | l in logs && l.core.number > since ensures l in logs[k..] {
      var i :| 0 <= i < |logs| && logs[i] == l;
      assert l == logs[k..][i - k];
    }
  }

  lemma {:induction false} PollIsNewer(db: Db, since: int, limit: nat)
    requires Ordered(db.logs) && limit > 0
    ensures PollAll(db, since, limit) == Newer(db.logs, since)
    decreases |Newer(db.logs, since)|
  {
    var page := ChangesSince(db, since, limit);
    if page != [] {
      NextPage(db, since, limit);
      PollIsNewer(db, page[|page| - 1].core.number, limit);
    }
  }

  /// Polling while the primary goes on

  /** Between the two states a row was made whose number is not above since. */
  ghost predicate MadeBelow(w: World, w': World, since: int) {
    exists id :: id in w'.db.created && id !in w.db.created && w'.db.created[id].number <= since
  }

  lemma SyncMakesBelowIff(db: Db, blobs: map<RecordId, Bytes>, standby: Standbys, record: RecordId, snapshot: string,
                          lookup: Lookup, net: seq<Net>, config: Config, since: int)
    requires Injective(config.checksum) && Accounted(db)
    ensures var created' := SyncRecord(db, blobs, standby, record, snapshot, lookup, net, config).db.created;
      (exists id :: id in created' && id !in db.created && created'[id].number <= since)
      <==> created' != db.created && MaxNumber(db.logs) < since
  {
    hide SyncRecord, Injective, ActiveNodes, MaxNumber, Landed;
    var outcome := SyncRecord(db, blobs, standby, record, snapshot, lookup, net, config);
    SyncRaisesIff(db, blobs, standby, record, snapshot, lookup, net, config);
    var targets := ActiveNodes(db.nodes);
    if record in blobs && LastNumber(db.logs, lookup).Some? {
      SyncOutcome(db, blobs, standby, record, snapshot, lookup, net, config);
      SyncKeepsCreated(db, blobs, standby, record, snapshot, lookup, net, config);
      forall id | id in outcome.db.created && id !in db.created
        ensures outcome.db.created[id].number == MaxNumber(db.logs) + (id - db.nextId) + 1
      {
        var i := id - db.nextId;
        assert outcome.db.created[AttemptAt(db, targets, i, record, blobs[record], snapshot, MaxNumber(db.logs), net,
                                            config).id].number == MaxNumber(db.logs) + i + 1;
      }
      if targets != [] {
        assert db.nextId in outcome.db.created && db.nextId !in db.created;
      }
    } else {
      NoTargets(db, blobs, standby, record, snapshot, lookup, net, config);
    }
  }

  /** A sync that cannot start makes no row. */
  lemma NoTargets(db: Db, blobs: map<RecordId, Bytes>, standby: Standbys, record: RecordId, snapshot: string,
                  lookup: Lookup, net: seq<Net>, config: Config)
    requires record !in blobs || LastNumber(db.logs, lookup).None?
    ensures SyncRecord(db, blobs, standby, record, snapshot, lookup, net, config).db == db
  {
  }

  lemma {:induction false} SyncKeepsCreated(db: Db, blobs: map<RecordId, Bytes>, standby: Standbys, record: RecordId,
                                            snapshot: string, lookup: Lookup, net: seq<Net>, config: Config)
    requires Accounted(db)
    ensures Extends(db.created, SyncRecord(db, blobs, standby, record, snapshot, lookup, net, config).db.created)
  {
    hide SyncLoop, Accounted;
    var targets := ActiveNodes(db.nodes);
    if targets != [] && record in blobs && LastNumber(db.logs, lookup).Some? {
      SyncLoopKeepsCreated(db, standby, targets, |targets|, record, blobs[record], snapshot,
                           LastNumber(db.logs, lookup).value, net, config);
    }
  }

  lemma {:induction false} SyncLoopKeepsCreated(db: Db, standby: Standbys, targets: seq<Node>, k: nat, record: RecordId,
                                                data: Bytes, snapshot: string, base: nat, net: seq<Net>, config: Config)
    requires Accounted(db) && k <= |targets|
    ensures var db' := SyncLoop(db, standby, targets, k, record, data, snapshot, base, net, config).0;
      Extends(db.created, db'.created) && db'.nextId == db.nextId + k
  {
    hide Push;
    if k > 0 {
      SyncLoopKeepsCreated(db, standby, targets, k - 1, record, data, snapshot, base, net, config);
    }
  }

  /** A step makes a row that a poller at since would miss if and only if it makes any row while no live
    row has a number as high: the row with that number has become a dead letter or was reset, and the
    number is given out again. */
  lemma StepMakesBelowIff(w: World, step: Step, since: int, config: Config)
    requires Injective(config.checksum) && Inv(w, config)
    ensures var w' := Apply(w, step, config);
      MadeBelow(w, w', since) <==> w'.db.created != w.db.created && MaxNumber(w.db.logs) < since
  {
    hide SyncRecord, RetryPending, Injective, MaxNumber, Accounted, RetriesLeft, CoresOk, StandbysOk, AckedHeld;
    match step.action
    case Put(record, data, snapshot, lookup, net) =>
      var db := w.db.(records := w.db.records + {record});
      AccountedIgnoresRecords(w.db, db.records);
      SyncMakesBelowIff(db, w.blobs[record := data], w.standby, record, snapshot, lookup, net, config, since);
    case Sync(record, snapshot, lookup, net) =>
      SyncMakesBelowIff(w.db, w.blobs, w.standby, record, snapshot, lookup, net, config, since);
    case Retry(limit, net) =>
      RetryKeepsNodes(w.db, w.blobs, w.standby, limit, net, config);
    case _ =>
  }

  /** Whenever the run makes rows, the highest live number is at least since. */
  ghost predicate TopKept(w: World, steps: seq<Step>, since: int, config: Config)
    decreases |steps|
  {
    steps != [] ==>
      var w' := Apply(w, steps[0], config);
      (w'.db.created != w.db.created ==> MaxNumber(w.db.logs) >= since) && TopKept(w', steps[1..], since, config)
  }

  lemma {:induction false} RunMakesBelowIff(w: World, steps: seq<Step>, since: int, config: Config)
    requires Injective(config.checksum) && Inv(w, config)
    ensures MadeBelow(w, Run(w, steps, config), since) <==> !TopKept(w, steps, since, config)
    decreases |steps|
  {
    if steps != [] {
      hide Apply, Inv, Injective, MaxNumber;
      var w' := Apply(w, steps[0], config);
      StepMakesBelowIff(w, steps[0], since, config);
      StepKeepsInv(w, steps[0], config);
      RunMakesBelowIff(w', steps[1..], since, config);
      RunKeepsInv(w', steps[1..], config);
      BelowOverTwo(w, w', Run(w', steps[1..], config), since);
    }
  }

  lemma BelowOverTwo(w: World, w': World, w'': World, since: int)
    requires Extends(w.db.created, w'.db.created) && Extends(w'.db.created, w''.db.created)
    ensures MadeBelow(w, w'', since) <==> MadeBelow(w, w', since) || MadeBelow(w', w'', since)
  {
    if id :| id in w''.db.created && id !in w.db.created && w''.db.created[id].number <= since {
      assert id in w'.db.created || id !in w'.db.created;
    }
    if id :| id in w'.db.created && id !in w.db.created && w'.db.created[id].number <= since {
      assert id in w''.db.created;
    }
    if id :| id in w''.db.created && id !in w'.db.created && w''.db.created[id].number <= since {
      assert id !in w.db.created;
    }
  }

  /** A standby that comes back after the primary has gone on, with the last number it saw. The poll is in
    order and without repetition, and of the live rows made meanwhile it misses exactly those whose
    number is not above the one seen: none if the highest live number had not fallen below that whenever
    rows were made, and otherwise every one of some rows, as far as they are still live. */
  lemma {:induction false} PollMissesIff(before: seq<Step>, steps: seq<Step>, config: Config, since: int, limit: nat)
    requires Injective(config.checksum) && limit > 0
    ensures var w := Run(EMPTY, before, config);
      var w' := Run(w, steps, config);
      && Ordered(w'.db.logs) && Ordered(PollAll(w'.db, since, limit))
      && (TopKept(w, steps, since, config) <==> !MadeBelow(w, w', since))
      && (forall l :: l in w'.db.logs && l.id !in w.db.created ==>
            (l !in PollAll(w'.db, since, limit) <==> l.core.number <= since))
      && ((exists l :: l in w'.db.logs && l.id !in w.db.created && l !in PollAll(w'.db, since, limit))
          <==> !TopKept(w, steps, since, config) && LiveBelow(w, w', since))
  {
    hide Run, TopKept, PollAll, MaxNumber, CoresOk, StandbysOk, AckedHeld, RetriesLeft;
    var w := Run(EMPTY, before, config);
    var w' := Run(w, steps, config);
    Reachable(before, config);
    RunKeepsInv(w, steps, config);
    RunMakesBelowIff(w, steps, since, config);
    PollDelivers(w'.db, since, limit);
    forall l | l in w'.db.logs ensures l.id in w'.db.created && w'.db.created[l.id] == l.core {
    }
  }

  /** One of the rows made between the two states with a number not above since is still live. */
  ghost predicate LiveBelow(w: World, w': World, since: int) {
    exists l :: l in w'.db.logs && l.id !in w.db.created && l.core.number <= since
  }

  /// A run that misses a row

  lemma KeptOne(row: Log, touched: set<nat>, retryMax: nat)
    ensures Kept([row], touched, retryMax) == if Doomed(row, touched, retryMax) then [] else [row]
  {
    assert [row][..0] == [];
  }

  /** The row of a push with this number to the only node of an otherwise empty table. */
  function OnlyRow(id: nat, record: RecordId, node: NodeId, data: Bytes, number: nat, net: Net, config: Config): Log {
    var core := Core(record, node, config.checksum(data), "", number);
    if net == Delivered(data, true) then Log(id, core, Acked, 0) else Log(id, core, Failed, 1)
  }

  lemma OneRow(db: Db, standby: Standbys, node: Node, record: RecordId, data: Bytes, net: Net, config: Config)
    requires Injective(config.checksum) && db.logs == []
    ensures var db' := SyncLoop(db, standby, [node], 1, record, data, "", 0, [net], config).0;
      db'.logs == [OnlyRow(db.nextId, record, node.id, data, 1, net, config)]
  {
    hide SyncLoop, Injective;
    SyncLoopRows(db, standby, [node], 1, record, data, "", 0, [net], config);
    var attempts := AttemptsOf(db, [node], 1, record, data, "", 0, [net], config);
    assert attempts[0] == AttemptAt(db, [node], 0, record, data, "", 0, [net], config);
    hide AttemptsOf;
    var db' := SyncLoop(db, standby, [node], 1, record, data, "", 0, [net], config).0;
    assert db'.logs[|db.logs| + 0] == FirstRow(attempts[0], data);
  }

  lemma OnlyRowFacts(id: nat, record: RecordId, node: NodeId, data: Bytes, number: nat, net: Net, config: Config)
    ensures var row := OnlyRow(id, record, node, data, number, net, config);
      && row.id == id && row.core.record == record && row.core.node == node && row.core.number == number
      && (if net == Delivered(data, true) then row.status == Acked else row.status == Failed && row.retries == 1)
  {
  }

  lemma OneActive(node: Node)
    requires node.status == Active
    ensures ActiveNodes([node]) == [node]
  {
    assert [node][..0] == [];
  }

  lemma OneSync(db: Db, blobs: map<RecordId, Bytes>, standby: Standbys, node: Node, record: RecordId, lookup: Lookup,
                net: Net, config: Config)
    requires Injective(config.checksum) && config.retryMax >= 2 && node.status == Active
    requires db.nodes == [node] && db.logs == [] && record in blobs
    ensures var outcome := SyncRecord(db, blobs, standby, record, "", lookup, [net], config);
      && !outcome.raised
      && outcome.db.logs == [OnlyRow(db.nextId, record, node.id, blobs[record], 1, net, config)]
  {
    hide SyncLoop, Injective, ActiveNodes, OnlyRow, NewIds, Kept, Letters;
    var data := blobs[record];
    OneActive(node);
    OneRow(db, standby, node, record, data, net, config);
    var db' := SyncLoop(db, standby, [node], 1, record, data, "", 0, [net], config).0;
    OnlyRowFacts(db.nextId, record, node.id, data, 1, net, config);
    KeptOne(OnlyRow(db.nextId, record, node.id, data, 1, net, config), NewIds(db'.logs, db.nextId), config.retryMax);
  }

  lemma OnePut(w: World, node: Node, record: RecordId, data: Bytes, lookup: Lookup, net: Net, config: Config)
    requires Injective(config.checksum) && config.retryMax >= 2 && node.status == Active
    requires w.db.nodes == [node] && w.db.logs == [] && record !in w.written
    ensures var w' := Apply(w, Step(Put(record, data, "", lookup, [net]), true), config);
      && w'.db.nodes == [node] && w'.db.records == w.db.records + {record}
      && w'.db.logs == [OnlyRow(w.db.nextId, record, node.id, data, 1, net, config)]
      && w'.written == w.written[record := data] && w'.blobs == w.blobs[record := data]
  {
    hide SyncRecord, Injective, OnlyRow;
    var db, blobs := w.db.(records := w.db.records + {record}), w.blobs[record := data];
    OneSync(db, blobs, w.standby, node, record, lookup, net, config);
    SyncKeepsNodes(db, blobs, w.standby, record, "", lookup, [net], config);
  }

  lemma LastRetry(w: World, node: Node, log: Log, config: Config)
    requires node.status == Active && w.db.nodes == [node] && w.db.logs == [log] && log.core.node == node.id
    requires log.status == Failed && log.retries + 1 == config.retryMax
    requires log.core.record in w.db.records && log.core.record in w.blobs
    ensures var w' := Apply(w, Step(Retry(config.retryMax, [Lost]), true), config);
      w'.db.nodes == [node] && w'.db.logs == [] && w'.written == w.written
  {
    assert RetryLoop(w.db, w.blobs, w.standby, 0, config.retryMax, [Lost], config) == Tried([], w.standby, {}, false);
    var t := RetryLoop(w.db, w.blobs, w.standby, 1, config.retryMax, [Lost], config);
    var row := log.(status := Failed, retries := log.retries + 1);
    assert t.logs == [row] && t.touched == {log.id};
    KeptOne(row, t.touched, config.retryMax);
  }

  /** One node and two tries. The first push is lost, a poll sees the row with number 1, the retry is lost
    and the row becomes a dead letter; the row of the next record is number 1 again, and the standby,
    which goes on from 1, never sees it. */
  lemma ReusedNumberIsMissed(a: NodeId, e: Endpoint, r: RecordId, data: Bytes, q: RecordId, data': Bytes,
                             lookup: Lookup, limit: nat, config: Config)
    requires Injective(config.checksum) && config.retryMax == 2 && limit > 0 && q != r
    ensures var w := Apply(Apply(EMPTY, Step(Register(a, e), true), config),
                           Step(Put(r, data, "", lookup, [Lost]), true), config);
      var w' := Apply(Apply(w, Step(Retry(2, [Lost]), true), config),
                      Step(Put(q, data', "", lookup, [Delivered(data', true)]), true), config);
      && |w.db.logs| == 1 && w.db.logs[0].core.number == 1 && ChangesSince(w.db, 0, limit) == w.db.logs
      && |w'.db.logs| == 1 && w'.db.logs[0].core.record == q && w'.db.logs[0].status == Acked
      && ChangesSince(w'.db, 1, limit) == []
  {
    var node := Node(a, e, Active);
    var w0 := Apply(EMPTY, Step(Register(a, e), true), config);
    assert w0.db == EMPTY.db.(nodes := [node]) && w0.written == map[];
    hide Apply, Injective, ChangesSince, OnlyRow;
    OnlyRowFacts(0, r, a, data, 1, Lost, config);
    OnePut(w0, node, r, data, lookup, Lost, config);
    var w := Apply(w0, Step(Put(r, data, "", lookup, [Lost]), true), config);
    var row := OnlyRow(0, r, a, data, 1, Lost, config);
    LastRetry(w, node, row, config);
    var w2 := Apply(w, Step(Retry(2, [Lost]), true), config);
    OnePut(w2, node, q, data', lookup, Delivered(data', true), config);
    OnlyRowFacts(w2.db.nextId, q, a, data', 1, Delivered(data', true), config);
    OnePage(w.db, row, 0, limit);
    OnePage(Apply(w2, Step(Put(q, data', "", lookup, [Delivered(data', true)]), true), config).db,
            OnlyRow(w2.db.nextId, q, a, data', 1, Delivered(data', true), config), 1, limit);
  }

  lemma OnePage(db: Db, row: Log, since: int, limit: nat)
    requires db.logs == [row] && limit > 0
    ensures ChangesSince(db, since, limit) == if row.core.number > since then [row] else []
  {
    assert [row][1..] == [];
    assert Newer([row], since) == if row.core.number > since then [row] else [];
    assert [row][..1] == [row];
  }
}
