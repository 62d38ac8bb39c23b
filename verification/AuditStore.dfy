/** The records and the audit ledger of the engine over transactions (engine.py, 38-65, 137-340
  and 521-565).

  The chain lives in memory and never rolls back; the tables do. A session sees the tables as they
  will be if it commits. The theorems follow both through every sequence of operations, commits,
  rollbacks, reloads of the chain and crashes.
 */
module AuditStore {
  import opened Ledger

  type RecordId = string

  datatype Record = Record(deleted: bool, deletedAt: Timestamp)

  datatype Checkpoint = Checkpoint(number: int, lastEntryHash: Digest)

  /** The tables that the engine writes: records, audit_log by entry number, ledger_checkpoints. */
  datatype Tables = Tables(records: map<RecordId, Record>, rows: seq<Entry>, checkpoints: seq<Checkpoint>)

  datatype Chain = Chain(entries: seq<Entry>, last: Digest)

  datatype State = State(chain: Chain, visible: Tables, committed: Tables)

  /** The settings: the checkpoint interval, the retention in the clock's unit, and what the
    timestamp column gives back for a timestamp stored in it. */
  datatype Config = Config(hasher: Hasher, interval: int, retention: int, column: Timestamp -> Timestamp)

  const START := Tables(map[], [], [])

  function Start(config: Config): State {
    State(Chain([], config.hasher.genesis), START, START)
  }

  /// The chain and its persistence

  function Append(chain: Chain, event: Event, now: Timestamp, config: Config): Chain {
    var entry := NextEntry(config.hasher, chain.entries, chain.last, event, now);
    Chain(chain.entries + [entry], entry.hash)
  }

  /** The highest entry number in the table, or 0. */
  function MaxRow(rows: seq<Entry>): int {
    if rows == [] then 0
    else
      var m, n := MaxRow(rows[..|rows| - 1]), rows[|rows| - 1].body.number;
      if n > m then n else m
  }

  function EntriesAbove(entries: seq<Entry>, number: int): seq<Entry> {
    if entries == [] then []
    else
      var n := |entries| - 1;
      EntriesAbove(entries[..n], number) + (if entries[n].body.number > number then [entries[n]] else [])
  }

  /** A checkpoint is due when new rows were written and the whole chain is a multiple of the
    interval long. */
  function DueCheckpoint(chain: Chain, added: seq<Entry>, interval: int): seq<Checkpoint> {
    if added != [] && interval > 0 && |chain.entries| % interval == 0
    then [Checkpoint(|chain.entries| / interval, chain.last)]
    else []
  }

  function Persist(chain: Chain, tables: Tables, config: Config): Tables {
    var added := EntriesAbove(chain.entries, MaxRow(tables.rows));
    tables.(rows := tables.rows + added,
            checkpoints := tables.checkpoints + DueCheckpoint(chain, added, config.interval))
  }

  /** A row as it is read back. */
  function ReadBack(entry: Entry, config: Config): Entry {
    entry.(body := entry.body.(timestamp := config.column(entry.body.timestamp)))
  }

  function LoadChain(rows: seq<Entry>, config: Config): Chain {
    var entries := seq(|rows|, i requires 0 <= i < |rows| => ReadBack(rows[i], config));
    Chain(entries, Last(config.hasher, entries))
  }

  /// Operations on records

  function RecordEvent(actor: string, action: string, id: RecordId, details: string): Event {
    Event(Some(actor), action, "record", Some(id), "success", Some(details), None, None)
  }

  /** allowed stands for the permission, ownership and quota checks; a refused or failing operation
    raises before it changes anything. */
  datatype Operation =
    | Put(actor: string, id: RecordId, details: string, allowed: bool)
    | Get(actor: string, id: RecordId, details: string, allowed: bool)
    | Delete(actor: string, id: RecordId, details: string, allowed: bool)
    | PurgeSoftDeleted(actor: string, selected: seq<RecordId>, allowed: bool)

  predicate Purgeable(record: Record, now: Timestamp, retention: int) {
    record.deleted && record.deletedAt < now - retention
  }

  /** The purge loop over the first n of the selected records. */
  function PurgeLoop(chain: Chain, records: map<RecordId, Record>, actor: string, selected: seq<RecordId>, n: nat,
                     now: Timestamp, config: Config): (Chain, map<RecordId, Record>)
    requires n <= |selected|
  {
    if n == 0 then (chain, records)
    else
      var (chain', records') := PurgeLoop(chain, records, actor, selected, n - 1, now, config);
      (Append(chain', RecordEvent(actor, "purge", selected[n - 1], ""), now, config), records' - {selected[n - 1]})
  }

  /** The query of a purge returns its matches in some order, each once. */
  ghost predicate SelectedBy(records: map<RecordId, Record>, selected: seq<RecordId>, now: Timestamp, retention: int) {
    && (forall i, j :: 0 <= i < j < |selected| ==> selected[i] != selected[j])
    && (forall id :: id in selected <==> id in records && Purgeable(records[id], now, retention))
  }

  /** The effect of an operation on the chain and on the tables that the session sees. */
  ghost function Perform(chain: Chain, tables: Tables, op: Operation, now: Timestamp, config: Config): (Chain, Tables) {
    match op
    case Put(actor, id, details, allowed) =>
      if !allowed || id in tables.records then (chain, tables)
      else
        var chain' := Append(chain, RecordEvent(actor, "create", id, details), now, config);
        (chain', Persist(chain', tables.(records := tables.records[id := Record(false, 0)]), config))
    case Get(actor, id, details, allowed) =>
      if !allowed || id !in tables.records || tables.records[id].deleted then (chain, tables)
      else
        var chain' := Append(chain, RecordEvent(actor, "read", id, details), now, config);
        (chain', Persist(chain', tables, config))
    case Delete(actor, id, details, allowed) =>
      if !allowed || id !in tables.records then (chain, tables)
      else
        var chain' := Append(chain, RecordEvent(actor, "delete", id, details), now, config);
        (chain', Persist(chain', tables.(records := tables.records[id := Record(true, now)]), config))
    case PurgeSoftDeleted(actor, selected, allowed) =>
      if !allowed || !SelectedBy(tables.records, selected, now, config.retention) then (chain, tables)
      else
        var (chain', records') := PurgeLoop(chain, tables.records, actor, selected, |selected|, now, config);
        (chain', Persist(chain', tables.(records := records'), config))
  }

  datatype Step =
    | Do(op: Operation, now: Timestamp)
    | Commit
    | Rollback
    | Reload
    | Crash

  /** Reload is load_chain within a session; a crash loses the chain and what was not committed. */
  ghost function Apply(s: State, step: Step, config: Config): State {
    match step
    case Do(op, now) =>
      var (chain, tables) := Perform(s.chain, s.visible, op, now, config);
      s.(chain := chain, visible := tables)
    case Commit => s.(committed := s.visible)
    case Rollback => s.(visible := s.committed)
    case Reload => s.(chain := LoadChain(s.visible.rows, config))
    case Crash => State(LoadChain(s.committed.rows, config), s.committed, s.committed)
  }

  ghost function Run(s: State, steps: seq<Step>, config: Config): State
    decreases |steps|
  {
    if steps == [] then s else Run(Apply(s, steps[0], config), steps[1..], config)
  }

  /// The invariant of the ledger

  ghost predicate Sound(chain: Chain, config: Config) {
    Numbered(chain.entries) && Linked(config.hasher, chain.entries) && chain.last == Last(config.hasher, chain.entries)
  }

  /** Checkpoint k carries the hash of row k times the interval, and no number occurs twice. */
  ghost predicate CheckpointsOk(tables: Tables, interval: int) {
    && (forall c :: c in tables.checkpoints ==>
          && interval > 0
          && 0 < c.number * interval <= |tables.rows|
          && c.lastEntryHash == tables.rows[c.number * interval - 1].hash)
    && (forall i, j :: 0 <= i < j < |tables.checkpoints| ==>
          tables.checkpoints[i].number != tables.checkpoints[j].number)
  }

  ghost predicate Inv(s: State, config: Config) {
    && Sound(s.chain, config)
    && s.committed.rows <= s.visible.rows <= s.chain.entries
    && CheckpointsOk(s.visible, config.interval)
    && CheckpointsOk(s.committed, config.interval)
  }

  lemma SoundAppend(chain: Chain, event: Event, now: Timestamp, config: Config)
    requires Sound(chain, config)
    ensures Sound(Append(chain, event, now, config), config)
    ensures chain.entries <= Append(chain, event, now, config).entries
    ensures |Append(chain, event, now, config).entries| == |chain.entries| + 1
  {
    LinkedAppend(config.hasher, chain.entries, NextEntry(config.hasher, chain.entries, chain.last, event, now));
  }

  lemma {:induction false} MaxRowOfNumbered(rows: seq<Entry>)
    requires Numbered(rows)
    ensures MaxRow(rows) == |rows|
  {
    if rows != [] {
      MaxRowOfNumbered(rows[..|rows| - 1]);
    }
  }

  lemma {:induction false} EntriesAboveNumbered(entries: seq<Entry>, n: nat)
    requires Numbered(entries)
    ensures EntriesAbove(entries, n) == if n <= |entries| then entries[n..] else []
  {
    if entries != [] {
      var m := |entries| - 1;
      EntriesAboveNumbered(entries[..m], n);
      if n <= m {
        assert entries[..m][n..] + [entries[m]] == entries[n..];
      }
    }
  }

  /** When a persist writes a checkpoint: there is something to write and the whole chain is a multiple
    of the interval long. An operation that appends several entries may step over one. */
  predicate CheckpointDue(chain: Chain, tables: Tables, interval: int) {
    |tables.rows| < |chain.entries| && interval > 0 && |chain.entries| % interval == 0
  }

  /** Persisting makes the visible rows the whole chain, whatever part of it they held before, and adds a
    checkpoint exactly when one is due. */
  lemma PersistWrites(chain: Chain, tables: Tables, config: Config)
    requires Sound(chain, config) && tables.rows <= chain.entries
    ensures var tables' := Persist(chain, tables, config);
      && tables'.rows == chain.entries
      && tables'.records == tables.records
      && (!CheckpointDue(chain, tables, config.interval) ==> tables'.checkpoints == tables.checkpoints)
      && (CheckpointDue(chain, tables, config.interval) ==>
            tables'.checkpoints == tables.checkpoints + [Checkpoint(|chain.entries| / config.interval, chain.last)])
  {
    hide Linked, Last, EntriesAbove, MaxRow;
    MaxRowOfNumbered(tables.rows);
    EntriesAboveNumbered(chain.entries, |tables.rows|);
    assert tables.rows + chain.entries[|tables.rows|..] == chain.entries;
  }

  /** After it the rows are numbered 1 to n, and every checkpoint is right and has its own number. */
  lemma {:induction false} PersistCompletes(chain: Chain, tables: Tables, config: Config)
    requires Sound(chain, config) && tables.rows <= chain.entries && CheckpointsOk(tables, config.interval)
    ensures var tables' := Persist(chain, tables, config);
      && tables'.rows == chain.entries && Numbered(tables'.rows)
      && tables'.records == tables.records
      && tables.checkpoints <= tables'.checkpoints
      && CheckpointsOk(tables', config.interval)
  {
    hide Persist, CheckpointsOk;
    PersistWrites(chain, tables, config);
    var tables' := Persist(chain, tables, config);
    OldCheckpoints(chain, tables, config);
    if CheckpointDue(chain, tables, config.interval) {
      NewCheckpoint(chain, tables, config);
      assert tables' == tables.(rows := chain.entries, checkpoints := tables'.checkpoints);
    } else {
      assert tables' == tables.(rows := chain.entries);
    }
  }

  lemma OldCheckpoints(chain: Chain, tables: Tables, config: Config)
    requires tables.rows <= chain.entries && CheckpointsOk(tables, config.interval)
    ensures CheckpointsOk(tables.(rows := chain.entries), config.interval)
  {
  }

  lemma {:induction false} NewCheckpoint(chain: Chain, tables: Tables, config: Config)
    requires chain.last == Last(config.hasher, chain.entries)
    requires tables.rows <= chain.entries && CheckpointsOk(tables, config.interval)
    requires CheckpointDue(chain, tables, config.interval)
    ensures var c := Checkpoint(|chain.entries| / config.interval, chain.last);
      CheckpointsOk(tables.(rows := chain.entries, checkpoints := tables.checkpoints + [c]), config.interval)
  {
    var i, total := config.interval, |chain.entries|;
    var k := total / i;
    assert k * i == total;
    forall c | c in tables.checkpoints ensures c.number != k {
      assert c.number * i <= |tables.rows| < total;
    }
    assert forall j :: 0 <= j < |tables.checkpoints| ==> tables.checkpoints[j] in tables.checkpoints;
  }

  lemma {:induction false} PurgeLoopSound(chain: Chain, records: map<RecordId, Record>, actor: string,
                                          selected: seq<RecordId>, n: nat, now: Timestamp, config: Config)
    requires Sound(chain, config) && n <= |selected|
    ensures var (chain', _) := PurgeLoop(chain, records, actor, selected, n, now, config);
      Sound(chain', config) && chain.entries <= chain'.entries
  {
    hide Sound, Append;
    if n > 0 {
      PurgeLoopSound(chain, records, actor, selected, n - 1, now, config);
      var (chain', records') := PurgeLoop(chain, records, actor, selected, n - 1, now, config);
      SoundAppend(chain', RecordEvent(actor, "purge", selected[n - 1], ""), now, config);
    }
  }

  /** Every operation extends the chain soundly; if it writes anything, the rows that the session
    sees are then the whole chain. */
  lemma PerformKeeps(chain: Chain, tables: Tables, op: Operation, now: Timestamp, config: Config)
    requires Sound(chain, config) && tables.rows <= chain.entries && CheckpointsOk(tables, config.interval)
    ensures var (chain', tables') := Perform(chain, tables, op, now, config);
      && Sound(chain', config) && chain.entries <= chain'.entries
      && tables.rows <= tables'.rows <= chain'.entries
      && CheckpointsOk(tables', config.interval)
      && (chain' != chain || tables' != tables ==> tables'.rows == chain'.entries)
  {
    hide Sound, Persist, Append;
    match op
    case Put(actor, id, details, allowed) =>
      var event := RecordEvent(actor, "create", id, details);
      SoundAppend(chain, event, now, config);
      PersistCompletes(Append(chain, event, now, config), tables.(records := tables.records[id := Record(false, 0)]),
                       config);
    case Get(actor, id, details, allowed) =>
      var event := RecordEvent(actor, "read", id, details);
      SoundAppend(chain, event, now, config);
      PersistCompletes(Append(chain, event, now, config), tables, config);
    case Delete(actor, id, details, allowed) =>
      var event := RecordEvent(actor, "delete", id, details);
      SoundAppend(chain, event, now, config);
      PersistCompletes(Append(chain, event, now, config), tables.(records := tables.records[id := Record(true, now)]),
                       config);
    case PurgeSoftDeleted(actor, selected, allowed) =>
      PurgeLoopSound(chain, tables.records, actor, selected, |selected|, now, config);
      var (chain', records') := PurgeLoop(chain, tables.records, actor, selected, |selected|, now, config);
      PersistCompletes(chain', tables.(records := records'), config);
  }

  /// What each operation does

  /** The chain has one more entry, which carries this event and time, the next number, the hash before it
    and its own. */
  ghost predicate Appended(chain: Chain, chain': Chain, event: Event, now: Timestamp, config: Config) {
    var n := |chain.entries|;
    && |chain'.entries| == n + 1 && chain'.entries[..n] == chain.entries
    && chain'.entries[n].body == Body(n + 1, now, event, chain.last)
    && chain'.entries[n].hash == config.hasher.hash(chain'.entries[n].body) == chain'.last
  }

  lemma AppendedIs(chain: Chain, event: Event, now: Timestamp, config: Config)
    ensures Appended(chain, Append(chain, event, now, config), event, now, config)
  {
  }

  /** The session sees the whole chain, if the rows were a part of a sound one. */
  ghost predicate Written(chain: Chain, tables: Tables, chain': Chain, tables': Tables, config: Config) {
    Sound(chain, config) && tables.rows <= chain.entries ==> tables'.rows == chain'.entries
  }

  lemma PersistedIsWritten(chain: Chain, tables: Tables, records: map<RecordId, Record>, event: Event, now: Timestamp,
                           config: Config)
    ensures var chain' := Append(chain, event, now, config);
      var tables' := Persist(chain', tables.(records := records), config);
      tables'.records == records && Written(chain, tables, chain', tables', config)
  {
    var chain' := Append(chain, event, now, config);
    if Sound(chain, config) && tables.rows <= chain.entries {
      SoundAppend(chain, event, now, config);
      PersistWrites(chain', tables.(records := records), config);
    }
  }

  /** A put that is not refused stores an active record, tells of its creation, and persists. */
  lemma PutEffect(chain: Chain, tables: Tables, actor: string, id: RecordId, details: string, allowed: bool,
                  now: Timestamp, config: Config)
    ensures var (chain', tables') := Perform(chain, tables, Put(actor, id, details, allowed), now, config);
      if allowed && id !in tables.records then
        && tables'.records == tables.records[id := Record(false, 0)]
        && Appended(chain, chain',
                    Event(Some(actor), "create", "record", Some(id), "success", Some(details), None, None), now, config)
        && Written(chain, tables, chain', tables', config)
      else chain' == chain && tables' == tables
  {
    hide Append, Persist, Appended, Written;
    if allowed && id !in tables.records {
      var event := RecordEvent(actor, "create", id, details);
      AppendedIs(chain, event, now, config);
      PersistedIsWritten(chain, tables, tables.records[id := Record(false, 0)], event, now, config);
    }
  }

  /** A get that is not refused changes no record, tells of the reading, and persists. It is refused for a
    record that is not there or that is soft-deleted. */
  lemma GetEffect(chain: Chain, tables: Tables, actor: string, id: RecordId, details: string, allowed: bool,
                  now: Timestamp, config: Config)
    ensures var (chain', tables') := Perform(chain, tables, Get(actor, id, details, allowed), now, config);
      if allowed && id in tables.records && !tables.records[id].deleted then
        && tables'.records == tables.records
        && Appended(chain, chain',
                    Event(Some(actor), "read", "record", Some(id), "success", Some(details), None, None), now, config)
        && Written(chain, tables, chain', tables', config)
      else chain' == chain && tables' == tables
  {
    hide Append, Persist, Appended, Written;
    if allowed && id in tables.records && !tables.records[id].deleted {
      var event := RecordEvent(actor, "read", id, details);
      AppendedIs(chain, event, now, config);
      PersistedIsWritten(chain, tables, tables.records, event, now, config);
    }
  }

  /** A delete that is not refused marks the record as deleted at that time, tells of it, and persists; from
    then on the record is refused to every reader. */
  lemma DeleteEffect(chain: Chain, tables: Tables, actor: string, id: RecordId, details: string, allowed: bool,
                     now: Timestamp, config: Config)
    ensures var (chain', tables') := Perform(chain, tables, Delete(actor, id, details, allowed), now, config);
      if allowed && id in tables.records then
        && tables'.records == tables.records[id := Record(true, now)]
        && Appended(chain, chain',
                    Event(Some(actor), "delete", "record", Some(id), "success", Some(details), None, None), now, config)
        && Written(chain, tables, chain', tables', config)
        && forall reader, note, may, later ::
             Perform(chain', tables', Get(reader, id, note, may), later, config) == (chain', tables')
      else chain' == chain && tables' == tables
  {
    hide Append, Persist, Appended, Written;
    if allowed && id in tables.records {
      var event := RecordEvent(actor, "delete", id, details);
      AppendedIs(chain, event, now, config);
      PersistedIsWritten(chain, tables, tables.records[id := Record(true, now)], event, now, config);
      var (chain', tables') := Perform(chain, tables, Delete(actor, id, details, allowed), now, config);
      forall reader, note, may, later
        ensures Perform(chain', tables', Get(reader, id, note, may), later, config) == (chain', tables')
      {
      }
    }
  }

  /** The entries go on with one for each of the first n selected records, in their order, which tells of its
    purge by the actor at that time. */
  ghost predicate TellsPurges(entries: seq<Entry>, entries': seq<Entry>, actor: string, selected: seq<RecordId>, n: nat,
                              now: Timestamp)
    requires n <= |selected|
  {
    && |entries'| == |entries| + n && entries'[..|entries|] == entries
    && forall i :: 0 <= i < n ==> TellsPurge(entries'[|entries| + i].body, actor, selected[i], now)
  }

  predicate TellsPurge(body: Body, actor: string, id: RecordId, now: Timestamp) {
    && body.timestamp == now
    && body.event == Event(Some(actor), "purge", "record", Some(id), "success", Some(""), None, None)
  }

  lemma TellOneMore(entries: seq<Entry>, chain: Chain, actor: string, selected: seq<RecordId>, n: nat, now: Timestamp,
                    config: Config)
    requires n < |selected| && TellsPurges(entries, chain.entries, actor, selected, n, now)
    ensures var chain' := Append(chain, RecordEvent(actor, "purge", selected[n], ""), now, config);
      TellsPurges(entries, chain'.entries, actor, selected, n + 1, now)
  {
  }

  lemma {:induction false} PurgeLoopTells(chain: Chain, records: map<RecordId, Record>, actor: string,
                                          selected: seq<RecordId>, n: nat, now: Timestamp, config: Config)
    requires n <= |selected|
    ensures TellsPurges(chain.entries, PurgeLoop(chain, records, actor, selected, n, now, config).0.entries, actor,
                        selected, n, now)
  {
    if n > 0 {
      hide Append, TellsPurges;
      PurgeLoopTells(chain, records, actor, selected, n - 1, now, config);
      var chain' := PurgeLoop(chain, records, actor, selected, n - 1, now, config).0;
      TellOneMore(chain.entries, chain', actor, selected, n - 1, now, config);
    }
  }

  /** A purge that is not refused tells of each record that it removes, once and in its order, and
    persists. What it removes is the statement of PurgeRemovesExactly. */
  lemma PurgeEffect(chain: Chain, tables: Tables, actor: string, selected: seq<RecordId>, allowed: bool, now: Timestamp,
                    config: Config)
    requires SelectedBy(tables.records, selected, now, config.retention)
    ensures var (chain', tables') := Perform(chain, tables, PurgeSoftDeleted(actor, selected, allowed), now, config);
      if allowed then
        && TellsPurges(chain.entries, chain'.entries, actor, selected, |selected|, now)
        && Written(chain, tables, chain', tables', config)
      else chain' == chain && tables' == tables
  {
    hide Append, Persist, PurgeLoop, SelectedBy, TellsPurges, Sound;
    if allowed {
      PurgeLoopTells(chain, tables.records, actor, selected, |selected|, now, config);
      var (chain', records') := PurgeLoop(chain, tables.records, actor, selected, |selected|, now, config);
      if Sound(chain, config) && tables.rows <= chain.entries {
        PurgeLoopSound(chain, tables.records, actor, selected, |selected|, now, config);
        PersistWrites(chain', tables.(records := records'), config);
      }
    }
  }

  /// Retention

  /** The record is there, and if it is soft-deleted then not before t. */
  ghost predicate KeptSince(records: map<RecordId, Record>, id: RecordId, t: Timestamp) {
    id in records && (records[id].deleted ==> records[id].deletedAt >= t)
  }

  /** Nothing purges at a time later than t by more than the retention, and the record is not deleted at a
    time before t. */
  predicate Early(step: Step, id: RecordId, t: Timestamp, retention: int) {
    step.Do? ==>
      && (step.op.PurgeSoftDeleted? ==> step.now <= t + retention)
      && (step.op.Delete? && step.op.id == id ==> step.now >= t)
  }

  lemma EarlyStepKeeps(s: State, step: Step, config: Config, id: RecordId, t: Timestamp)
    requires KeptSince(s.visible.records, id, t) && KeptSince(s.committed.records, id, t)
    requires Early(step, id, t, config.retention)
    ensures var s' := Apply(s, step, config);
      KeptSince(s'.visible.records, id, t) && KeptSince(s'.committed.records, id, t)
  {
    hide Persist, Append, LoadChain, PurgeLoop;
    if step.Do? {
      match step.op
      case Put(actor, other, details, allowed) =>
        PutEffect(s.chain, s.visible, actor, other, details, allowed, step.now, config);
      case Get(actor, other, details, allowed) =>
        GetEffect(s.chain, s.visible, actor, other, details, allowed, step.now, config);
      case Delete(actor, other, details, allowed) =>
        DeleteEffect(s.chain, s.visible, actor, other, details, allowed, step.now, config);
      case PurgeSoftDeleted(actor, selected, allowed) =>
        if allowed && SelectedBy(s.visible.records, selected, step.now, config.retention) {
          PurgeRemovesExactly(s.chain, s.visible, actor, selected, step.now, config);
        }
    }
  }

  /** A record that is active, or was soft-deleted at t or later, survives every purge up to t plus the
    retention, over every run of operations, commits, rollbacks, reloads and crashes. */
  lemma {:induction false} RetentionIsKept(s: State, steps: seq<Step>, config: Config, id: RecordId, t: Timestamp)
    requires KeptSince(s.visible.records, id, t) && KeptSince(s.committed.records, id, t)
    requires forall i :: 0 <= i < |steps| ==> Early(steps[i], id, t, config.retention)
    ensures var s' := Run(s, steps, config);
      KeptSince(s'.visible.records, id, t) && KeptSince(s'.committed.records, id, t)
    decreases |steps|
  {
    hide Apply, KeptSince, Early;
    if steps != [] {
      EarlyStepKeeps(s, steps[0], config, id, t);
      assert forall i :: 0 <= i < |steps[1..]| ==> steps[1..][i] == steps[i + 1];
      RetentionIsKept(Apply(s, steps[0], config), steps[1..], config, id, t);
    }
  }

  /// Reading the chain back

  /** A reload takes over every row, with the timestamp that the column gives back, and the last stored hash. */
  lemma LoadChainEffect(rows: seq<Entry>, config: Config)
    ensures var chain := LoadChain(rows, config);
      && |chain.entries| == |rows|
      && (forall i :: 0 <= i < |rows| ==>
            && chain.entries[i].hash == rows[i].hash
            && chain.entries[i].body == Body(rows[i].body.number, config.column(rows[i].body.timestamp),
                                             rows[i].body.event, rows[i].body.previous))
      && chain.last == if rows == [] then config.hasher.genesis else rows[|rows| - 1].hash
  {
  }

  /** Every stored timestamp comes back as it was. */
  ghost predicate Exact(rows: seq<Entry>, config: Config) {
    forall i :: 0 <= i < |rows| ==> config.column(rows[i].body.timestamp) == rows[i].body.timestamp
  }

  /** A reloaded chain passes verification exactly when the column gives every timestamp back
    unchanged; it is then the chain that was stored. */
  lemma ReloadVerifiesIff(rows: seq<Entry>, config: Config)
    requires Ideal(config.hasher) && Linked(config.hasher, rows)
    ensures Failures(config.hasher, LoadChain(rows, config).entries) == [] <==> Exact(rows, config)
    ensures Exact(rows, config) ==> LoadChain(rows, config).entries == rows
    ensures LoadChain(rows, config).last == Last(config.hasher, rows)
  {
    var h, read := config.hasher, LoadChain(rows, config).entries;
    NoFailuresIffLinked(h, read);
    if Linked(h, read) {
      forall i | 0 <= i < |rows| ensures config.column(rows[i].body.timestamp) == rows[i].body.timestamp {
        assert read[i].hash == rows[i].hash;
        assert h.hash(read[i].body) == h.hash(rows[i].body);
      }
    }
    if Exact(rows, config) {
      assert forall i :: 0 <= i < |rows| ==> ReadBack(rows[i], config) == rows[i];
      assert read == rows;
    }
  }

  /** The column loses nothing. */
  ghost predicate ColumnExact(config: Config) {
    forall t :: config.column(t) == t
  }

  lemma {:induction false} LoadedIsSound(chain: Chain, rows: seq<Entry>, config: Config)
    requires Ideal(config.hasher) && ColumnExact(config) && Sound(chain, config) && rows <= chain.entries
    ensures LoadChain(rows, config).entries == rows && Sound(LoadChain(rows, config), config)
  {
    LinkedPrefix(config.hasher, chain.entries, |rows|);
    assert chain.entries[..|rows|] == rows;
    assert Exact(rows, config);
    ReloadVerifiesIff(rows, config);
  }

  /** A reload in a good state makes the chain what the session sees; so after a rollback a reload takes the
    entries of what was rolled back out of the chain again. */
  lemma {:induction false} ReloadEffect(s: State, config: Config)
    requires Ideal(config.hasher) && ColumnExact(config) && Inv(s, config)
    ensures var s' := Apply(s, Reload, config);
      && s'.chain.entries == s.visible.rows && Sound(s'.chain, config)
      && s'.visible == s.visible && s'.committed == s.committed
    ensures var s' := Apply(Apply(s, Rollback, config), Reload, config);
      s'.chain.entries == s.committed.rows == s'.visible.rows && s'.visible == s.committed
  {
    hide Sound, CheckpointsOk, ColumnExact, Ideal;
    LoadedIsSound(s.chain, s.visible.rows, config);
    LoadedIsSound(s.chain, s.committed.rows, config);
  }

  lemma {:induction false} StepKeepsInv(s: State, step: Step, config: Config)
    requires Ideal(config.hasher) && ColumnExact(config) && Inv(s, config)
    ensures Inv(Apply(s, step, config), config)
  {
    hide Sound, CheckpointsOk, Perform, ColumnExact, Ideal;
    match step
    case Do(op, now) =>
      PerformKeeps(s.chain, s.visible, op, now, config);
    case Reload =>
      LoadedIsSound(s.chain, s.visible.rows, config);
    case Crash =>
      LoadedIsSound(s.chain, s.committed.rows, config);
    case _ =>
  }

  lemma {:induction false} RunKeepsInv(s: State, steps: seq<Step>, config: Config)
    requires Ideal(config.hasher) && ColumnExact(config) && Inv(s, config)
    ensures Inv(Run(s, steps, config), config)
    decreases |steps|
  {
    hide Inv, Apply, ColumnExact, Ideal;
    if steps != [] {
      StepKeepsInv(s, steps[0], config);
      RunKeepsInv(Apply(s, steps[0], config), steps[1..], config);
    }
  }

  lemma {:induction false} Reachable(steps: seq<Step>, config: Config)
    requires Ideal(config.hasher) && ColumnExact(config)
    ensures Inv(Run(Start(config), steps, config), config)
  {
    hide Run;
    RunKeepsInv(Start(config), steps, config);
  }

  /// What a reachable state guarantees

  lemma {:induction false} CommittedVerifies(s: State, config: Config)
    requires Inv(s, config)
    ensures s.committed.rows <= s.chain.entries && Numbered(s.committed.rows)
    ensures Linked(config.hasher, s.committed.rows) && Failures(config.hasher, s.committed.rows) == []
    ensures Failures(config.hasher, s.chain.entries) == []
  {
    hide CheckpointsOk;
    LinkedPrefix(config.hasher, s.chain.entries, |s.committed.rows|);
    assert s.chain.entries[..|s.committed.rows|] == s.committed.rows;
    NoFailuresIffLinked(config.hasher, s.committed.rows);
    NoFailuresIffLinked(config.hasher, s.chain.entries);
  }

  /** After any operations, commits, rollbacks, reloads and crashes: the committed rows are a prefix
    of the chain in memory, they are numbered 1 to n, and both they and the chain verify. */
  lemma CommittedIsPrefix(steps: seq<Step>, config: Config)
    requires Ideal(config.hasher) && ColumnExact(config)
    ensures var s := Run(Start(config), steps, config);
      && s.committed.rows <= s.chain.entries
      && Numbered(s.committed.rows)
      && Failures(config.hasher, s.committed.rows) == []
      && Failures(config.hasher, s.chain.entries) == []
  {
    hide Run, Inv;
    Reachable(steps, config);
    CommittedVerifies(Run(Start(config), steps, config), config);
  }

  /** After a crash the chain is the committed rows, and whatever is appended next still verifies. */
  lemma {:induction false} CrashThenAppendVerifies(steps: seq<Step>, event: Event, now: Timestamp, config: Config)
    requires Ideal(config.hasher) && ColumnExact(config)
    ensures var s := Run(Start(config), steps, config);
      var crashed := Apply(s, Crash, config);
      && crashed.chain.entries == s.committed.rows
      && Failures(config.hasher, Append(crashed.chain, event, now, config).entries) == []
  {
    hide Run, Append, Sound, Linked, CheckpointsOk, Ideal, ColumnExact, LoadChain;
    Reachable(steps, config);
    var s := Run(Start(config), steps, config);
    LoadedIsSound(s.chain, s.committed.rows, config);
    AppendVerifies(LoadChain(s.committed.rows, config), event, now, config);
  }

  lemma AppendVerifies(chain: Chain, event: Event, now: Timestamp, config: Config)
    requires Sound(chain, config)
    ensures Failures(config.hasher, Append(chain, event, now, config).entries) == []
  {
    SoundAppend(chain, event, now, config);
    NoFailuresIffLinked(config.hasher, Append(chain, event, now, config).entries);
  }

  /** A committed checkpoint k is the only one with its number, carries the hash of row k times the
    interval, and any verifying ledger with that hash anywhere agrees with the committed rows up to
    there, position included. */
  lemma {:induction false} CheckpointPinsHistory(steps: seq<Step>, config: Config, c: Checkpoint, other: seq<Entry>,
                                                 position: nat)
    requires Ideal(config.hasher) && ColumnExact(config)
    requires c in Run(Start(config), steps, config).committed.checkpoints
    requires Failures(config.hasher, other) == []
    requires 0 < position <= |other| && other[position - 1].hash == c.lastEntryHash
    ensures var tables := Run(Start(config), steps, config).committed;
      && position == c.number * config.interval <= |tables.rows|
      && other[..position] == tables.rows[..position]
      && (forall d :: d in tables.checkpoints && d.number == c.number ==> d == c)
  {
    hide Run, Sound, Linked, Ideal, ColumnExact, Failures, Numbered;
    Reachable(steps, config);
    var s := Run(Start(config), steps, config);
    CommittedVerifies(s, config);
    NoFailuresIffLinked(config.hasher, other);
    HashPinsPrefix(config.hasher, other, position, s.committed.rows, c.number * config.interval);
  }

  /// The records that the ledger tells of

  datatype Census = Census(active: set<RecordId>, deleted: set<RecordId>)

  /** What one ledger entry says about the records. */
  function Tell(census: Census, event: Event): Census {
    if event.resource.None? then census
    else
      var id := event.resource.value;
      if event.action == "create" then census.(active := census.active + {id})
      else if event.action == "delete" then Census(census.active - {id}, census.deleted + {id})
      else if event.action == "purge" then census.(deleted := census.deleted - {id})
      else census
  }

  function Replay(entries: seq<Entry>): Census {
    if entries == [] then Census({}, {})
    else Tell(Replay(entries[..|entries| - 1]), entries[|entries| - 1].body.event)
  }

  function CensusOf(records: map<RecordId, Record>): Census {
    Census(set id | id in records && !records[id].deleted, set id | id in records && records[id].deleted)
  }

  lemma ReplayAppend(chain: Chain, event: Event, now: Timestamp, config: Config)
    ensures Replay(Append(chain, event, now, config).entries) == Tell(Replay(chain.entries), event)
  {
    var all := Append(chain, event, now, config).entries;
    assert all[..|all| - 1] == chain.entries;
  }

  /** What the purge loop does to the records, whatever the ledger says of them. */
  lemma {:induction false} PurgeLoopRecords(chain: Chain, records: map<RecordId, Record>, actor: string,
                                            selected: seq<RecordId>, n: nat, now: Timestamp, config: Config)
    requires n <= |selected|
    ensures var records' := PurgeLoop(chain, records, actor, selected, n, now, config).1;
      && (forall id :: id in records' <==> id in records && id !in selected[..n])
      && (forall id :: id in records' ==> records'[id] == records[id])
  {
    hide Append;
    if n > 0 {
      PurgeLoopRecords(chain, records, actor, selected, n - 1, now, config);
      assert selected[..n] == selected[..n - 1] + [selected[n - 1]];
    }
  }

  lemma {:induction false} PurgeLoopReplays(chain: Chain, records: map<RecordId, Record>, actor: string,
                                            selected: seq<RecordId>, n: nat, now: Timestamp, config: Config)
    requires n <= |selected| && Replay(chain.entries) == CensusOf(records)
    requires SelectedBy(records, selected, now, config.retention)
    ensures var (chain', records') := PurgeLoop(chain, records, actor, selected, n, now, config);
      Replay(chain'.entries) == CensusOf(records')
  {
    hide Append, Replay;
    if n > 0 {
      PurgeLoopReplays(chain, records, actor, selected, n - 1, now, config);
      PurgeLoopRecords(chain, records, actor, selected, n - 1, now, config);
      var (chain', records') := PurgeLoop(chain, records, actor, selected, n - 1, now, config);
      var id := selected[n - 1];
      ReplayAppend(chain', RecordEvent(actor, "purge", id, ""), now, config);
      assert id in selected && id in records && records[id].deleted;
      assert CensusOf(records' - {id}) == Tell(CensusOf(records'), RecordEvent(actor, "purge", id, ""));
    }
  }

  /** A purge removes exactly the soft-deleted records that are past their retention: never an active
    record, nor one that may still be wanted. */
  lemma PurgeRemovesExactly(chain: Chain, tables: Tables, actor: string, selected: seq<RecordId>, now: Timestamp,
                            config: Config)
    requires SelectedBy(tables.records, selected, now, config.retention)
    ensures var (_, tables') := Perform(chain, tables, PurgeSoftDeleted(actor, selected, true), now, config);
      && (forall id :: id in tables'.records <==>
            && id in tables.records
            && !(tables.records[id].deleted && tables.records[id].deletedAt < now - config.retention))
      && (forall id :: id in tables'.records ==> tables'.records[id] == tables.records[id])
  {
    hide Persist;
    PurgeLoopRecords(chain, tables.records, actor, selected, |selected|, now, config);
    assert selected[..|selected|] == selected;
    PersistKeepsRecords(chain, tables, actor, selected, now, config);
  }

  lemma PersistKeepsRecords(chain: Chain, tables: Tables, actor: string, selected: seq<RecordId>, now: Timestamp,
                            config: Config)
    requires SelectedBy(tables.records, selected, now, config.retention)
    ensures Perform(chain, tables, PurgeSoftDeleted(actor, selected, true), now, config).1.records
         == PurgeLoop(chain, tables.records, actor, selected, |selected|, now, config).1
  {
  }

  lemma PerformReplays(chain: Chain, tables: Tables, op: Operation, now: Timestamp, config: Config)
    requires Replay(chain.entries) == CensusOf(tables.records)
    ensures var (chain', tables') := Perform(chain, tables, op, now, config);
      Replay(chain'.entries) == CensusOf(tables'.records)
  {
    hide Append, Replay;
    match op
    case Put(actor, id, details, allowed) =>
      var event := RecordEvent(actor, "create", id, details);
      ReplayAppend(chain, event, now, config);
      if allowed && id !in tables.records {
        assert CensusOf(tables.records[id := Record(false, 0)]) == Tell(CensusOf(tables.records), event);
      }
    case Get(actor, id, details, allowed) =>
      ReplayAppend(chain, RecordEvent(actor, "read", id, details), now, config);
    case Delete(actor, id, details, allowed) =>
      var event := RecordEvent(actor, "delete", id, details);
      ReplayAppend(chain, event, now, config);
      if allowed && id in tables.records {
        assert CensusOf(tables.records[id := Record(true, now)]) == Tell(CensusOf(tables.records), event);
      }
    case PurgeSoftDeleted(actor, selected, allowed) =>
      if allowed && SelectedBy(tables.records, selected, now, config.retention) {
        hide CensusOf;
        PurgeLoopReplays(chain, tables.records, actor, selected, |selected|, now, config);
      }
  }

  /** The chain, the visible rows and the committed rows each tell the records as they are there. */
  ghost predicate Story(s: State, config: Config) {
    && Inv(s, config)
    && Replay(s.chain.entries) == CensusOf(s.visible.records)
    && Replay(s.visible.rows) == CensusOf(s.visible.records)
    && Replay(s.committed.rows) == CensusOf(s.committed.records)
  }

  /** A rollback that takes back nothing that the ledger tells of: no change to which records are active
    or deleted. */
  ghost predicate Harmless(s: State, step: Step) {
    step == Rollback ==> CensusOf(s.visible.records) == CensusOf(s.committed.records)
  }

  /** Exactly when a step keeps the ledger and the records together: always, but for a rollback that is
    not harmless. The chain then remembers what the tables have forgotten. */
  lemma {:induction false} StoryKeptIff(s: State, step: Step, config: Config)
    requires Ideal(config.hasher) && ColumnExact(config) && Story(s, config)
    ensures Story(Apply(s, step, config), config) <==> Harmless(s, step)
  {
    hide Sound, CheckpointsOk, Perform, ColumnExact, Ideal, Replay, CensusOf, LoadChain;
    StepKeepsInv(s, step, config);
    match step
    case Do(op, now) =>
      PerformKeeps(s.chain, s.visible, op, now, config);
      PerformReplays(s.chain, s.visible, op, now, config);
    case Reload =>
      LoadedIsSound(s.chain, s.visible.rows, config);
    case Crash =>
      LoadedIsSound(s.chain, s.committed.rows, config);
    case _ =>
  }

  ghost predicate HarmlessRollbacks(s: State, steps: seq<Step>, config: Config)
    decreases |steps|
  {
    steps != [] ==> Harmless(s, steps[0]) && HarmlessRollbacks(Apply(s, steps[0], config), steps[1..], config)
  }

  ghost predicate StoryThroughout(s: State, steps: seq<Step>, config: Config)
    decreases |steps|
  {
    Story(s, config) && (steps != [] ==> StoryThroughout(Apply(s, steps[0], config), steps[1..], config))
  }

  /** Replaying the creations, deletions and purges of the ledger gives exactly the active and the
    soft-deleted records in every state of a run, crashes and reloads included, if and only if every
    rollback of the run is harmless. */
  lemma {:induction false} LedgerTellsRecordsIff(s: State, steps: seq<Step>, config: Config)
    requires Ideal(config.hasher) && ColumnExact(config) && Story(s, config)
    ensures StoryThroughout(s, steps, config) <==> HarmlessRollbacks(s, steps, config)
    ensures HarmlessRollbacks(s, steps, config) ==> Story(Run(s, steps, config), config)
    decreases |steps|
  {
    hide Story, Apply, ColumnExact, Ideal, Harmless;
    if steps != [] {
      StoryKeptIff(s, steps[0], config);
      if Story(Apply(s, steps[0], config), config) {
        LedgerTellsRecordsIff(Apply(s, steps[0], config), steps[1..], config);
      }
    }
  }

  lemma {:induction false} LedgerTellsRecordsFromStart(steps: seq<Step>, config: Config)
    requires Ideal(config.hasher) && ColumnExact(config) && HarmlessRollbacks(Start(config), steps, config)
    ensures var s := Run(Start(config), steps, config);
      && Replay(s.visible.rows) == CensusOf(s.visible.records)
      && Replay(s.committed.rows) == CensusOf(s.committed.records)
  {
    hide Run, HarmlessRollbacks, StoryThroughout;
    LedgerTellsRecordsIff(Start(config), steps, config);
  }

  /** And in any state it stays broken: a record whose creation was rolled back is written to the audit log by the
    next operation on any other record, and a commit makes it permanent. */
  lemma {:induction false} RollbackLeavesPhantom(s: State, config: Config, a: string, id: RecordId, details: string,
                                                 now: Timestamp, b: string, id': RecordId, details': string,
                                                 now': Timestamp)
    requires Inv(s, config)
    requires id != id' && id !in s.visible.records && id !in s.committed.records && id' !in s.committed.records
    ensures var steps := [Do(Put(a, id, details, true), now), Rollback, Do(Put(b, id', details', true), now'), Commit];
      var s' := Run(s, steps, config);
      && id in Replay(s'.committed.rows).active
      && id !in s'.committed.records
  {
    hide Append, Replay, Persist, Inv, Run;
    var first, second := Do(Put(a, id, details, true), now), Do(Put(b, id', details', true), now');
    UnfoldFour(s, first, Rollback, second, Commit, config);
    var s1 := Apply(s, first, config);
    var s2 := Apply(s1, Rollback, config);
    var s3 := Apply(s2, second, config);
    ReplayAppend(s.chain, RecordEvent(a, "create", id, details), now, config);
    ReplayAppend(s2.chain, RecordEvent(b, "create", id', details'), now', config);
    PutWrites(s1.chain, s.committed, b, id', details', now', config) by {
      InvFacts(s, config);
      PerformKeeps(s.chain, s.visible, Put(a, id, details, true), now, config);
    }
    assert id in Replay(s1.chain.entries).active;
    assert id in Replay(s3.chain.entries).active;
  }

  lemma InvFacts(s: State, config: Config)
    requires Inv(s, config)
    ensures Sound(s.chain, config) && s.committed.rows <= s.visible.rows <= s.chain.entries
    ensures CheckpointsOk(s.visible, config.interval) && CheckpointsOk(s.committed, config.interval)
  {
  }

  /** A creation on tables that lag behind a longer chain writes that chain. */
  lemma PutWrites(chain: Chain, tables: Tables, actor: string, id: RecordId, details: string, now: Timestamp,
                  config: Config)
    requires Sound(chain, config) && tables.rows <= chain.entries && id !in tables.records
    ensures var (chain', tables') := Perform(chain, tables, Put(actor, id, details, true), now, config);
      tables'.rows == chain'.entries && tables'.records == tables.records[id := Record(false, 0)]
  {
    var chain' := Append(chain, RecordEvent(actor, "create", id, details), now, config);
    SoundAppend(chain, RecordEvent(actor, "create", id, details), now, config);
    PersistWrites(chain', tables.(records := tables.records[id := Record(false, 0)]), config);
  }

  lemma UnfoldFour(s: State, a: Step, b: Step, c: Step, d: Step, config: Config)
    ensures Run(s, [a, b, c, d], config) == Apply(Apply(Apply(Apply(s, a, config), b, config), c, config), d, config)
  {
    hide Apply;
    assert [a, b, c, d][1..] == [b, c, d] && [b, c, d][1..] == [c, d] && [c, d][1..] == [d] && [d][1..] == [];
    var s1 := Apply(s, a, config);
    var s2 := Apply(s1, b, config);
    var s3 := Apply(s2, c, config);
    assert Run(s3, [d], config) == Apply(s3, d, config);
    assert Run(s2, [c, d], config) == Run(s3, [d], config);
    assert Run(s1, [b, c, d], config) == Run(s2, [c, d], config);
  }
}
