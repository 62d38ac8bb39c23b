/** The engine of the source as an object: a hash chain, and the tables that its session sees. Each
  method is proved against the function of module AuditStore that says what it does.
 */
module AuditService {
  import opened Ledger
  import opened AuditStore

  class CryptoDBEngine {
    const config: Config
    var chain: HashChain
    var tables: Tables

    ghost predicate Valid()
      reads this, chain
    {
      chain.hasher == config.hasher
    }

    function ChainValue(): Chain
      reads this, chain
    {
      Chain(chain.entries, chain.lastHash)
    }

    constructor (config: Config)
      ensures Valid() && fresh(chain)
      ensures this.config == config && ChainValue() == Start(config).chain && tables == START
    {
      this.config := config;
      chain := new HashChain(config.hasher);
      tables := START;
    }

    /** load_chain: rebuild the chain from the rows, oldest first. */
    method LoadChain()
      requires Valid()
      modifies this`chain
      ensures Valid() && fresh(chain)
      ensures ChainValue() == AuditStore.LoadChain(tables.rows, config)
    {
      var loaded := new HashChain(config.hasher);
      for i := 0 to |tables.rows|
        invariant fresh(loaded) && loaded.hasher == config.hasher
        invariant chain == old(chain) && tables == old(tables)
        invariant Chain(loaded.entries, loaded.lastHash) == AuditStore.LoadChain(tables.rows[..i], config)
      {
        var row := tables.rows[i];
        loaded.entries := loaded.entries + [ReadBack(row, config)];
        loaded.lastHash := row.hash;
        assert loaded.entries == AuditStore.LoadChain(tables.rows[..i + 1], config).entries;
      }
      assert tables.rows[..|tables.rows|] == tables.rows;
      chain := loaded;
    }

    /** Write the entries that the table does not have yet, and a checkpoint when one is due. */
    method PersistAudit()
      requires Valid()
      modifies this`tables
      ensures Valid() && tables == Persist(ChainValue(), old(tables), config)
    {
      var entries := chain.entries;
      var maxNumber := MaxRow(tables.rows);
      var added: seq<Entry> := [];
      for i := 0 to |entries|
        invariant entries == chain.entries && tables == old(tables)
        invariant added == EntriesAbove(entries[..i], maxNumber)
      {
        assert entries[..i + 1][..i] == entries[..i];
        if entries[i].body.number > maxNumber {
          added := added + [entries[i]];
        }
      }
      assert entries[..|entries|] == entries;
      for i := 0 to |added|
        invariant tables == old(tables).(rows := old(tables).rows + added[..i])
      {
        assert added[..i + 1] == added[..i] + [added[i]];
        tables := tables.(rows := tables.rows + [added[i]]);
      }
      assert added[..|added|] == added;
      if added != [] && config.interval > 0 {
        if |entries| % config.interval == 0 {
          var checkpoint := Checkpoint(|entries| / config.interval, chain.lastHash);
          tables := tables.(checkpoints := tables.checkpoints + [checkpoint]);
        }
      }
    }

    /** False stands for a refusal or a duplicate key. */
    method Put(actor: string, id: RecordId, details: string, allowed: bool, now: Timestamp) returns (done: bool)
      requires Valid()
      modifies this`tables, chain
      ensures Valid() && done == (allowed && id !in old(tables).records)
      ensures (ChainValue(), tables)
           == Perform(old(ChainValue()), old(tables), Operation.Put(actor, id, details, allowed), now, config)
    {
      if !allowed || id in tables.records {
        return false;
      }
      tables := tables.(records := tables.records[id := Record(false, 0)]);
      var _ := chain.Append(RecordEvent(actor, "create", id, details), now);
      PersistAudit();
      done := true;
    }

    /** False stands for RecordNotFoundError or a refusal. */
    method Get(actor: string, id: RecordId, details: string, allowed: bool, now: Timestamp) returns (done: bool)
      requires Valid()
      modifies this`tables, chain
      ensures Valid() && done == (allowed && id in old(tables).records && !old(tables).records[id].deleted)
      ensures (ChainValue(), tables)
           == Perform(old(ChainValue()), old(tables), Operation.Get(actor, id, details, allowed), now, config)
    {
      if !allowed || id !in tables.records || tables.records[id].deleted {
        return false;
      }
      var _ := chain.Append(RecordEvent(actor, "read", id, details), now);
      PersistAudit();
      done := true;
    }

    /** A record may be deleted again, which restarts its retention. */
    method Delete(actor: string, id: RecordId, details: string, allowed: bool, now: Timestamp) returns (done: bool)
      requires Valid()
      modifies this`tables, chain
      ensures Valid() && done == (allowed && id in old(tables).records)
      ensures (ChainValue(), tables)
           == Perform(old(ChainValue()), old(tables), Operation.Delete(actor, id, details, allowed), now, config)
    {
      if !allowed || id !in tables.records {
        return false;
      }
      tables := tables.(records := tables.records[id := Record(true, now)]);
      var _ := chain.Append(RecordEvent(actor, "delete", id, details), now);
      PersistAudit();
      done := true;
    }

    /** The query of a purge: every soft-deleted record past its retention, in some order. */
    method SelectPurgeable(now: Timestamp) returns (selected: seq<RecordId>)
      ensures SelectedBy(tables.records, selected, now, config.retention)
    {
      selected := [];
      var rest := tables.records.Keys;
      while rest != {}
        invariant rest <= tables.records.Keys
        invariant forall i, j :: 0 <= i < j < |selected| ==> selected[i] != selected[j]
        invariant forall id :: id in selected <==>
                    id in tables.records && id !in rest && Purgeable(tables.records[id], now, config.retention)
        decreases rest
      {
        var id :| id in rest;
        if Purgeable(tables.records[id], now, config.retention) {
          selected := selected + [id];
        }
        rest := rest - {id};
      }
    }

    method PurgeSoftDeleted(actor: string, allowed: bool, now: Timestamp)
      returns (purged: nat, ghost selected: seq<RecordId>)
      requires Valid()
      modifies this`tables, chain
      ensures Valid() && SelectedBy(old(tables).records, selected, now, config.retention)
      ensures purged == if allowed then |selected| else 0
      ensures (ChainValue(), tables)
           == Perform(old(ChainValue()), old(tables), Operation.PurgeSoftDeleted(actor, selected, allowed), now, config)
    {
      hide NextEntry, Persist, Linked, SelectedBy;
      var order := SelectPurgeable(now);
      selected := order;
      purged := 0;
      if !allowed {
        return;
      }
      for i := 0 to |order|
        invariant Valid() && chain == old(chain) && purged == i
        invariant tables == old(tables).(records := tables.records)
        invariant (ChainValue(), tables.records)
               == PurgeLoop(old(ChainValue()), old(tables).records, actor, order, i, now, config)
      {
        tables := tables.(records := tables.records - {order[i]});
        purged := purged + 1;
        var _ := chain.Append(RecordEvent(actor, "purge", order[i], ""), now);
      }
      PersistAudit();
    }
  }
}
