/** The reorg handler of crates/forge-index-sync/src/reorg/handler.rs, and what a detected reorg
    followed by its handling does to chain state and tables. */
module Handler {
  import opened Tables
  import opened ReorgLog
  import opened ReorgStores
  import opened Buffer
  import opened Chain

  /** The order in which the database answers a query for shadow rows: any that the query allows. */
  type Answer = (seq<ShadowRow>, nat) -> seq<ShadowRow>

  ghost predicate Possible(answer: Answer) {
    forall log, b :: Selection(answer(log, b), log, b)
  }

  datatype Data = Data(tables: map<string, Table>, shadows: map<string, seq<ShadowRow>>, schemas: map<string, Schema>)

  /** How a rollback ended: whether it succeeded, how many rows it replayed, and the data it left. */
  datatype Outcome = Outcome(ok: bool, replayed: nat, data: Data)

  function RollbackOne(name: string, fork: nat, answer: Answer, d: Data): Outcome {
    if name !in d.shadows || name !in d.tables then Outcome(false, 0, d)
    else
      var rows := answer(d.shadows[name], fork);
      var n := FirstStuck(rows, d.tables[name], Required(d.schemas, name));
      var tables := d.tables[name := UndoAll(rows[..n], d.tables[name])];
      if n == |rows| then Outcome(true, n, Data(tables, d.shadows[name := Below(d.shadows[name], fork)], d.schemas))
      else Outcome(false, 0, Data(tables, d.shadows, d.schemas))
  }

  /** Rolling the tables back one after the other, adding up the replayed rows, until one fails. */
  function RollbackTables(names: seq<string>, fork: nat, answer: Answer, d: Data, total: nat): Outcome
    decreases |names|
  {
    if names == [] then Outcome(true, total, d)
    else
      var one := RollbackOne(names[0], fork, answer, d);
      if one.ok then RollbackTables(names[1..], fork, answer, one.data, total + one.replayed)
      else Outcome(false, total, one.data)
  }

  lemma FirstRolledBack(names: seq<string>, fork: nat, answer: Answer, d: Data, total: nat, sum: nat)
    requires names != [] && sum == total + RollbackOne(names[0], fork, answer, d).replayed
    ensures var one := RollbackOne(names[0], fork, answer, d);
      RollbackTables(names, fork, answer, d, total) ==
      if one.ok then RollbackTables(names[1..], fork, answer, one.data, sum) else Outcome(false, total, one.data)
  {
  }

  /** The i-th table of a rollback has been rolled back. */
  lemma TableRolledBack(names: seq<string>, i: nat, fork: nat, answer: Answer, d: Data, total: nat,
                        ok: bool, total': nat, d': Data)
    requires i < |names|
    requires var one := RollbackOne(names[i], fork, answer, d);
      ok == one.ok && d' == one.data && (ok ==> total' == total + one.replayed)
    ensures RollbackTables(names[i..], fork, answer, d, total) ==
            if ok then RollbackTables(names[i + 1..], fork, answer, d', total') else Outcome(false, total, d')
  {
    assert names[i..][0] == names[i] && names[i..][1..] == names[i + 1..];
  }

  class ReorgHandler {
    const store: ReorgStore
    const buffer: WriteBuffer
    const tables: seq<string>

    constructor (store: ReorgStore, buffer: WriteBuffer, tables: seq<string>)
      requires store.db == buffer.db
      ensures this.store == store && this.buffer == buffer && this.tables == tables
    {
      this.store, this.buffer, this.tables := store, buffer, tables;
    }

    ghost predicate Valid()
      reads this, store, buffer, buffer.db
    {
      store.db == buffer.db && buffer.db.Valid() && buffer.Valid()
    }

    ghost function Contents(): Data
      reads this, buffer, buffer.db
    {
      Data(buffer.db.tables, buffer.db.shadows, buffer.db.schemas)
    }

    method RollbackTable(name: string, forkBlock: nat, answer: Answer) returns (r: Result<nat, DbError>)
      requires Valid() && Possible(answer)
      modifies buffer.db
      ensures Valid()
      ensures var one := RollbackOne(name, forkBlock, answer, old(Contents()));
        Contents() == one.data && (r.Ok? <==> one.ok) && (r.Ok? ==> r.value == one.replayed)
    {
      var log := if name in buffer.db.shadows then buffer.db.shadows[name] else [];
      var rows := answer(log, forkBlock);
      assert Selection(rows, log, forkBlock);
      r := store.RollbackFromBlock(name, forkBlock, rows);
    }

    method RollbackAll(forkBlock: nat, answer: Answer) returns (r: Result<nat, DbError>)
      requires Valid() && Possible(answer)
      modifies buffer.db
      ensures Valid()
      ensures var all := RollbackTables(tables, forkBlock, answer, old(Contents()), 0);
        Contents() == all.data && (r.Ok? <==> all.ok) && (r.Ok? ==> r.value == all.replayed)
    {
      var total, i := 0, 0;
      ghost var d := Contents();
      ghost var all := RollbackTables(tables, forkBlock, answer, d, 0);
      assert tables[0..] == tables;
      while i < |tables|
        invariant 0 <= i <= |tables| && Valid() && d == Contents()
        invariant RollbackTables(tables[i..], forkBlock, answer, d, total) == all
      {
        var affected := RollbackTable(tables[i], forkBlock, answer);
        if affected.Err? {
          TableRolledBack(tables, i, forkBlock, answer, d, total, false, total, Contents());
          return Err(affected.error);
        }
        var sum := total + affected.value;
        TableRolledBack(tables, i, forkBlock, answer, d, total, true, sum, Contents());
        d := Contents();
        i, total := i + 1, sum;
      }
      return Ok(total);
    }

    /** Flush what is pending, roll every table back, then report the number of replayed rows. The
        count of rolled-back blocks is computed in unsigned arithmetic and panics on underflow. */
    method HandleReorg(chainId: nat, forkBlock: nat, newTip: nat, answer: Answer, pending: seq<string>,
                       faults: map<string, Fault>)
      returns (r: Result<nat, SyncError>)
      requires Valid() && Possible(answer)
      requires (set n | n in pending) == buffer.buffers.Keys
      modifies buffer, buffer.db
      ensures Valid()
      ensures var (flushed, st) := FlushNames(pending, faults, old(buffer.Snapshot()), buffer.columns);
        var d0 := old(Contents()).(tables := st.tables);
        var all := RollbackTables(tables, forkBlock, answer, d0, 0);
        && buffer.buffers == st.buffers
        && Contents() == (if flushed then all.data else d0)
        && (r.Ok? <==> flushed && all.ok && forkBlock <= newTip)
        && (r.Ok? ==> r.value == all.replayed)
    {
      var flush := buffer.FlushAll(pending, faults);
      if flush.Err? {
        return Err(Database(flush.error));
      }
      var rolled := RollbackAll(forkBlock, answer);
      if rolled.Err? {
        return Err(Database(rolled.error));
      }
      if newTip < forkBlock {
        return Err(Overflow(newTip, forkBlock));
      }
      return Ok(rolled.value);
    }
  }
}
