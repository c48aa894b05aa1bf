/** What holds of the database in every reachable state of a backfill that may be interrupted
    anywhere: no checkpoint runs ahead of the tables, and interruptions leave no trace once a run
    completes. */
module BackfillSafety {
  import opened Tables
  import opened Sorting
  import opened Planner
  import opened Delivery
  import opened Backfill

  // Ranges reached

  /** The first block after the first i ranges. */
  function Reached(rs: seq<BlockRange>, start: nat, i: nat): nat {
    if rs == [] || i == 0 then start
    else if i <= |rs| then rs[i - 1].to + 1
    else rs[|rs| - 1].to + 1
  }

  lemma {:induction false} ReachedIsFrom(rs: seq<BlockRange>, from: nat, current: nat, chunk: nat, i: nat)
    requires Partitions(rs, from, current, chunk) && i < |rs|
    ensures rs[i].from == Reached(rs, from, i) <= rs[i].to <= current
    decreases |rs|
  {
    if i > 0 {
      ReachedIsFrom(rs[1..], rs[0].to + 1, current, chunk, i - 1);
      assert rs[1..][i - 1] == rs[i];
      if i > 1 {
        assert rs[1..][i - 2] == rs[i - 1];
      }
    }
  }

  lemma {:induction false} ReachedEnd(rs: seq<BlockRange>, from: nat, current: nat, chunk: nat)
    requires Partitions(rs, from, current, chunk)
    ensures Reached(rs, from, |rs|) == if from > current then from else current + 1
    decreases |rs|
  {
    if rs != [] {
      ReachedEnd(rs[1..], rs[0].to + 1, current, chunk);
      if |rs| > 1 {
        assert rs[1..][|rs| - 2] == rs[|rs| - 1];
      }
    }
  }

  // Checkpoints never run ahead

  /** Handlers write to tables that exist. */
  ghost predicate Schema(cfg: Config, tables: map<string, Table>) {
    forall e, m :: m in cfg.handler(e) ==> m.table in tables
  }

  /** Every row that the contract's events in blocks [start, upto) lead to is in its table. */
  ghost predicate Covered(cfg: Config, tables: map<string, Table>, c: Contract, upto: nat) {
    forall n, e, m :: c.start <= n < upto && e in cfg.source(c.name, n) && m in cfg.handler(e) ==>
      m.table in tables && m.key in tables[m.table]
  }

  ghost predicate CheckpointsSafe(cfg: Config, d: Durable) {
    forall c <- cfg.contracts :: c.name in d.checkpoints ==> Covered(cfg, d.tables, c, d.checkpoints[c.name])
  }

  ghost predicate DistinctNames(cs: seq<Contract>) {
    forall i, j :: 0 <= i < j < |cs| ==> cs[i].name != cs[j].name
  }

  lemma {:induction false} InEventsIn(source: Source, c: string, a: nat, b: nat, n: nat, e: Event)
    requires a <= n < b && e in source(c, n)
    ensures e in EventsIn(source, c, a, b)
    decreases b - a
  {
    if a < n {
      InEventsIn(source, c, a + 1, b, n, e);
    }
  }

  lemma InFetch(source: Source, c: string, r: BlockRange, n: nat, e: Event)
    requires r.Holds(n) && e in source(c, n)
    ensures e in Fetch(source, c, r)
  {
    InEventsIn(source, c, r.from, r.to + 1, n, e);
    SortKeeps(EventsIn(source, c, r.from, r.to + 1), ByPosition());
  }

  /** Every event of a range reaches the handlers with its batch. */
  lemma {:induction false} EventInGather(source: Source, plans: seq<ContractPlan>, i: nat, k: nat, n: nat, e: Event)
    requires k < |plans| && i < |plans[k].ranges| && plans[k].ranges[i].Holds(n)
    requires e in source(plans[k].name, n)
    ensures e in GatherAt(source, plans, i)
  {
    if k == 0 {
      InFetch(source, plans[0].name, plans[0].ranges[i], n, e);
    } else {
      EventInGather(source, plans[1..], i, k - 1, n, e);
    }
  }

  /** Tables that keep every row of earlier ones. */
  ghost predicate AllKept(tables: map<string, Table>, after: map<string, Table>) {
    after.Keys == tables.Keys && forall t :: t in tables ==> Keeps(tables[t], after[t])
  }

  /** The row in table t under key k is one that a handler emits for the event. */
  ghost predicate Emitted(cfg: Config, e: Event, t: string, k: Value, cells: Cells) {
    Emit(t, k, cells) in cfg.handler(e)
  }

  lemma {:induction false} InEmitsFor(t: string, emits: seq<Emit>, w: Write)
    requires w in EmitsFor(t, emits)
    ensures w.Insert? && Emit(t, w.key, w.cells) in emits
  {
    if !(emits[0].table == t && w == Insert(emits[0].key, emits[0].cells)) {
      InEmitsFor(t, emits[1..], w);
    }
  }

  lemma {:induction false} InRowsFor(t: string, events: seq<Event>, cfg: Config, w: Write) returns (e: Event)
    requires w in RowsFor(t, events, cfg)
    ensures w.Insert? && e in events && Emitted(cfg, e, t, w.key, w.cells)
  {
    if w in EmitsFor(t, cfg.handler(events[0])) {
      e := events[0];
      InEmitsFor(t, cfg.handler(e), w);
    } else {
      e := InRowsFor(t, events[1..], cfg, w);
    }
  }

  /** Flushing a batch keeps every row already there, adds a row for every row its events give, and every
      row it adds is one that its events give. */
  lemma WrittenAdds(cfg: Config, tables: map<string, Table>, plans: seq<ContractPlan>, i: nat, names: set<string>)
    requires NoOverflow(Batch(cfg.source, plans, i), cfg)
    ensures var after := Written(tables, Buffered(cfg, plans, i), names);
      && AllKept(tables, after)
      && (forall e, m :: e in GatherAt(cfg.source, plans, i) && m in cfg.handler(e) ==>
            m.table in tables && m.table in names ==> m.key in after[m.table])
      && (forall t, k :: t in tables && k in after[t] && k !in tables[t] ==>
            exists e :: e in GatherAt(cfg.source, plans, i) && Emitted(cfg, e, t, k, after[t][k]))
  {
    var batch := Batch(cfg.source, plans, i);
    var after := Written(tables, Buffered(cfg, plans, i), names);
    SortKeeps(GatherAt(cfg.source, plans, i), ByPosition());
    forall t | t in tables
      ensures Keeps(tables[t], after[t])
    {
      TableAdds(cfg, tables[t], plans, i, t);
    }
    forall e, m | e in batch && m in cfg.handler(e) && m.table in tables && m.table in names
      ensures m.key in after[m.table]
    {
      TableAdds(cfg, tables[m.table], plans, i, m.table);
      RowInserted(batch, cfg, e, m);
    }
    forall t, k | t in tables && k in after[t] && k !in tables[t]
      ensures exists e :: e in batch && Emitted(cfg, e, t, k, after[t][k])
    {
      TableAdds(cfg, tables[t], plans, i, t);
      var e := InRowsFor(t, batch, cfg, Insert(k, after[t][k]));
    }
  }

  /** The same for one table. */
  lemma TableAdds(cfg: Config, table: Table, plans: seq<ContractPlan>, i: nat, t: string)
    requires NoOverflow(Batch(cfg.source, plans, i), cfg)
    ensures var rows := RowsFor(t, Batch(cfg.source, plans, i), cfg);
      var after := ApplyAll(Queue(Buffered(cfg, plans, i), t), table);
      && Keeps(table, after)
      && (forall w <- rows :: w.key in after)
      && (forall k :: k in after && k !in table ==> Insert(k, after[k]) in rows)
  {
    BufferedRows(cfg, plans, i, t);
    RowsAreInserts(t, Batch(cfg.source, plans, i), cfg);
    InsertsGrow(RowsFor(t, Batch(cfg.source, plans, i), cfg), table);
  }

  lemma CoveredGrows(cfg: Config, tables: map<string, Table>, after: map<string, Table>, c: Contract, upto: nat)
    requires Covered(cfg, tables, c, upto) && AllKept(tables, after)
    ensures Covered(cfg, after, c, upto)
  {
  }

  /** One contract's progress through a flushed range. */
  lemma RangeCovers(cfg: Config, tables: map<string, Table>, plans: seq<ContractPlan>, i: nat, k: nat, c: Contract,
                    start: nat, head: nat, chunk: nat)
    requires Schema(cfg, tables) && NoOverflow(Batch(cfg.source, plans, i), cfg)
    requires k < |plans| && plans[k].name == c.name && Partitions(plans[k].ranges, start, head, chunk)
    requires Covered(cfg, tables, c, Reached(plans[k].ranges, start, i))
    ensures Covered(cfg, Written(tables, Buffered(cfg, plans, i), tables.Keys), c,
                    Reached(plans[k].ranges, start, i + 1))
  {
    var rs, after := plans[k].ranges, Written(tables, Buffered(cfg, plans, i), tables.Keys);
    assert Covered(cfg, after, c, Reached(rs, start, i)) by {
      WrittenAdds(cfg, tables, plans, i, tables.Keys);
      CoveredGrows(cfg, tables, after, c, Reached(rs, start, i));
    }
    if i < |rs| {
      ReachedIsFrom(rs, start, head, chunk, i);
      NextCovered(cfg, tables, plans, i, k, c);
      assert Covered(cfg, after, c, Reached(rs, start, i + 1));
    } else {
      assert Reached(rs, start, i + 1) == Reached(rs, start, i);
    }
  }

  /** If the blocks before a range are covered, so are those up to its end. */
  lemma NextCovered(cfg: Config, tables: map<string, Table>, plans: seq<ContractPlan>, i: nat, k: nat, c: Contract)
    requires Schema(cfg, tables) && NoOverflow(Batch(cfg.source, plans, i), cfg)
    requires k < |plans| && plans[k].name == c.name && i < |plans[k].ranges|
    requires Covered(cfg, Written(tables, Buffered(cfg, plans, i), tables.Keys), c, plans[k].ranges[i].from)
    ensures Covered(cfg, Written(tables, Buffered(cfg, plans, i), tables.Keys), c, plans[k].ranges[i].to + 1)
  {
    var r, after := plans[k].ranges[i], Written(tables, Buffered(cfg, plans, i), tables.Keys);
    forall n, e, m | c.start <= n < r.to + 1 && e in cfg.source(c.name, n) && m in cfg.handler(e)
      ensures m.table in after && m.key in after[m.table]
    {
      if n >= r.from {
        RowCovered(cfg, tables, plans, i, k, n, e, m);
      }
    }
  }

  lemma RowCovered(cfg: Config, tables: map<string, Table>, plans: seq<ContractPlan>, i: nat, k: nat, n: nat,
                   e: Event, m: Emit)
    requires Schema(cfg, tables) && NoOverflow(Batch(cfg.source, plans, i), cfg)
    requires k < |plans| && i < |plans[k].ranges| && plans[k].ranges[i].Holds(n)
    requires e in cfg.source(plans[k].name, n) && m in cfg.handler(e)
    ensures var after := Written(tables, Buffered(cfg, plans, i), tables.Keys);
      m.table in after && m.key in after[m.table]
  {
    EventInGather(cfg.source, plans, i, k, n, e);
    WrittenAdds(cfg, tables, plans, i, tables.Keys);
  }

  lemma {:induction false} SavedIs(checkpoints: map<string, nat>, plans: seq<ContractPlan>, i: nat,
                                   saved: set<string>, name: string)
    requires forall a, b :: 0 <= a < b < |plans| ==> plans[a].name != plans[b].name
    ensures var after := Saved(checkpoints, plans, i, saved);
      && ((forall p <- plans :: p.name != name) ==>
            (name in after <==> name in checkpoints) && (name in after ==> after[name] == checkpoints[name]))
      && (forall k :: 0 <= k < |plans| && plans[k].name == name ==>
            if i < |plans[k].ranges| && name in saved
            then name in after && after[name] == plans[k].ranges[i].to + 1
            else (name in after <==> name in checkpoints) && (name in after ==> after[name] == checkpoints[name]))
    decreases |plans|
  {
    if plans != [] {
      var p := plans[0];
      var next := if i < |p.ranges| && p.name in saved then checkpoints[p.name := p.ranges[i].to + 1] else checkpoints;
      SavedIs(next, plans[1..], i, saved, name);
      assert forall k :: 0 < k < |plans| ==> plans[k] == plans[1..][k - 1];
    }
  }

  lemma SavedOne(checkpoints: map<string, nat>, plan: ContractPlan, i: nat, saved: set<string>)
    ensures Saved(checkpoints, [plan], i, saved) ==
      if i < |plan.ranges| && plan.name in saved then checkpoints[plan.name := plan.ranges[i].to + 1] else checkpoints
  {
    assert [plan][1..] == [];
  }

  /** Every contract's blocks before range i are covered. */
  ghost predicate Progress(cfg: Config, tables: map<string, Table>, checkpoints: map<string, nat>,
                           plans: seq<ContractPlan>, i: nat)
  {
    |plans| == |cfg.contracts| &&
    forall k :: 0 <= k < |plans| ==>
      Covered(cfg, tables, cfg.contracts[k], Reached(plans[k].ranges, StartOf(cfg.contracts[k], checkpoints), i))
  }

  ghost predicate RangesFit(cfg: Config, plans: seq<ContractPlan>) {
    forall i: nat :: i < MaxRanges(plans) ==> NoOverflow(Batch(cfg.source, plans, i), cfg)
  }

  /** The state of a run before range i. */
  ghost predicate Running(cfg: Config, d: Durable, cp: map<string, nat>, plans: seq<ContractPlan>, i: nat) {
    Schema(cfg, d.tables) && CheckpointsSafe(cfg, d) && Progress(cfg, d.tables, cp, plans, i)
  }

  ghost predicate Planned(cfg: Config, cp: map<string, nat>, head: nat, chunk: nat, plans: seq<ContractPlan>) {
    && chunk >= 1 && plans == PlansFor(cfg.contracts, cp, head, chunk)
    && DistinctNames(cfg.contracts) && RangesFit(cfg, plans)
  }

  lemma RangeProgress(cfg: Config, d: Durable, cp: map<string, nat>, head: nat, chunk: nat, plans: seq<ContractPlan>,
                      i: nat)
    requires Planned(cfg, cp, head, chunk, plans) && i < MaxRanges(plans)
    requires Schema(cfg, d.tables) && Progress(cfg, d.tables, cp, plans, i)
    ensures Progress(cfg, Written(d.tables, Buffered(cfg, plans, i), d.tables.Keys), cp, plans, i + 1)
  {
    forall k | 0 <= k < |plans|
      ensures Covered(cfg, Written(d.tables, Buffered(cfg, plans, i), d.tables.Keys), cfg.contracts[k],
                      Reached(plans[k].ranges, StartOf(cfg.contracts[k], cp), i + 1))
    {
      var c := cfg.contracts[k];
      ChunksPartition(StartOf(c, cp), head, chunk);
      RangeCovers(cfg, d.tables, plans, i, k, c, StartOf(c, cp), head, chunk);
    }
  }

  lemma CompletedRangeSafe(cfg: Config, d: Durable, cp: map<string, nat>, head: nat, chunk: nat,
                           plans: seq<ContractPlan>, i: nat, saved: set<string>)
    requires Planned(cfg, cp, head, chunk, plans) && i < MaxRanges(plans) && Running(cfg, d, cp, plans, i)
    ensures Running(cfg, AfterRange(d, cfg, plans, i, saved), cp, plans, i + 1)
  {
    var tables := Written(d.tables, Buffered(cfg, plans, i), d.tables.Keys);
    var after := Saved(d.checkpoints, plans, i, saved);
    WrittenAdds(cfg, d.tables, plans, i, d.tables.Keys);
    RangeProgress(cfg, d, cp, head, chunk, plans, i);
    forall c | c in cfg.contracts && c.name in after
      ensures Covered(cfg, tables, c, after[c.name])
    {
      var k :| 0 <= k < |cfg.contracts| && cfg.contracts[k] == c;
      SavedIs(d.checkpoints, plans, i, saved, c.name);
      if !(i < |plans[k].ranges| && c.name in saved) {
        CoveredGrows(cfg, d.tables, tables, c, d.checkpoints[c.name]);
      }
    }
  }

  lemma InterruptedFlushSafe(cfg: Config, d: Durable, plans: seq<ContractPlan>, i: nat, written: set<string>)
    requires Schema(cfg, d.tables) && CheckpointsSafe(cfg, d) && NoOverflow(Batch(cfg.source, plans, i), cfg)
    ensures var tables := Written(d.tables, Buffered(cfg, plans, i), written);
      Schema(cfg, tables) && CheckpointsSafe(cfg, d.(tables := tables))
  {
    WrittenAdds(cfg, d.tables, plans, i, written);
    var tables := Written(d.tables, Buffered(cfg, plans, i), written);
    forall c | c in cfg.contracts && c.name in d.checkpoints
      ensures Covered(cfg, tables, c, d.checkpoints[c.name])
    {
      CoveredGrows(cfg, d.tables, tables, c, d.checkpoints[c.name]);
    }
  }
}
