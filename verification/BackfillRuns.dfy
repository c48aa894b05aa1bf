/** Backfill over any number of starts, interrupted anywhere: no checkpoint runs ahead of the tables. */
module BackfillRuns {
  import opened Tables
  import opened Sorting
  import opened Delivery
  import opened Backfill
  import opened BackfillSafety

  ghost predicate Standing(cfg: Config, d: Durable) {
    CheckpointsSafe(cfg, d) && Schema(cfg, d.tables)
  }

  lemma {:induction false} RangesStand(cfg: Config, d: Durable, cp: map<string, nat>, head: nat, chunk: nat,
                                       plans: seq<ContractPlan>, i: nat, fates: seq<Fate>)
    requires Planned(cfg, cp, head, chunk, plans) && Running(cfg, d, cp, plans, i)
    ensures Standing(cfg, RunRanges(d, cfg, plans, i, fates))
    decreases |fates|
  {
    if fates != [] && i < MaxRanges(plans) && fates[0].Completes? {
      CompletedRangeSafe(cfg, d, cp, head, chunk, plans, i, fates[0].saved);
      RangesStand(cfg, AfterRange(d, cfg, plans, i, fates[0].saved), cp, head, chunk, plans, i + 1, fates[1..]);
      RunOneRange(d, cfg, plans, i, fates);
    } else {
      EndedStands(cfg, d, plans, i, fates);
    }
  }

  lemma {:induction false} EndedStands(cfg: Config, d: Durable, plans: seq<ContractPlan>, i: nat, fates: seq<Fate>)
    requires Standing(cfg, d) && (i < MaxRanges(plans) ==> NoOverflow(Batch(cfg.source, plans, i), cfg))
    requires fates == [] || i >= MaxRanges(plans) || !fates[0].Completes?
    ensures Standing(cfg, RunRanges(d, cfg, plans, i, fates))
  {
    if fates != [] && i < MaxRanges(plans) {
      RunOneRange(d, cfg, plans, i, fates);
      if fates[0].FlushStops? {
        InterruptedFlushSafe(cfg, d, plans, i, fates[0].written);
      }
    }
  }

  lemma RunRangesSafe(cfg: Config, d: Durable, cp: map<string, nat>, head: nat, chunk: nat,
                      plans: seq<ContractPlan>, i: nat, fates: seq<Fate>)
    requires Planned(cfg, cp, head, chunk, plans) && Running(cfg, d, cp, plans, i)
    ensures CheckpointsSafe(cfg, RunRanges(d, cfg, plans, i, fates))
    ensures Schema(cfg, RunRanges(d, cfg, plans, i, fates).tables)
  {
    RangesStand(cfg, d, cp, head, chunk, plans, i, fates);
  }

  /** No range of a start overflows the buffer. */
  ghost predicate StartFits(cfg: Config, d: Durable, s: Start) {
    s.chunk >= 1 && RangesFit(cfg, PlansOf(d, cfg, s))
  }

  ghost predicate Roomy(cfg: Config, d: Durable, starts: seq<Start>)
    decreases |starts|
  {
    starts == [] ||
    (StartFits(cfg, d, starts[0]) && Roomy(cfg, RunOnce(d, cfg, starts[0]), starts[1..]))
  }

  // Where rows come from

  /** Some event of a contract gives the row with key k and these cells in table t. */
  ghost predicate FromEvent(cfg: Config, t: string, k: Value, cells: Cells) {
    exists c, n, e :: c in cfg.contracts && e in cfg.source(c.name, n) && Emitted(cfg, e, t, k, cells)
  }

  /** Every row of the base tables is still there, unchanged, and every other row is one that an event gives. */
  ghost predicate Sourced(cfg: Config, base: map<string, Table>, tables: map<string, Table>) {
    && AllKept(base, tables)
    && (forall t, k :: t in tables && k in tables[t] && k !in base[t] ==> FromEvent(cfg, t, k, tables[t][k]))
  }

  lemma {:induction false} InEventsFrom(source: Source, c: string, a: nat, b: nat, e: Event) returns (n: nat)
    requires e in EventsIn(source, c, a, b)
    ensures e in source(c, n)
    decreases b - a
  {
    n := a;
    if e !in source(c, a) {
      n := InEventsFrom(source, c, a + 1, b, e);
    }
  }

  lemma {:induction false} InGatherFrom(source: Source, plans: seq<ContractPlan>, i: nat, e: Event)
    returns (k: nat, n: nat)
    requires e in GatherAt(source, plans, i)
    ensures k < |plans| && e in source(plans[k].name, n)
  {
    var p := plans[0];
    if i < |p.ranges| && e in Fetch(source, p.name, p.ranges[i]) {
      SortKeeps(EventsIn(source, p.name, p.ranges[i].from, p.ranges[i].to + 1), ByPosition());
      n := InEventsFrom(source, p.name, p.ranges[i].from, p.ranges[i].to + 1, e);
      k := 0;
    } else {
      k, n := InGatherFrom(source, plans[1..], i, e);
      k := k + 1;
    }
  }

  ghost predicate NamesMatch(cfg: Config, plans: seq<ContractPlan>) {
    |plans| == |cfg.contracts| && forall k :: 0 <= k < |plans| ==> plans[k].name == cfg.contracts[k].name
  }

  lemma WrittenSourced(cfg: Config, base: map<string, Table>, tables: map<string, Table>, plans: seq<ContractPlan>,
                       i: nat, names: set<string>)
    requires NoOverflow(Batch(cfg.source, plans, i), cfg) && NamesMatch(cfg, plans) && Sourced(cfg, base, tables)
    ensures Sourced(cfg, base, Written(tables, Buffered(cfg, plans, i), names))
  {
    var after := Written(tables, Buffered(cfg, plans, i), names);
    WrittenAdds(cfg, tables, plans, i, names);
    forall t, k | t in after && k in after[t] && k !in base[t]
      ensures FromEvent(cfg, t, k, after[t][k])
    {
      if k !in tables[t] {
        var e :| e in GatherAt(cfg.source, plans, i) && Emitted(cfg, e, t, k, after[t][k]);
        var j, n := InGatherFrom(cfg.source, plans, i, e);
        assert cfg.contracts[j] in cfg.contracts;
      }
    }
  }

  lemma {:induction false} RunRangesSourced(cfg: Config, base: map<string, Table>, d: Durable,
                                            plans: seq<ContractPlan>, i: nat, fates: seq<Fate>)
    requires RangesFit(cfg, plans) && NamesMatch(cfg, plans) && Sourced(cfg, base, d.tables)
    ensures Sourced(cfg, base, RunRanges(d, cfg, plans, i, fates).tables)
    decreases |fates|
  {
    if fates != [] && i < MaxRanges(plans) {
      RunOneRange(d, cfg, plans, i, fates);
      assert NoOverflow(Batch(cfg.source, plans, i), cfg);
      if fates[0].FlushStops? {
        WrittenSourced(cfg, base, d.tables, plans, i, fates[0].written);
      } else if fates[0].Completes? {
        WrittenSourced(cfg, base, d.tables, plans, i, d.tables.Keys);
        RunRangesSourced(cfg, base, AfterRange(d, cfg, plans, i, fates[0].saved), plans, i + 1, fates[1..]);
      }
    }
  }

  lemma {:induction false} RunAllSourced(cfg: Config, base: map<string, Table>, d: Durable, starts: seq<Start>)
    requires Roomy(cfg, d, starts) && (forall s <- starts :: s.chunk >= 1) && Sourced(cfg, base, d.tables)
    ensures Sourced(cfg, base, RunAll(d, cfg, starts).tables)
    decreases |starts|
  {
    if starts != [] {
      var s := starts[0];
      RunRangesSourced(cfg, base, d, PlansOf(d, cfg, s), 0, s.fates);
      RunAllSourced(cfg, base, RunOnce(d, cfg, s), starts[1..]);
    }
  }

  lemma {:induction false} RunAllSafe(cfg: Config, d: Durable, starts: seq<Start>)
    requires Schema(cfg, d.tables) && DistinctNames(cfg.contracts) && CheckpointsSafe(cfg, d)
    requires Roomy(cfg, d, starts) && forall s <- starts :: s.chunk >= 1
    ensures CheckpointsSafe(cfg, RunAll(d, cfg, starts))
    decreases |starts|
  {
    if starts != [] {
      var s := starts[0];
      RunRangesSafe(cfg, d, Readable(d.checkpoints, s.unread), s.head, s.chunk, PlansOf(d, cfg, s), 0, s.fates);
      RunAllSafe(cfg, RunOnce(d, cfg, s), starts[1..]);
    }
  }

  /** Checkpoint safety over all runs: whatever fails and however often the indexer restarts, for every row
      that the blocks below a contract's checkpoint give there is a row under its key in its table. Rows that
      were there at first are still there, unchanged, and every other row is, with all its columns, one that
      some event gives for that table and key. */
  lemma CheckpointsAlwaysSafe(cfg: Config, d: Durable, starts: seq<Start>)
    requires Schema(cfg, d.tables) && DistinctNames(cfg.contracts) && CheckpointsSafe(cfg, d)
    requires Roomy(cfg, d, starts) && forall s <- starts :: s.chunk >= 1
    ensures CheckpointsSafe(cfg, RunAll(d, cfg, starts))
    ensures Sourced(cfg, d.tables, RunAll(d, cfg, starts).tables)
  {
    RunAllSafe(cfg, d, starts);
    RunAllSourced(cfg, d.tables, d, starts);
  }

  /** Events that give a row with the same key in the same table give the same row. */
  ghost predicate Consistent(cfg: Config) {
    forall t, k, x, y :: FromEvent(cfg, t, k, x) && FromEvent(cfg, t, k, y) ==> x == y
  }

  /** Then every row of a block below the checkpoint is in its table as it was emitted, unless a row was under
      its key before the first run. */
  lemma CheckpointedRows(cfg: Config, d: Durable, starts: seq<Start>, c: Contract, n: nat, e: Event, m: Emit)
    requires Schema(cfg, d.tables) && DistinctNames(cfg.contracts) && CheckpointsSafe(cfg, d) && Consistent(cfg)
    requires Roomy(cfg, d, starts) && forall s <- starts :: s.chunk >= 1
    requires c in cfg.contracts && e in cfg.source(c.name, n) && m in cfg.handler(e) && m.key !in d.tables[m.table]
    requires var after := RunAll(d, cfg, starts);
      c.name in after.checkpoints && c.start <= n < after.checkpoints[c.name]
    ensures var after := RunAll(d, cfg, starts);
      m.table in after.tables && m.key in after.tables[m.table] && after.tables[m.table][m.key] == m.cells
  {
    var after := RunAll(d, cfg, starts);
    CheckpointsAlwaysSafe(cfg, d, starts);
    assert Covered(cfg, after.tables, c, after.checkpoints[c.name]);
    assert Emitted(cfg, e, m.table, m.key, m.cells);
    assert FromEvent(cfg, m.table, m.key, m.cells);
  }
}
