/** Contracts need a worker each: checkpoints are safe, as measured by what the node knows, exactly then. */
module Workers {
  import opened Tables
  import opened Planner
  import opened Delivery
  import opened Backfill
  import opened BackfillSafety
  import opened BackfillRuns

  /** What the coordinator gets to see: a contract without a worker is never fetched. */
  function Seen(node: Source, workers: set<string>): Source {
    (c: string, n: nat) => if c in workers then node(c, n) else []
  }

  function FetchSeen(node: Source, workers: set<string>, plan: ContractPlan, i: nat): seq<Event> {
    if i < |plan.ranges| && plan.name in workers then Fetch(node, plan.name, plan.ranges[i]) else []
  }

  lemma {:induction false} SameEvents(s: Source, r: Source, c: string, a: nat, b: nat)
    requires forall n :: s(c, n) == r(c, n)
    ensures EventsIn(s, c, a, b) == EventsIn(r, c, a, b)
    decreases b - a
  {
    if a < b {
      SameEvents(s, r, c, a + 1, b);
    }
  }

  lemma {:induction false} NoEvents(s: Source, c: string, a: nat, b: nat)
    requires forall n :: s(c, n) == []
    ensures EventsIn(s, c, a, b) == []
    decreases b - a
  {
    if a < b {
      NoEvents(s, c, a + 1, b);
    }
  }

  lemma FetchIsSeen(node: Source, workers: set<string>, plan: ContractPlan, i: nat)
    requires i < |plan.ranges|
    ensures Fetch(Seen(node, workers), plan.name, plan.ranges[i]) == FetchSeen(node, workers, plan, i)
  {
    var s, r := Seen(node, workers), plan.ranges[i];
    if plan.name in workers {
      SameEvents(s, node, plan.name, r.from, r.to + 1);
    } else {
      NoEvents(s, plan.name, r.from, r.to + 1);
    }
  }

  lemma GatherSeen(node: Source, workers: set<string>, plans: seq<ContractPlan>, i: nat, more: seq<Event>)
    requires plans != [] && more == FetchSeen(node, workers, plans[0], i)
    ensures GatherAt(Seen(node, workers), plans, i) == more + GatherAt(Seen(node, workers), plans[1..], i)
  {
    if i < |plans[0].ranges| {
      FetchIsSeen(node, workers, plans[0], i);
    }
  }

  // Safety over what the node knows

  /** Handlers write to tables that exist, the checkpoints are safe to begin with, and no buffer overflows. */
  ghost predicate Startable(whole: Config, seen: Config, d: Durable, starts: seq<Start>) {
    && Schema(whole, d.tables) && CheckpointsSafe(whole, d) && Roomy(seen, d, starts)
    && forall s <- starts :: s.chunk >= 1
  }

  /** If the checkpoints are safe to begin with, they are safe after the starts. */
  ghost predicate StaysSafe(contracts: seq<Contract>, workers: set<string>, node: Source, handler: Event -> seq<Emit>,
                            maxSize: nat, d: Durable, starts: seq<Start>) {
    var whole := Config(contracts, node, handler, maxSize);
    var seen := Config(contracts, Seen(node, workers), handler, maxSize);
    Startable(whole, seen, d, starts) ==> CheckpointsSafe(whole, RunAll(d, seen, starts))
  }

  lemma SeenSame(contracts: seq<Contract>, workers: set<string>, node: Source, handler: Event -> seq<Emit>,
                 maxSize: nat, d: Durable)
    requires forall c <- contracts :: c.name in workers
    ensures CheckpointsSafe(Config(contracts, node, handler, maxSize), d) <==>
            CheckpointsSafe(Config(contracts, Seen(node, workers), handler, maxSize), d)
  {
    var whole := Config(contracts, node, handler, maxSize);
    var seen := Config(contracts, Seen(node, workers), handler, maxSize);
    forall c | c in contracts && c.name in d.checkpoints
      ensures Covered(whole, d.tables, c, d.checkpoints[c.name]) <==> Covered(seen, d.tables, c, d.checkpoints[c.name])
    {
      assert forall n :: seen.source(c.name, n) == whole.source(c.name, n);
    }
  }

  lemma WorkersSuffice(contracts: seq<Contract>, workers: set<string>, node: Source, handler: Event -> seq<Emit>,
                       maxSize: nat, d: Durable, starts: seq<Start>)
    requires DistinctNames(contracts) && forall c <- contracts :: c.name in workers
    ensures StaysSafe(contracts, workers, node, handler, maxSize, d, starts)
  {
    var whole := Config(contracts, node, handler, maxSize);
    var seen := Config(contracts, Seen(node, workers), handler, maxSize);
    if Startable(whole, seen, d, starts) {
      SeenSame(contracts, workers, node, handler, maxSize, d);
      assert Schema(seen, d.tables);
      CheckpointsAlwaysSafe(seen, d, starts);
      SeenSame(contracts, workers, node, handler, maxSize, RunAll(d, seen, starts));
    }
  }

  // A contract without a worker

  /** One event, in the first block of contract c. */
  function OneEvent(c: Contract): Source {
    (name: string, n: nat) => if name == c.name && n == c.start then [Event(c.name, n, 0, "")] else []
  }

  function OneRow(): Event -> seq<Emit> {
    (e: Event) => [Emit("t", Text("id"), map[])]
  }

  lemma {:induction false} NothingGathered(c: Contract, workers: set<string>, plans: seq<ContractPlan>, i: nat)
    requires c.name !in workers
    ensures GatherAt(Seen(OneEvent(c), workers), plans, i) == []
  {
    if plans != [] {
      var s := Seen(OneEvent(c), workers);
      var p := plans[0];
      NothingGathered(c, workers, plans[1..], i);
      if i < |p.ranges| {
        NoEvents(s, p.name, p.ranges[i].from, p.ranges[i].to + 1);
      }
    }
  }

  lemma NothingBuffered(cfg: Config, c: Contract, workers: set<string>, plans: seq<ContractPlan>, i: nat)
    requires c.name !in workers && cfg.source == Seen(OneEvent(c), workers)
    ensures Batch(cfg.source, plans, i) == [] && Buffered(cfg, plans, i) == map[]
    ensures NoOverflow(Batch(cfg.source, plans, i), cfg)
  {
    NothingGathered(c, workers, plans, i);
  }

  lemma NothingWritten(tables: map<string, Table>)
    ensures Written(tables, map[], tables.Keys) == tables
  {
    forall t | t in tables
      ensures ApplyAll(Queue(map[], t), tables[t]) == tables[t]
    {
      assert Queue(map[], t) == [];
    }
  }

  /** A contract without a worker gets a checkpoint past a block that nobody looked at. */
  lemma MissingWorkerLosesRows(contracts: seq<Contract>, workers: set<string>, c: Contract)
    requires DistinctNames(contracts) && c in contracts && c.name !in workers
    ensures !StaysSafe(contracts, workers, OneEvent(c), OneRow(), 1, Durable(map["t" := map[]], map[]),
                       [Start(c.start, 1, {}, [Completes({c.name})])])
  {
    var s, d := Start(c.start, 1, {}, [Completes({c.name})]), Durable(map["t" := map[]], map[]);
    var whole := Config(contracts, OneEvent(c), OneRow(), 1);
    var seen := Config(contracts, Seen(OneEvent(c), workers), OneRow(), 1);
    var plans := PlansOf(d, seen, s);
    forall i: nat | i < MaxRanges(plans)
      ensures NoOverflow(Batch(seen.source, plans, i), seen)
    {
      NothingBuffered(seen, c, workers, plans, i);
    }
    assert StartFits(seen, d, s) && Roomy(seen, d, [s]);
    CheckpointAdvances(contracts, workers, c, d, s);
    var after := RunOnce(d, seen, s);
    assert RunAll(d, seen, [s]) == after by {
      assert [s][1..] == [] && RunAll(after, seen, []) == after;
    }
    RowMissing(whole, c, after);
  }

  lemma CheckpointAdvances(contracts: seq<Contract>, workers: set<string>, c: Contract, d: Durable, s: Start)
    requires DistinctNames(contracts) && c in contracts && c.name !in workers
    requires s == Start(c.start, 1, {}, [Completes({c.name})]) && d == Durable(map["t" := map[]], map[])
    ensures var after := RunOnce(d, Config(contracts, Seen(OneEvent(c), workers), OneRow(), 1), s);
      && after.tables == d.tables
      && c.name in after.checkpoints && after.checkpoints[c.name] == c.start + 1
  {
    var seen := Config(contracts, Seen(OneEvent(c), workers), OneRow(), 1);
    var plans := PlansOf(d, seen, s);
    var k :| 0 <= k < |contracts| && contracts[k] == c;
    assert Chunks(c.start + 1, c.start, 1) == [] && plans[k].ranges == [BlockRange(c.start, c.start)];
    MaxAtMin(plans, k);
    RunOneRange(d, seen, plans, 0, s.fates);
    NothingBuffered(seen, c, workers, plans, 0);
    NothingWritten(d.tables);
    SavedIs(d.checkpoints, plans, 0, {c.name}, c.name);
    assert s.fates[1..] == [];
  }

  lemma RowMissing(whole: Config, c: Contract, after: Durable)
    requires c in whole.contracts && whole.source == OneEvent(c) && whole.handler == OneRow()
    requires after.tables == map["t" := map[]] && c.name in after.checkpoints &&
      after.checkpoints[c.name] == c.start + 1
    ensures !CheckpointsSafe(whole, after)
  {
    var e, m := Event(c.name, c.start, 0, ""), Emit("t", Text("id"), map[]);
    assert e in whole.source(c.name, c.start) && m in whole.handler(e);
    assert !Covered(whole, after.tables, c, after.checkpoints[c.name]);
  }

  ghost predicate AlwaysSafe(contracts: seq<Contract>, workers: set<string>) {
    forall node, handler, maxSize, d, starts :: StaysSafe(contracts, workers, node, handler, maxSize, d, starts)
  }

  /** Checkpoints are safe for every node, handler, buffer size, database and sequence of starts if and only if
      every contract has a worker. */
  lemma WorkersNeededIff(contracts: seq<Contract>, workers: set<string>)
    requires DistinctNames(contracts)
    ensures AlwaysSafe(contracts, workers) <==> forall c <- contracts :: c.name in workers
  {
    if forall c <- contracts :: c.name in workers {
      forall node, handler, maxSize, d, starts
        ensures StaysSafe(contracts, workers, node, handler, maxSize, d, starts)
      {
        WorkersSuffice(contracts, workers, node, handler, maxSize, d, starts);
      }
      assert AlwaysSafe(contracts, workers);
    } else {
      var c :| c in contracts && c.name !in workers;
      var d, starts := Durable(map["t" := map[]], map[]), [Start(c.start, 1, {}, [Completes({c.name})])];
      assert !StaysSafe(contracts, workers, OneEvent(c), OneRow(), 1, d, starts) by {
        MissingWorkerLosesRows(contracts, workers, c);
      }
      assert !AlwaysSafe(contracts, workers);
    }
  }
}
