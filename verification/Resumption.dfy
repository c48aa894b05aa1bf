/** Where a start of the backfill resumes, and what a complete one achieves
    (crates/forge-index-sync/src/backfill/coordinator.rs:88-268, planner.rs:50-85). */
module Resumption {
  import opened Tables
  import opened Planner
  import opened Delivery
  import opened DeliveryOrder
  import opened Backfill
  import opened BackfillSafety
  import opened BackfillRuns

  /** The node reports a contract's events of a block under that contract and that block. */
  ghost predicate Labelled(source: Source) {
    forall c, n, e :: e in source(c, n) ==> e.contract == c && e.block == n
  }

  /** The first block that a start has to index: the checkpoint, if there is one that can be read, else the contract's
      first block. */
  predicate FirstBlock(d: Durable, s: Start, c: Contract, first: nat) {
    if c.name in d.checkpoints && c.name !in s.unread then first == d.checkpoints[c.name] else first == c.start
  }

  // What is delivered

  lemma {:induction false} NoneElsewhere(source: Source, c: string, a: nat, b: nat, e: Event)
    requires Labelled(source) && (e.block < a || b <= e.block || e.contract != c)
    ensures multiset(EventsIn(source, c, a, b))[e] == 0
    decreases b - a
  {
    if a < b {
      NoneElsewhere(source, c, a + 1, b, e);
      CountConcat(source(c, a), EventsIn(source, c, a + 1, b), e);
      NotThere(source(c, a), e);
    }
  }

  lemma EventsInCount(source: Source, c: string, a: nat, b: nat, e: Event)
    requires Labelled(source)
    ensures multiset(EventsIn(source, c, a, b))[e] ==
            if a <= e.block < b then multiset(source(c, e.block))[e] else 0
  {
    if a <= e.block < b {
      var n := e.block;
      var before, here, rest := EventsIn(source, c, a, n), source(c, n), EventsIn(source, c, n + 1, b);
      NoneElsewhere(source, c, a, n, e);
      NoneElsewhere(source, c, n + 1, b, e);
      AroundBlock(source, c, a, n, b);
      OnlyHere(before, here, rest, e);
    } else {
      NoneElsewhere(source, c, a, b, e);
    }
  }

  lemma AroundBlock(source: Source, c: string, a: nat, n: nat, b: nat)
    requires a <= n < b
    ensures EventsIn(source, c, a, b) == EventsIn(source, c, a, n) + (source(c, n) + EventsIn(source, c, n + 1, b))
  {
    EventsInSplit(source, c, a, n, b);
  }

  lemma OnlyHere(before: seq<Event>, here: seq<Event>, rest: seq<Event>, e: Event)
    requires multiset(before)[e] == 0 && multiset(rest)[e] == 0
    ensures multiset(before + (here + rest))[e] == multiset(here)[e]
  {
  }

  lemma CountConcat(s: seq<Event>, r: seq<Event>, e: Event)
    ensures multiset(s + r)[e] == multiset(s)[e] + multiset(r)[e]
  {
  }

  lemma NotThere(s: seq<Event>, e: Event)
    requires e !in s
    ensures multiset(s)[e] == 0
  {
  }

  lemma {:induction false} OthersCount(source: Source, cs: seq<Contract>, cp: map<string, nat>, head: nat, e: Event)
    requires Labelled(source) && forall c <- cs :: c.name != e.contract
    ensures multiset(Wanted(source, cs, cp, head))[e] == 0
    decreases |cs|
  {
    if cs != [] {
      EventsInCount(source, cs[0].name, StartOf(cs[0], cp), head + 1, e);
      assert cs[0] in cs && e !in source(cs[0].name, e.block);
      OthersCount(source, cs[1..], cp, head, e);
    }
  }

  lemma {:induction false} WantedCount(source: Source, cs: seq<Contract>, cp: map<string, nat>, head: nat, k: nat,
                                       e: Event)
    requires Labelled(source) && DistinctNames(cs) && k < |cs| && e.contract == cs[k].name
    ensures multiset(Wanted(source, cs, cp, head))[e] ==
            if StartOf(cs[k], cp) <= e.block <= head then multiset(source(cs[k].name, e.block))[e] else 0
    decreases |cs|
  {
    EventsInCount(source, cs[0].name, StartOf(cs[0], cp), head + 1, e);
    if k == 0 {
      forall c | c in cs[1..]
        ensures c.name != e.contract
      {
        var j :| 0 <= j < |cs[1..]| && cs[1..][j] == c;
        assert cs[j + 1] == c;
      }
      OthersCount(source, cs[1..], cp, head, e);
    } else {
      assert e !in source(cs[0].name, e.block);
      WantedCount(source, cs[1..], cp, head, k - 1, e);
    }
  }

  /** A start delivers each event of a contract from its first block to the head as often as the node has it, and none
      of its events in any other block. */
  lemma DeliversFrom(cfg: Config, d: Durable, s: Start, c: Contract, first: nat, e: Event)
    requires s.chunk >= 1 && DistinctNames(cfg.contracts) && Labelled(cfg.source)
    requires c in cfg.contracts && FirstBlock(d, s, c, first) && e.contract == c.name
    ensures var plans := PlansOf(d, cfg, s);
      multiset(Delivered(cfg.source, plans, 0, MaxRanges(plans)))[e] ==
      if first <= e.block <= s.head then multiset(cfg.source(c.name, e.block))[e] else 0
  {
    var cp := Readable(d.checkpoints, s.unread);
    var k :| 0 <= k < |cfg.contracts| && cfg.contracts[k] == c;
    DeliveredOnce(cfg.source, cfg.contracts, cp, s.head, s.chunk);
    WantedCount(cfg.source, cfg.contracts, cp, s.head, k, e);
  }

  /** So with a checkpoint that can be read, no event of a block below it is delivered, and every one from it on is. */
  lemma ResumesAtCheckpoint(cfg: Config, d: Durable, s: Start, c: Contract)
    requires s.chunk >= 1 && DistinctNames(cfg.contracts) && Labelled(cfg.source) && c in cfg.contracts
    requires c.name in d.checkpoints && c.name !in s.unread
    ensures var plans := PlansOf(d, cfg, s);
      var events := Delivered(cfg.source, plans, 0, MaxRanges(plans));
      && (forall e <- events :: e.contract == c.name ==> d.checkpoints[c.name] <= e.block <= s.head)
      && (forall n, e :: d.checkpoints[c.name] <= n <= s.head && e in cfg.source(c.name, n) ==> e in events)
  {
    var first := d.checkpoints[c.name];
    var plans := PlansOf(d, cfg, s);
    var events := Delivered(cfg.source, plans, 0, MaxRanges(plans));
    forall e | e in events && e.contract == c.name
      ensures first <= e.block <= s.head
    {
      DeliversFrom(cfg, d, s, c, first, e);
    }
    forall n, e | first <= n <= s.head && e in cfg.source(c.name, n)
      ensures e in events
    {
      DeliversFrom(cfg, d, s, c, first, e);
    }
  }

  // Checkpoints over time

  /** The checkpoint of a contract is not beyond the blocks that its plan has reached. */
  predicate NotBeyond(d: Durable, name: string, rs: seq<BlockRange>, start: nat, i: nat) {
    name in d.checkpoints ==> d.checkpoints[name] <= Reached(rs, start, i)
  }

  predicate AtLeast(d: Durable, name: string, n: nat) {
    name in d.checkpoints && d.checkpoints[name] >= n
  }

  lemma ReachedGrows(rs: seq<BlockRange>, start: nat, head: nat, chunk: nat, i: nat)
    requires Partitions(rs, start, head, chunk)
    ensures Reached(rs, start, i) <= Reached(rs, start, i + 1)
    ensures i < |rs| ==> Reached(rs, start, i) <= rs[i].to + 1 == Reached(rs, start, i + 1)
  {
    if i < |rs| {
      ReachedIsFrom(rs, start, head, chunk, i);
    }
  }

  predicate DistinctPlans(plans: seq<ContractPlan>) {
    forall a, b :: 0 <= a < b < |plans| ==> plans[a].name != plans[b].name
  }

  lemma RangeNotBeyond(d: Durable, cfg: Config, plans: seq<ContractPlan>, i: nat, saved: set<string>, k: nat,
                       start: nat, head: nat, chunk: nat)
    requires DistinctPlans(plans) && k < |plans| && Partitions(plans[k].ranges, start, head, chunk)
    requires NotBeyond(d, plans[k].name, plans[k].ranges, start, i)
    ensures var after := AfterRange(d, cfg, plans, i, saved);
      && NotBeyond(after, plans[k].name, plans[k].ranges, start, i + 1)
      && (plans[k].name in d.checkpoints ==> AtLeast(after, plans[k].name, d.checkpoints[plans[k].name]))
  {
    SavedIs(d.checkpoints, plans, i, saved, plans[k].name);
    ReachedGrows(plans[k].ranges, start, head, chunk, i);
  }

  lemma {:induction false} RunNeverLowers(d: Durable, cfg: Config, plans: seq<ContractPlan>, i: nat, fates: seq<Fate>,
                                          k: nat, start: nat, head: nat, chunk: nat, n: nat)
    requires DistinctPlans(plans) && k < |plans| && Partitions(plans[k].ranges, start, head, chunk)
    requires NotBeyond(d, plans[k].name, plans[k].ranges, start, i) && AtLeast(d, plans[k].name, n)
    ensures AtLeast(RunRanges(d, cfg, plans, i, fates), plans[k].name, n)
    decreases |fates|
  {
    if fates != [] && i < MaxRanges(plans) {
      RunOneRange(d, cfg, plans, i, fates);
      if fates[0].Completes? {
        var after := AfterRange(d, cfg, plans, i, fates[0].saved);
        RangeNotBeyond(d, cfg, plans, i, fates[0].saved, k, start, head, chunk);
        RunNeverLowers(after, cfg, plans, i + 1, fates[1..], k, start, head, chunk, n);
      }
    }
  }

  lemma {:induction false} OthersStay(d: Durable, cfg: Config, plans: seq<ContractPlan>, i: nat, fates: seq<Fate>,
                                      name: string, n: nat)
    requires DistinctPlans(plans) && (forall p <- plans :: p.name != name) && AtLeast(d, name, n)
    ensures AtLeast(RunRanges(d, cfg, plans, i, fates), name, n)
    decreases |fates|
  {
    if fates != [] && i < MaxRanges(plans) {
      RunOneRange(d, cfg, plans, i, fates);
      if fates[0].Completes? {
        SavedIs(d.checkpoints, plans, i, fates[0].saved, name);
        OthersStay(AfterRange(d, cfg, plans, i, fates[0].saved), cfg, plans, i + 1, fates[1..], name, n);
      }
    }
  }

  lemma StartNeverLowers(cfg: Config, d: Durable, s: Start, name: string, n: nat)
    requires DistinctNames(cfg.contracts) && s.chunk >= 1 && s.unread == {} && AtLeast(d, name, n)
    ensures AtLeast(RunOnce(d, cfg, s), name, n)
  {
    var plans, cp := PlansOf(d, cfg, s), Readable(d.checkpoints, s.unread);
    assert cp == d.checkpoints;
    if k :| 0 <= k < |plans| && plans[k].name == name {
      var start := StartOf(cfg.contracts[k], cp);
      ChunksPartition(start, s.head, s.chunk);
      RunNeverLowers(d, cfg, plans, 0, s.fates, k, start, s.head, s.chunk, n);
    } else {
      OthersStay(d, cfg, plans, 0, s.fates, name, n);
    }
  }

  /** Over every sequence of starts that read all checkpoints, whatever else goes wrong, no checkpoint ever
      decreases. */
  lemma {:induction false} CheckpointsNeverDecrease(cfg: Config, d: Durable, starts: seq<Start>)
    requires DistinctNames(cfg.contracts) && forall s <- starts :: s.chunk >= 1 && s.unread == {}
    ensures var after := RunAll(d, cfg, starts).checkpoints;
      forall name <- d.checkpoints :: name in after && after[name] >= d.checkpoints[name]
    decreases |starts|
  {
    if starts != [] {
      var d1 := RunOnce(d, cfg, starts[0]);
      CheckpointsNeverDecrease(cfg, d1, starts[1..]);
      forall name | name in d.checkpoints
        ensures AtLeast(d1, name, d.checkpoints[name])
      {
        StartNeverLowers(cfg, d, starts[0], name, d.checkpoints[name]);
      }
    }
  }

  // A start that stops in its first range

  /** A flush that stops after some tables leaves, in exactly those, a row under every key that the events of the range
      give; it saves no checkpoint. A fetch that fails leaves everything as it was. */
  lemma InterruptedStart(cfg: Config, d: Durable, s: Start)
    requires s.chunk >= 1 && s.fates != [] && MaxRanges(PlansOf(d, cfg, s)) > 0
    requires NoOverflow(Batch(cfg.source, PlansOf(d, cfg, s), 0), cfg)
    ensures s.fates[0].FetchFails? ==> RunOnce(d, cfg, s) == d
    ensures s.fates[0].FlushStops? ==>
      var after := RunOnce(d, cfg, s);
      && after.checkpoints == d.checkpoints && after.tables.Keys == d.tables.Keys
      && (forall t :: t in d.tables && t !in s.fates[0].written ==> after.tables[t] == d.tables[t])
      && (forall e, m :: e in GatherAt(cfg.source, PlansOf(d, cfg, s), 0) && m in cfg.handler(e) ==>
            m.table in d.tables && m.table in s.fates[0].written ==> m.key in after.tables[m.table])
  {
    var plans := PlansOf(d, cfg, s);
    RunOneRange(d, cfg, plans, 0, s.fates);
    if s.fates[0].FlushStops? {
      WrittenAdds(cfg, d.tables, plans, 0, s.fates[0].written);
    }
  }

  // A full buffer

  function Emits(): Event -> seq<Emit> {
    (e: Event) =>
      if e.logIndex == 0 then [Emit("a", Int(1), map[]), Emit("a", Int(2), map[]), Emit("b", Int(3), map[])]
      else [Emit("b", Int(4), map[])]
  }

  /** With room for one row per table, the first event's handler stops at its second row, which finds the buffer full;
      the second event is handled all the same. */
  lemma NextEventHandled(cfg: Config, e1: Event, e2: Event)
    requires cfg.maxSize == 1 && cfg.handler == Emits() && e1.logIndex == 0 && e2.logIndex == 1
    ensures HandleAll(map[], [e1, e2], cfg) == map["a" := [Insert(Int(1), map[])], "b" := [Insert(Int(4), map[])]]
  {
    var a, rest := Emit("a", Int(1), map[]), [Emit("a", Int(2), map[]), Emit("b", Int(3), map[])];
    var one := Pushed(map[], a);
    assert Emits()(e1)[0] == a && Emits()(e1)[1..] == rest;
    assert Queue(map[], "a") + [Insert(Int(1), map[])] == [Insert(Int(1), map[])];
    assert one == map["a" := [Insert(Int(1), map[])]];
    assert Enqueue(one, rest, 1) == one;
    assert Enqueue(map[], Emits()(e1), 1) == one;
    var b := Emit("b", Int(4), map[]);
    assert Queue(one, "b") + [Insert(Int(4), map[])] == [Insert(Int(4), map[])];
    assert Emits()(e2)[0] == b && Emits()(e2)[1..] == [];
    assert Enqueue(Pushed(one, b), [], 1) == Pushed(one, b);
    assert [e1, e2][1..] == [e2] && [e2][1..] == [];
    assert HandleAll(Pushed(one, b), [], cfg) == Pushed(one, b);
    assert HandleAll(one, [e2], cfg) == Pushed(one, b);
  }

  // A complete start

  /** Every range of the start completes and saves all checkpoints. */
  ghost predicate GoesThrough(cfg: Config, d: Durable, s: Start)
    requires s.chunk >= 1
  {
    && |s.fates| >= MaxRanges(PlansOf(d, cfg, s))
    && forall f <- s.fates :: f.Completes? && forall c <- cfg.contracts :: c.name in f.saved
  }

  /** A contract whose ranges are all done has its checkpoint behind the head. */
  predicate CaughtUp(d: Durable, name: string, rs: seq<BlockRange>, i: nat, start: nat, head: nat) {
    i > 0 && i >= |rs| && start <= head ==> name in d.checkpoints && d.checkpoints[name] == head + 1
  }

  lemma RangeCatchesUp(d: Durable, cfg: Config, plans: seq<ContractPlan>, i: nat, saved: set<string>, k: nat,
                       start: nat, head: nat, chunk: nat)
    requires DistinctPlans(plans) && k < |plans| && Partitions(plans[k].ranges, start, head, chunk)
    requires plans[k].name in saved && CaughtUp(d, plans[k].name, plans[k].ranges, i, start, head)
    ensures CaughtUp(AfterRange(d, cfg, plans, i, saved), plans[k].name, plans[k].ranges, i + 1, start, head)
  {
    var rs := plans[k].ranges;
    SavedIs(d.checkpoints, plans, i, saved, plans[k].name);
    ReachedEnd(rs, start, head, chunk);
    if i < |rs| {
      ReachedGrows(rs, start, head, chunk, i);
    }
  }

  lemma {:induction false} LastSaved(d: Durable, cfg: Config, plans: seq<ContractPlan>, i: nat, fates: seq<Fate>,
                                     k: nat, start: nat, head: nat, chunk: nat)
    requires DistinctPlans(plans) && k < |plans| && Partitions(plans[k].ranges, start, head, chunk)
    requires i + |fates| >= MaxRanges(plans)
    requires forall f <- fates :: f.Completes? && plans[k].name in f.saved
    requires CaughtUp(d, plans[k].name, plans[k].ranges, i, start, head)
    ensures var n := if i < MaxRanges(plans) then MaxRanges(plans) else i;
      CaughtUp(RunRanges(d, cfg, plans, i, fates), plans[k].name, plans[k].ranges, n, start, head)
    decreases |fates|
  {
    if i < MaxRanges(plans) {
      RunOneRange(d, cfg, plans, i, fates);
      assert fates[0] in fates;
      RangeCatchesUp(d, cfg, plans, i, fates[0].saved, k, start, head, chunk);
      LastSaved(AfterRange(d, cfg, plans, i, fates[0].saved), cfg, plans, i + 1, fates[1..], k, start, head, chunk);
    }
  }

  /** The checkpoint after a start that goes through. */
  lemma CompleteCheckpoint(cfg: Config, d: Durable, s: Start, c: Contract, first: nat)
    requires DistinctNames(cfg.contracts) && s.chunk >= 1
    requires GoesThrough(cfg, d, s) && c in cfg.contracts && FirstBlock(d, s, c, first) && first <= s.head
    ensures var after := RunOnce(d, cfg, s); c.name in after.checkpoints && after.checkpoints[c.name] == s.head + 1
  {
    var plans := PlansOf(d, cfg, s);
    var k :| 0 <= k < |cfg.contracts| && cfg.contracts[k] == c;
    ChunksPartition(first, s.head, s.chunk);
    MaxAtMin(plans, k);
    LastSaved(d, cfg, plans, 0, s.fates, k, first, s.head, s.chunk);
  }

  /** After a start that goes through, every contract with blocks to index has its checkpoint behind the head, and every
      row that its events up to the head give is in its table. */
  lemma CompleteStart(cfg: Config, d: Durable, s: Start, c: Contract, first: nat)
    requires Schema(cfg, d.tables) && DistinctNames(cfg.contracts) && CheckpointsSafe(cfg, d) && StartFits(cfg, d, s)
    requires GoesThrough(cfg, d, s) && c in cfg.contracts && FirstBlock(d, s, c, first) && first <= s.head
    ensures var after := RunOnce(d, cfg, s);
      && c.name in after.checkpoints && after.checkpoints[c.name] == s.head + 1
      && forall n, e, m :: c.start <= n <= s.head && e in cfg.source(c.name, n) && m in cfg.handler(e) ==>
           m.table in after.tables && m.key in after.tables[m.table]
  {
    CompleteCheckpoint(cfg, d, s, c, first);
    RunRangesSafe(cfg, d, Readable(d.checkpoints, s.unread), s.head, s.chunk, PlansOf(d, cfg, s), 0, s.fates);
    assert Covered(cfg, RunOnce(d, cfg, s).tables, c, s.head + 1);
  }
}
