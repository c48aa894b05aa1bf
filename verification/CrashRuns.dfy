/** Crash safety over whole runs of one contract. */
module CrashRuns {
  import opened Tables
  import opened Planner
  import opened Delivery
  import opened Backfill
  import opened BackfillSafety
  import opened BackfillRuns
  import opened CrashSafety
  import opened Naturals

  /** Whatever happens in a run, the table stays at a frontier. */
  lemma {:induction false} RunStays(cfg: Config, c: Contract, t: string, base: Table, d: Durable, p: nat, limit: nat,
                                    rs: seq<BlockRange>, start: nat, head: nat, chunk: nat, i: nat, fates: seq<Fate>)
    ensures Ready(cfg, c, t, base, d, p, limit, rs, start, head, chunk, i) ==>
      At(cfg, c, t, base, RunRanges(d, cfg, [ContractPlan(c.name, rs)], i, fates), Frontier(t, p, rs, i, fates), limit)
    decreases |fates|
  {
    var plans := [ContractPlan(c.name, rs)];
    if fates != [] && i < |rs| && fates[0].FlushStops? {
      RunStopped(cfg, c, t, base, d, p, limit, rs, start, head, chunk, i, fates);
    } else if fates != [] && i < |rs| && fates[0].Completes? {
      if Ready(cfg, c, t, base, d, p, limit, rs, start, head, chunk, i) {
        var after := AfterRange(d, cfg, plans, i, fates[0].saved);
        RunAdvances(cfg, c, t, base, d, p, limit, rs, start, head, chunk, i, fates[0].saved);
        RunStays(cfg, c, t, base, after, Max(p, rs[i].to + 1), limit, rs, start, head, chunk, i + 1, fates[1..]);
        RunContinues(cfg, c, t, d, p, rs, i, fates);
      }
    } else {
      RunEnds(cfg, c, t, base, d, p, limit, rs, start, head, chunk, i, fates);
    }
  }

  /** If every range completes, the frontier passes the last one. */
  lemma {:induction false} CompleteReaches(t: string, p: nat, rs: seq<BlockRange>, start: nat, i: nat, fates: seq<Fate>)
    requires i <= |rs| && Reached(rs, start, i) <= p
    requires (forall f <- fates :: f.Completes?) && |fates| >= |rs| - i
    ensures Reached(rs, start, |rs|) <= Frontier(t, p, rs, i, fates)
    decreases |fates|
  {
    if fates != [] && i < |rs| {
      assert fates[0] in fates;
      CompleteReaches(t, Max(p, rs[i].to + 1), rs, start, i + 1, fates[1..]);
    }
  }

  lemma PlansOne(cfg: Config, c: Contract, cp: map<string, nat>, head: nat, chunk: nat)
    requires cfg.contracts == [c] && chunk >= 1
    ensures PlansFor(cfg.contracts, cp, head, chunk) == [ContractPlan(c.name, Chunks(StartOf(c, cp), head, chunk))]
    ensures MaxRanges([ContractPlan(c.name, Chunks(StartOf(c, cp), head, chunk))]) ==
      |Chunks(StartOf(c, cp), head, chunk)|
  {
    var rs := Chunks(StartOf(c, cp), head, chunk);
    assert [ContractPlan(c.name, rs)][1..] == [];
  }

  /** No range fails and none is cut off. */
  ghost predicate Complete(cfg: Config, c: Contract, d: Durable, s: Start)
    requires s.chunk >= 1
  {
    && (forall f <- s.fates :: f.Completes?)
    && |s.fates| >= |Chunks(StartOf(c, Readable(d.checkpoints, s.unread)), s.head, s.chunk)|
  }

  /** One start of the indexer. */
  lemma RunOnceStays(cfg: Config, c: Contract, t: string, base: Table, d: Durable, p: nat, limit: nat, s: Start)
    returns (p': nat)
    requires OneContract(cfg, c) && StartFits(cfg, d, s) && s.head + 1 <= limit
    requires At(cfg, c, t, base, d, p, limit)
    ensures At(cfg, c, t, base, RunOnce(d, cfg, s), p', limit)
    ensures Complete(cfg, c, d, s) && limit == s.head + 1 ==> p' == Max(c.start, limit)
  {
    var cp := Readable(d.checkpoints, s.unread);
    var start := StartOf(c, cp);
    var rs := Chunks(start, s.head, s.chunk);
    PlansOne(cfg, c, cp, s.head, s.chunk);
    ChunksPartition(start, s.head, s.chunk);
    p' := Frontier(t, p, rs, 0, s.fates);
    RunStays(cfg, c, t, base, d, p, limit, rs, start, s.head, s.chunk, 0, s.fates);
    if Complete(cfg, c, d, s) {
      CompleteReaches(t, p, rs, start, 0, s.fates);
    }
    ReachedEnd(rs, start, s.head, s.chunk);
  }

  lemma {:induction false} RunAllStays(cfg: Config, c: Contract, t: string, base: Table, d: Durable, p: nat,
                                       limit: nat, starts: seq<Start>)
    returns (p': nat)
    requires OneContract(cfg, c) && Roomy(cfg, d, starts)
    requires forall s <- starts :: s.chunk >= 1 && s.head + 1 <= limit
    requires At(cfg, c, t, base, d, p, limit)
    ensures At(cfg, c, t, base, RunAll(d, cfg, starts), p', limit)
    decreases |starts|
  {
    p' := p;
    if starts != [] {
      p' := RunOnceStays(cfg, c, t, base, d, p, limit, starts[0]);
      p' := RunAllStays(cfg, c, t, base, RunOnce(d, cfg, starts[0]), p', limit, starts[1..]);
    }
  }

  /** Crash safety. Start from any tables and no checkpoint; let the indexer be started, with any
      chunk sizes and heads, and interrupted any number of times, anywhere, even between the tables
      of one flush; then let a run with a head at least as high complete. Every table holds what a
      single uninterrupted run to that head gives, whatever chunk size that one uses. */
  lemma CrashesLeaveNoTrace(cfg: Config, c: Contract, d: Durable, starts: seq<Start>, last: Start, plain: Start,
                            t: string)
    requires OneContract(cfg, c) && c.name !in d.checkpoints && t in d.tables
    requires forall s <- starts :: s.chunk >= 1 && s.head <= last.head
    requires Roomy(cfg, d, starts)
    requires StartFits(cfg, RunAll(d, cfg, starts), last) && Complete(cfg, c, RunAll(d, cfg, starts), last)
    requires StartFits(cfg, d, plain) && Complete(cfg, c, d, plain) && plain.head == last.head
    ensures t in RunOnce(RunAll(d, cfg, starts), cfg, last).tables && t in RunOnce(d, cfg, plain).tables
    ensures RunOnce(RunAll(d, cfg, starts), cfg, last).tables[t] == RunOnce(d, cfg, plain).tables[t]
  {
    var base := d.tables[t];
    StartsEmpty(cfg, c, t, base);
    var p := RunAllStays(cfg, c, t, base, d, c.start, last.head + 1, starts);
    var q := RunOnceStays(cfg, c, t, base, RunAll(d, cfg, starts), p, last.head + 1, last);
    var r := RunOnceStays(cfg, c, t, base, d, c.start, last.head + 1, plain);
    assert q == r;
  }

  lemma StartsEmpty(cfg: Config, c: Contract, t: string, base: Table)
    ensures TableAt(cfg, c, t, base, c.start) == base
  {
    AllEventsEmpty(cfg.source, [c.name], c.start, c.start);
  }
}
