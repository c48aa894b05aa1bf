/** One contract: any sequence of interrupted runs followed by a complete one leaves the tables of
    a single uninterrupted run. Each table is always at some frontier block: it holds the first
    insert of every key from the blocks before it. */
module CrashSafety {
  import opened Tables
  import opened Sorting
  import opened Planner
  import opened Delivery
  import opened Backfill
  import opened BackfillSafety
  import opened Naturals

  /** The contract's events in blocks a..b-1 in position order. */
  function Stream(cfg: Config, c: Contract, a: nat, b: nat): seq<Event> {
    Sort(AllEvents(cfg.source, [c.name], a, b), ByPosition())
  }

  ghost predicate OneContract(cfg: Config, c: Contract) {
    cfg.contracts == [c] && Honest(cfg.source) && Positioned(cfg.source, [c.name])
  }

  lemma StreamUnique(cfg: Config, c: Contract, d: seq<Event>, a: nat, b: nat)
    requires OneContract(cfg, c) && InOrder(d, cfg.source, [c.name], a, b)
    ensures d == Stream(cfg, c, a, b)
  {
    var all := AllEvents(cfg.source, [c.name], a, b);
    AllEventsDistinct(cfg.source, [c.name], a, b);
    DistinctSortsStrictly(all);
    SortKeeps(all, ByPosition());
    StrictlySortedUnique(d, Stream(cfg, c, a, b), ByPosition());
  }

  lemma StreamInOrder(cfg: Config, c: Contract, a: nat, b: nat)
    requires OneContract(cfg, c)
    ensures InOrder(Stream(cfg, c, a, b), cfg.source, [c.name], a, b)
  {
    AllEventsDistinct(cfg.source, [c.name], a, b);
    DistinctSortsStrictly(AllEvents(cfg.source, [c.name], a, b));
    SortKeeps(AllEvents(cfg.source, [c.name], a, b), ByPosition());
  }

  lemma StreamSplits(cfg: Config, c: Contract, a: nat, m: nat, b: nat)
    requires OneContract(cfg, c) && a <= m <= b
    ensures Stream(cfg, c, a, b) == Stream(cfg, c, a, m) + Stream(cfg, c, m, b)
  {
    StreamInOrder(cfg, c, a, m);
    StreamInOrder(cfg, c, m, b);
    InOrderConcat(Stream(cfg, c, a, m), Stream(cfg, c, m, b), cfg.source, [c.name], a, m, b);
    StreamUnique(cfg, c, Stream(cfg, c, a, m) + Stream(cfg, c, m, b), a, b);
  }

  /** A batch of the only contract is the stream of its range. */
  lemma BatchIsStream(cfg: Config, c: Contract, rs: seq<BlockRange>, i: nat)
    requires OneContract(cfg, c) && i < |rs|
    ensures Batch(cfg.source, [ContractPlan(c.name, rs)], i) == Stream(cfg, c, rs[i].from, rs[i].to + 1)
  {
    assert SamePlans([c.name], rs) == [ContractPlan(c.name, rs)];
    GatherSame(cfg.source, [c.name], rs, i);
    BatchIs(cfg.source, [c.name], rs[i]);
    StreamUnique(cfg, c, Batch(cfg.source, [ContractPlan(c.name, rs)], i), rs[i].from, rs[i].to + 1);
  }

  /** A table that holds the rows of the blocks before p, on top of t. */
  function TableAt(cfg: Config, c: Contract, name: string, t: Table, p: nat): Table {
    ApplyAll(RowsFor(name, Stream(cfg, c, c.start, p), cfg), t)
  }

  /** Writing the rows of blocks a..b-1 again, or for the first time, moves the frontier to b if it
      was before b and changes nothing otherwise. */
  lemma Advance(cfg: Config, c: Contract, name: string, t: Table, p: nat, a: nat, b: nat)
    requires OneContract(cfg, c) && c.start <= a <= p && a <= b
    ensures ApplyAll(RowsFor(name, Stream(cfg, c, a, b), cfg), TableAt(cfg, c, name, t, p)) ==
            TableAt(cfg, c, name, t, Max(p, b))
  {
    if b <= p {
      AlreadyThere(cfg, c, name, t, p, a, b);
    } else {
      StreamSplits(cfg, c, a, p, b);
      StreamSplits(cfg, c, c.start, p, b);
      RowsConcat(name, Stream(cfg, c, a, p), Stream(cfg, c, p, b), cfg);
      RowsConcat(name, Stream(cfg, c, c.start, p), Stream(cfg, c, p, b), cfg);
      var again, more := RowsFor(name, Stream(cfg, c, a, p), cfg), RowsFor(name, Stream(cfg, c, p, b), cfg);
      ApplyAllConcat(again, more, TableAt(cfg, c, name, t, p));
      AlreadyThere(cfg, c, name, t, p, a, p);
      ApplyAllConcat(RowsFor(name, Stream(cfg, c, c.start, p), cfg), more, t);
    }
  }

  lemma AlreadyThere(cfg: Config, c: Contract, name: string, t: Table, p: nat, a: nat, b: nat)
    requires OneContract(cfg, c) && c.start <= a <= b <= p
    ensures ApplyAll(RowsFor(name, Stream(cfg, c, a, b), cfg), TableAt(cfg, c, name, t, p)) ==
      TableAt(cfg, c, name, t, p)
  {
    var all, mid := RowsFor(name, Stream(cfg, c, c.start, p), cfg), RowsFor(name, Stream(cfg, c, a, b), cfg);
    StreamSplits(cfg, c, c.start, a, p);
    StreamSplits(cfg, c, a, b, p);
    RowsConcat(name, Stream(cfg, c, c.start, a), Stream(cfg, c, a, p), cfg);
    RowsConcat(name, Stream(cfg, c, a, b), Stream(cfg, c, b, p), cfg);
    assert forall w <- mid :: w in all;
    RowsAreInserts(name, Stream(cfg, c, c.start, p), cfg);
    RowsAreInserts(name, Stream(cfg, c, a, b), cfg);
    InsertsGrow(all, t);
    InsertsAgain(mid, TableAt(cfg, c, name, t, p));
  }

  /** A table is at frontier p, which the checkpoint has not passed and which is within the limit. */
  ghost predicate At(cfg: Config, c: Contract, t: string, base: Table, d: Durable, p: nat, limit: nat) {
    && t in d.tables && d.tables[t] == TableAt(cfg, c, t, base, p)
    && c.start <= p <= Max(c.start, limit)
    && (c.name in d.checkpoints ==> c.start <= d.checkpoints[c.name] <= p)
  }

  /** Writing a range's rows of a table moves its frontier. */
  lemma WrittenMoves(cfg: Config, c: Contract, t: string, base: Table, table: Table, p: nat, rs: seq<BlockRange>,
                     i: nat)
    requires OneContract(cfg, c) && i < |rs| && c.start <= rs[i].from <= rs[i].to + 1 && rs[i].from <= p
    requires NoOverflow(Batch(cfg.source, [ContractPlan(c.name, rs)], i), cfg)
    requires table == TableAt(cfg, c, t, base, p)
    ensures ApplyAll(Queue(Buffered(cfg, [ContractPlan(c.name, rs)], i), t), table) ==
            TableAt(cfg, c, t, base, Max(p, rs[i].to + 1))
  {
    BatchIsStream(cfg, c, rs, i);
    BufferedRows(cfg, [ContractPlan(c.name, rs)], i, t);
    Advance(cfg, c, t, base, p, rs[i].from, rs[i].to + 1);
  }

  lemma StartReached(rs: seq<BlockRange>, start: nat, head: nat, chunk: nat, i: nat)
    requires Partitions(rs, start, head, chunk) && i < |rs|
    ensures start <= rs[i].from == Reached(rs, start, i) <= rs[i].to <= head
  {
    ReachedIsFrom(rs, start, head, chunk, i);
    StartsAfter(rs, start, head, chunk);
  }

  /** A run's plan of ranges, within the limit and within the buffer. */
  ghost predicate OnePlan(cfg: Config, c: Contract, rs: seq<BlockRange>, start: nat, head: nat, chunk: nat, limit: nat)
  {
    && OneContract(cfg, c) && c.start <= start
    && Partitions(rs, start, head, chunk) && head + 1 <= limit
    && RangesFit(cfg, [ContractPlan(c.name, rs)]) && MaxRanges([ContractPlan(c.name, rs)]) == |rs|
  }

  lemma InterruptedMoves(cfg: Config, c: Contract, t: string, base: Table, d: Durable, p: nat, limit: nat,
                         rs: seq<BlockRange>, start: nat, head: nat, chunk: nat, i: nat, written: set<string>)
    requires OnePlan(cfg, c, rs, start, head, chunk, limit) && i < |rs|
    requires At(cfg, c, t, base, d, p, limit) && Reached(rs, start, i) <= p
    ensures At(cfg, c, t, base, d.(tables := Written(d.tables, Buffered(cfg, [ContractPlan(c.name, rs)], i), written)),
               if t in written then Max(p, rs[i].to + 1) else p, limit)
  {
    StartReached(rs, start, head, chunk, i);
    assert NoOverflow(Batch(cfg.source, [ContractPlan(c.name, rs)], i), cfg);
    WrittenMoves(cfg, c, t, base, d.tables[t], p, rs, i);
  }

  lemma CompletedMoves(cfg: Config, c: Contract, t: string, base: Table, d: Durable, p: nat, limit: nat,
                       rs: seq<BlockRange>, start: nat, head: nat, chunk: nat, i: nat, saved: set<string>)
    requires OnePlan(cfg, c, rs, start, head, chunk, limit) && i < |rs|
    requires At(cfg, c, t, base, d, p, limit) && Reached(rs, start, i) <= p
    ensures At(cfg, c, t, base, AfterRange(d, cfg, [ContractPlan(c.name, rs)], i, saved), Max(p, rs[i].to + 1), limit)
    ensures Reached(rs, start, i + 1) <= Max(p, rs[i].to + 1)
  {
    StartReached(rs, start, head, chunk, i);
    InterruptedMoves(cfg, c, t, base, d, p, limit, rs, start, head, chunk, i, d.tables.Keys);
    SavedOne(d.checkpoints, ContractPlan(c.name, rs), i, saved);
  }

  /** Where a run takes the frontier of table t. */
  function Frontier(t: string, p: nat, rs: seq<BlockRange>, i: nat, fates: seq<Fate>): nat
    decreases |fates|
  {
    if fates == [] || i >= |rs| then p
    else match fates[0]
      case FetchFails => p
      case FlushStops(written) => if t in written then Max(p, rs[i].to + 1) else p
      case Completes(_) => Frontier(t, Max(p, rs[i].to + 1), rs, i + 1, fates[1..])
  }

  /** The state before range i of a run, for one table. */
  ghost predicate Ready(cfg: Config, c: Contract, t: string, base: Table, d: Durable, p: nat, limit: nat,
                        rs: seq<BlockRange>, start: nat, head: nat, chunk: nat, i: nat)
  {
    && OnePlan(cfg, c, rs, start, head, chunk, limit) && i <= |rs|
    && At(cfg, c, t, base, d, p, limit) && Reached(rs, start, i) <= p
  }

  lemma {:induction false} RunStopped(cfg: Config, c: Contract, t: string, base: Table, d: Durable, p: nat, limit: nat,
                                      rs: seq<BlockRange>, start: nat, head: nat, chunk: nat, i: nat, fates: seq<Fate>)
    requires fates != [] && fates[0].FlushStops? && i < |rs|
    ensures Ready(cfg, c, t, base, d, p, limit, rs, start, head, chunk, i) ==>
      At(cfg, c, t, base, RunRanges(d, cfg, [ContractPlan(c.name, rs)], i, fates), Frontier(t, p, rs, i, fates), limit)
  {
    if Ready(cfg, c, t, base, d, p, limit, rs, start, head, chunk, i) {
      RunOneRange(d, cfg, [ContractPlan(c.name, rs)], i, fates);
      InterruptedMoves(cfg, c, t, base, d, p, limit, rs, start, head, chunk, i, fates[0].written);
    }
  }

  lemma {:induction false} RunAdvances(cfg: Config, c: Contract, t: string, base: Table, d: Durable, p: nat, limit: nat,
                                       rs: seq<BlockRange>, start: nat, head: nat, chunk: nat, i: nat,
                                       saved: set<string>)
    requires i < |rs|
    ensures Ready(cfg, c, t, base, d, p, limit, rs, start, head, chunk, i) ==>
      Ready(cfg, c, t, base, AfterRange(d, cfg, [ContractPlan(c.name, rs)], i, saved), Max(p, rs[i].to + 1), limit,
            rs, start, head, chunk, i + 1) && MaxRanges([ContractPlan(c.name, rs)]) == |rs|
  {
    if Ready(cfg, c, t, base, d, p, limit, rs, start, head, chunk, i) {
      CompletedMoves(cfg, c, t, base, d, p, limit, rs, start, head, chunk, i, saved);
    }
  }

  lemma {:induction false} RunContinues(cfg: Config, c: Contract, t: string, d: Durable, p: nat,
                                        rs: seq<BlockRange>, i: nat, fates: seq<Fate>)
    requires fates != [] && fates[0].Completes? && i < |rs| && MaxRanges([ContractPlan(c.name, rs)]) == |rs|
    ensures var plans := [ContractPlan(c.name, rs)];
      RunRanges(d, cfg, plans, i, fates) ==
      RunRanges(AfterRange(d, cfg, plans, i, fates[0].saved), cfg, plans, i + 1, fates[1..])
    ensures Frontier(t, p, rs, i, fates) == Frontier(t, Max(p, rs[i].to + 1), rs, i + 1, fates[1..])
  {
    RunOneRange(d, cfg, [ContractPlan(c.name, rs)], i, fates);
  }

  lemma {:induction false} RunEnds(cfg: Config, c: Contract, t: string, base: Table, d: Durable, p: nat, limit: nat,
                                   rs: seq<BlockRange>, start: nat, head: nat, chunk: nat, i: nat, fates: seq<Fate>)
    requires fates == [] || i >= |rs| || fates[0].FetchFails?
    ensures Ready(cfg, c, t, base, d, p, limit, rs, start, head, chunk, i) ==>
      At(cfg, c, t, base, RunRanges(d, cfg, [ContractPlan(c.name, rs)], i, fates), Frontier(t, p, rs, i, fates), limit)
  {
    if Ready(cfg, c, t, base, d, p, limit, rs, start, head, chunk, i) {
      assert RunRanges(d, cfg, [ContractPlan(c.name, rs)], i, fates) == d && Frontier(t, p, rs, i, fates) == p;
    }
  }
}
