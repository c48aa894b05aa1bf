/** Backfill with checkpoints (crates/forge-index-sync/src/backfill/coordinator.rs:77-268) as a
    function of what goes wrong in each range: what survives in the database, over any number of
    runs. Handlers insert rows and do nothing else. */
module Backfill {
  import opened Tables
  import opened Planner
  import opened Delivery

  /** A row a handler inserts. */
  datatype Emit = Emit(table: string, key: Value, cells: Cells)

  datatype Contract = Contract(name: string, start: nat)

  datatype Config = Config(contracts: seq<Contract>, source: Source, handler: Event -> seq<Emit>, maxSize: nat)

  /** What outlives the process. */
  datatype Durable = Durable(tables: map<string, Table>, checkpoints: map<string, nat>)

  /** What happens to one range: its fetch fails; the process or a statement fails during the flush,
      after the given tables were written; or the flush completes and the checkpoints of the given
      contracts are saved. */
  datatype Fate = FetchFails | FlushStops(written: set<string>) | Completes(saved: set<string>)

  // The buffer

  type Pending = map<string, seq<Write>>

  function Queue(buf: Pending, t: string): seq<Write> {
    if t in buf then buf[t] else []
  }

  /** A handler's inserts, up to the first that finds its table's buffer full. */
  function Enqueue(buf: Pending, emits: seq<Emit>, maxSize: nat): Pending
    decreases |emits|
  {
    if emits == [] then buf
    else
      var m := emits[0];
      if |Queue(buf, m.table)| >= maxSize then buf
      else Enqueue(Pushed(buf, m), emits[1..], maxSize)
  }

  /** Handler errors are logged and the next event is handled. */
  function HandleAll(buf: Pending, events: seq<Event>, cfg: Config): Pending
    decreases |events|
  {
    if events == [] then buf
    else HandleAll(Enqueue(buf, cfg.handler(events[0]), cfg.maxSize), events[1..], cfg)
  }

  function Written(tables: map<string, Table>, buf: Pending, names: set<string>): map<string, Table> {
    map t | t in tables :: if t in names then ApplyAll(Queue(buf, t), tables[t]) else tables[t]
  }

  // One run

  function StartOf(c: Contract, checkpoints: map<string, nat>): nat {
    if c.name in checkpoints then checkpoints[c.name] else c.start
  }

  function PlansFor(cs: seq<Contract>, checkpoints: map<string, nat>, head: nat, chunk: nat): (ps: seq<ContractPlan>)
    requires chunk >= 1
    ensures |ps| == |cs|
    ensures forall k :: 0 <= k < |cs| ==>
      ps[k] == ContractPlan(cs[k].name, Chunks(StartOf(cs[k], checkpoints), head, chunk))
  {
    if cs == [] then []
    else
      [ContractPlan(cs[0].name, Chunks(StartOf(cs[0], checkpoints), head, chunk))] +
      PlansFor(cs[1..], checkpoints, head, chunk)
  }

  function MaxRanges(plans: seq<ContractPlan>): nat {
    if plans == [] then 0
    else
      var rest := MaxRanges(plans[1..]);
      if |plans[0].ranges| > rest then |plans[0].ranges| else rest
  }

  lemma {:induction false} MaxAtMin(plans: seq<ContractPlan>, k: nat)
    requires k < |plans|
    ensures |plans[k].ranges| <= MaxRanges(plans)
  {
    if k > 0 {
      MaxAtMin(plans[1..], k - 1);
    }
  }

  function Saved(checkpoints: map<string, nat>, plans: seq<ContractPlan>, i: nat, saved: set<string>): map<string, nat>
    decreases |plans|
  {
    if plans == [] then checkpoints
    else
      var p := plans[0];
      Saved(if i < |p.ranges| && p.name in saved then checkpoints[p.name := p.ranges[i].to + 1] else checkpoints,
            plans[1..], i, saved)
  }

  /** The rows range i leaves in the buffer. */
  function Buffered(cfg: Config, plans: seq<ContractPlan>, i: nat): Pending {
    HandleAll(map[], Batch(cfg.source, plans, i), cfg)
  }

  /** Ranges i onwards. A run ends when a range does not complete, when the process is killed after
      a range (no fate left), or after the last range. */
  function RunRanges(d: Durable, cfg: Config, plans: seq<ContractPlan>, i: nat, fates: seq<Fate>): Durable
    decreases |fates|
  {
    if fates == [] || i >= MaxRanges(plans) then d
    else
      var buf := Buffered(cfg, plans, i);
      match fates[0]
      case FetchFails => d
      case FlushStops(written) => d.(tables := Written(d.tables, buf, written))
      case Completes(saved) => RunRanges(AfterRange(d, cfg, plans, i, saved), cfg, plans, i + 1, fates[1..])
  }

  lemma {:induction false} RunOneRange(d: Durable, cfg: Config, plans: seq<ContractPlan>, i: nat, fates: seq<Fate>)
    requires fates != [] && i < MaxRanges(plans)
    ensures fates[0].FetchFails? ==> RunRanges(d, cfg, plans, i, fates) == d
    ensures fates[0].FlushStops? ==>
      RunRanges(d, cfg, plans, i, fates) == d.(tables := Written(d.tables, Buffered(cfg, plans, i), fates[0].written))
    ensures fates[0].Completes? ==>
      RunRanges(d, cfg, plans, i, fates) ==
      RunRanges(AfterRange(d, cfg, plans, i, fates[0].saved), cfg, plans, i + 1, fates[1..])
  {
  }

  /** A range that completes: all tables written, then checkpoints saved. */
  function AfterRange(d: Durable, cfg: Config, plans: seq<ContractPlan>, i: nat, saved: set<string>): Durable {
    Durable(Written(d.tables, Buffered(cfg, plans, i), d.tables.Keys), Saved(d.checkpoints, plans, i, saved))
  }

  /** A start of the indexer: the head it sees, its chunk size, the contracts whose checkpoint it fails to
      read, and how each range goes. */
  datatype Start = Start(head: nat, chunk: nat, unread: set<string>, fates: seq<Fate>)

  /** A checkpoint that cannot be read counts as none. */
  function Readable(checkpoints: map<string, nat>, unread: set<string>): map<string, nat> {
    checkpoints - unread
  }

  function PlansOf(d: Durable, cfg: Config, s: Start): seq<ContractPlan>
    requires s.chunk >= 1
  {
    PlansFor(cfg.contracts, Readable(d.checkpoints, s.unread), s.head, s.chunk)
  }

  function RunOnce(d: Durable, cfg: Config, s: Start): Durable
    requires s.chunk >= 1
  {
    RunRanges(d, cfg, PlansOf(d, cfg, s), 0, s.fates)
  }

  function RunAll(d: Durable, cfg: Config, starts: seq<Start>): Durable
    requires forall s <- starts :: s.chunk >= 1
    decreases |starts|
  {
    if starts == [] then d else RunAll(RunOnce(d, cfg, starts[0]), cfg, starts[1..])
  }

  // The rows of a batch

  function EmitsFor(t: string, emits: seq<Emit>): seq<Write> {
    if emits == [] then []
    else (if emits[0].table == t then [Insert(emits[0].key, emits[0].cells)] else []) + EmitsFor(t, emits[1..])
  }

  /** The rows that handling the events inserts into a table, in order. */
  function RowsFor(t: string, events: seq<Event>, cfg: Config): seq<Write> {
    if events == [] then [] else EmitsFor(t, cfg.handler(events[0])) + RowsFor(t, events[1..], cfg)
  }

  /** No table gets more rows than its buffer holds. */
  ghost predicate NoOverflow(events: seq<Event>, cfg: Config) {
    forall t :: |RowsFor(t, events, cfg)| <= cfg.maxSize
  }

  /** The buffer has room for the emitted rows. */
  ghost predicate Room(buf: Pending, emits: seq<Emit>, maxSize: nat) {
    forall t :: |Queue(buf, t)| + |EmitsFor(t, emits)| <= maxSize
  }

  function Pushed(buf: Pending, m: Emit): Pending {
    buf[m.table := Queue(buf, m.table) + [Insert(m.key, m.cells)]]
  }

  lemma RoomAfterOne(buf: Pending, emits: seq<Emit>, maxSize: nat)
    requires emits != [] && Room(buf, emits, maxSize)
    ensures |Queue(buf, emits[0].table)| < maxSize
    ensures Room(Pushed(buf, emits[0]), emits[1..], maxSize)
  {
    assert |Queue(buf, emits[0].table)| + |EmitsFor(emits[0].table, emits)| <= maxSize;
    forall t
      ensures |Queue(Pushed(buf, emits[0]), t)| + |EmitsFor(t, emits[1..])| <= maxSize
    {
      assert |Queue(buf, t)| + |EmitsFor(t, emits)| <= maxSize;
    }
  }

  lemma {:induction false} PushedRows(buf: Pending, emits: seq<Emit>, t: string)
    requires emits != []
    ensures Queue(Pushed(buf, emits[0]), t) + EmitsFor(t, emits[1..]) == Queue(buf, t) + EmitsFor(t, emits)
  {
    var q, row, rest := Queue(buf, t), Insert(emits[0].key, emits[0].cells), EmitsFor(t, emits[1..]);
    if emits[0].table == t {
      assert EmitsFor(t, emits) == [row] + rest;
      assert Queue(Pushed(buf, emits[0]), t) == q + [row];
      assert q + [row] + rest == q + ([row] + rest);
    } else {
      assert EmitsFor(t, emits) == [] + rest == rest;
      assert Queue(Pushed(buf, emits[0]), t) == q;
    }
  }

  lemma {:induction false} EnqueueKeepsAll(buf: Pending, emits: seq<Emit>, maxSize: nat, t: string)
    requires Room(buf, emits, maxSize)
    ensures Queue(Enqueue(buf, emits, maxSize), t) == Queue(buf, t) + EmitsFor(t, emits)
    decreases |emits|
  {
    if emits != [] {
      RoomAfterOne(buf, emits, maxSize);
      EnqueueKeepsAll(Pushed(buf, emits[0]), emits[1..], maxSize, t);
      PushedRows(buf, emits, t);
    }
  }

  /** The queues hold what they held, then the first n of the emitted rows. */
  ghost predicate Queued(buf: Pending, after: Pending, emits: seq<Emit>, n: nat) {
    n <= |emits| && forall t :: Queue(after, t) == Queue(buf, t) + EmitsFor(t, emits[..n])
  }

  lemma QueuedFirst(buf: Pending, after: Pending, emits: seq<Emit>, n: nat)
    requires emits != [] && Queued(Pushed(buf, emits[0]), after, emits[1..], n)
    ensures Queued(buf, after, emits, n + 1)
  {
    var front := emits[..n + 1];
    assert front[0] == emits[0] && front[1..] == emits[1..][..n];
    forall t
      ensures Queue(after, t) == Queue(buf, t) + EmitsFor(t, front)
    {
      PushedRows(buf, front, t);
    }
  }

  /** A handler's rows are buffered in order up to the first that finds its table's buffer full; it and those behind it
      are dropped. */
  lemma {:induction false} EnqueueStops(buf: Pending, emits: seq<Emit>, maxSize: nat) returns (n: nat)
    ensures var after := Enqueue(buf, emits, maxSize);
      Queued(buf, after, emits, n) && (n < |emits| ==> |Queue(after, emits[n].table)| >= maxSize)
    decreases |emits|
  {
    if emits == [] || |Queue(buf, emits[0].table)| >= maxSize {
      n := 0;
      assert forall t :: Queue(buf, t) + EmitsFor(t, emits[..0]) == Queue(buf, t);
    } else {
      var m := EnqueueStops(Pushed(buf, emits[0]), emits[1..], maxSize);
      QueuedFirst(buf, Enqueue(buf, emits, maxSize), emits, m);
      n := m + 1;
    }
  }

  /** No buffer grows beyond its size. */
  lemma {:induction false} EnqueueBounded(buf: Pending, emits: seq<Emit>, maxSize: nat)
    requires forall t :: |Queue(buf, t)| <= maxSize
    ensures forall t :: |Queue(Enqueue(buf, emits, maxSize), t)| <= maxSize
    decreases |emits|
  {
    if emits != [] && |Queue(buf, emits[0].table)| < maxSize {
      forall t
        ensures |Queue(Pushed(buf, emits[0]), t)| <= maxSize
      {
        assert |Queue(buf, t)| <= maxSize;
      }
      EnqueueBounded(Pushed(buf, emits[0]), emits[1..], maxSize);
    }
  }

  /** The buffer has room for the rows of the events. */
  ghost predicate RoomForAll(buf: Pending, events: seq<Event>, cfg: Config) {
    forall t :: |Queue(buf, t)| + |RowsFor(t, events, cfg)| <= cfg.maxSize
  }

  lemma RoomForRest(buf: Pending, events: seq<Event>, cfg: Config)
    requires events != []
    ensures RoomForAll(buf, events, cfg) ==>
      var emits := cfg.handler(events[0]);
      Room(buf, emits, cfg.maxSize) && RoomForAll(Enqueue(buf, emits, cfg.maxSize), events[1..], cfg)
  {
    if RoomForAll(buf, events, cfg) {
      var emits := cfg.handler(events[0]);
      forall u
        ensures |Queue(buf, u)| + |EmitsFor(u, emits)| <= cfg.maxSize
      {
        assert |Queue(buf, u)| + |RowsFor(u, events, cfg)| <= cfg.maxSize;
      }
      forall u
        ensures |Queue(Enqueue(buf, emits, cfg.maxSize), u)| + |RowsFor(u, events[1..], cfg)| <= cfg.maxSize
      {
        EnqueueKeepsAll(buf, emits, cfg.maxSize, u);
        assert |Queue(buf, u)| + |RowsFor(u, events, cfg)| <= cfg.maxSize;
      }
    }
  }

  lemma {:induction false} HandleKeepsAll(buf: Pending, events: seq<Event>, cfg: Config, t: string)
    ensures RoomForAll(buf, events, cfg) ==>
      Queue(HandleAll(buf, events, cfg), t) == Queue(buf, t) + RowsFor(t, events, cfg)
    decreases |events|
  {
    if events != [] && RoomForAll(buf, events, cfg) {
      var emits := cfg.handler(events[0]);
      RoomForRest(buf, events, cfg);
      EnqueueKeepsAll(buf, emits, cfg.maxSize, t);
      HandleKeepsAll(Enqueue(buf, emits, cfg.maxSize), events[1..], cfg, t);
    }
  }

  /** Without overflow the buffer holds exactly the rows the events give. */
  lemma BufferedRows(cfg: Config, plans: seq<ContractPlan>, i: nat, t: string)
    requires NoOverflow(Batch(cfg.source, plans, i), cfg)
    ensures Queue(Buffered(cfg, plans, i), t) == RowsFor(t, Batch(cfg.source, plans, i), cfg)
  {
    var events := Batch(cfg.source, plans, i);
    forall u
      ensures |Queue(map[], u)| + |RowsFor(u, events, cfg)| <= cfg.maxSize
    {
      assert |RowsFor(u, events, cfg)| <= cfg.maxSize;
    }
    assert RoomForAll(map[], events, cfg);
    HandleKeepsAll(map[], events, cfg, t);
  }

  lemma {:induction false} RowsConcat(t: string, a: seq<Event>, b: seq<Event>, cfg: Config)
    ensures RowsFor(t, a + b, cfg) == RowsFor(t, a, cfg) + RowsFor(t, b, cfg)
  {
    if a == [] {
      assert a + b == b;
    } else {
      assert (a + b)[1..] == a[1..] + b;
      RowsConcat(t, a[1..], b, cfg);
    }
  }

  lemma {:induction false} EmitInserted(emits: seq<Emit>, m: Emit)
    requires m in emits
    ensures Insert(m.key, m.cells) in EmitsFor(m.table, emits)
  {
    if emits[0] != m {
      EmitInserted(emits[1..], m);
    }
  }

  lemma {:induction false} RowInserted(events: seq<Event>, cfg: Config, e: Event, m: Emit)
    requires e in events && m in cfg.handler(e)
    ensures Insert(m.key, m.cells) in RowsFor(m.table, events, cfg)
  {
    if events[0] == e {
      EmitInserted(cfg.handler(e), m);
    } else {
      RowInserted(events[1..], cfg, e, m);
    }
  }

  // Inserting into tables

  ghost predicate OnlyInserts(ws: seq<Write>) {
    forall w <- ws :: w.Insert?
  }

  lemma {:induction false} EmitsAreInserts(t: string, emits: seq<Emit>)
    ensures OnlyInserts(EmitsFor(t, emits))
  {
    if emits != [] {
      EmitsAreInserts(t, emits[1..]);
    }
  }

  lemma {:induction false} RowsAreInserts(t: string, events: seq<Event>, cfg: Config)
    ensures OnlyInserts(RowsFor(t, events, cfg))
  {
    if events != [] {
      EmitsAreInserts(t, cfg.handler(events[0]));
      RowsAreInserts(t, events[1..], cfg);
    }
  }

  /** A table that keeps every row of another one. */
  predicate Keeps(t: Table, u: Table) {
    forall k :: k in t ==> k in u && u[k] == t[k]
  }

  /** Inserts keep every row, leave every key they name, and add no other rows than theirs. */
  lemma {:induction false} InsertsGrow(ws: seq<Write>, t: Table)
    requires OnlyInserts(ws)
    ensures Keeps(t, ApplyAll(ws, t))
    ensures forall w <- ws :: w.key in ApplyAll(ws, t)
    ensures forall k :: k in ApplyAll(ws, t) && k !in t ==> Insert(k, ApplyAll(ws, t)[k]) in ws
  {
    if ws != [] {
      InsertsGrow(ws[1..], Apply(ws[0], t));
    }
  }

  /** Inserting rows whose keys are all there changes nothing. */
  lemma {:induction false} InsertsAgain(ws: seq<Write>, t: Table)
    requires OnlyInserts(ws) && forall w <- ws :: w.key in t
    ensures ApplyAll(ws, t) == t
  {
    if ws != [] {
      assert ws[0] in ws;
      InsertsAgain(ws[1..], t);
    }
  }
}
