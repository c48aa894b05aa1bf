/** Whole runs of the realtime loop (crates/forge-index-sync/src/realtime/processor.rs) over one chain and
    all its tables, with any number of reorgs. The loop itself never records the writes it flushes; what it
    does then is in module UnrecordedRuns. This module is about runs whose writes are recorded, as
    crates/forge-index-db/src/reorg.rs asks for. */
module Runs {
  import opened Tables
  import opened Sequences
  import opened ReorgLog
  import opened Rollback
  import opened Chain
  import opened Handler
  import opened EndToEnd

  datatype Indexer = Indexer(chain: seq<Entry>, data: Data)

  /** A block as it arrives: the node at that moment, the writes its events lead to in each table, whether
      they are recorded, and the order in which the database would answer a rollback. */
  datatype Arrival = Arrival(
    block: Block, client: Option<Node>, writes: map<string, seq<Write>>, recorded: bool, answer: Answer)

  function WritesTo(writes: map<string, seq<Write>>, n: string): seq<Write> {
    if n in writes then writes[n] else []
  }

  /** The block's writes are applied, and recorded with their pre-images if they are recorded at all. */
  function Accepted(d: Data, a: Arrival): Data {
    Data(map n | n in d.tables :: ApplyAll(WritesTo(a.writes, n), d.tables[n]),
         map n | n in d.shadows :: d.shadows[n] + RecordedRows(d, a, n),
         d.schemas)
  }

  function RecordedRows(d: Data, a: Arrival, n: string): seq<ShadowRow> {
    if a.recorded && n in d.tables && n in d.schemas
    then Records(WritesTo(a.writes, n), d.tables[n], a.block.number, d.schemas[n].columns)
    else []
  }

  /** One block, and whether the loop goes on: a failed search or rollback ends it. */
  function Step(x: Indexer, names: seq<string>, id: nat, a: Arrival): (bool, Indexer) {
    var (r, chain) := Decide(x.chain, a.client, id, a.block);
    match r
    case Err(_) => (false, x)
    case Ok(Normal) => (true, Indexer(chain, Accepted(x.data, a)))
    case Ok(Reorg(_, fork, _)) =>
      var all := RollbackTables(names, fork, a.answer, x.data, 0);
      (all.ok, Indexer(chain, all.data))
  }

  /** The blocks whose writes should be in the tables. */
  function PastsStep(pasts: map<string, Past>, x: Indexer, names: seq<string>, id: nat, a: Arrival): map<string, Past> {
    match Decide(x.chain, a.client, id, a.block).0
    case Err(_) => pasts
    case Ok(Normal) =>
      map n | n in pasts :: Extended(pasts[n], BlockWrites(a.block.number, WritesTo(a.writes, n)))
    case Ok(Reorg(_, fork, _)) => TruncatedAt(names, pasts, fork)
  }

  function Extended(p: Past, b: BlockWrites): Past {
    p.(blocks := p.blocks + [b])
  }

  function Run(x: Indexer, names: seq<string>, id: nat, arrivals: seq<Arrival>): Indexer
    decreases |arrivals|
  {
    if arrivals == [] then x
    else
      var (on, x') := Step(x, names, id, arrivals[0]);
      if on then Run(x', names, id, arrivals[1..]) else x'
  }

  function RunPasts(pasts: map<string, Past>, x: Indexer, names: seq<string>, id: nat, arrivals: seq<Arrival>)
    : map<string, Past>
    decreases |arrivals|
  {
    if arrivals == [] then pasts
    else
      var (on, x') := Step(x, names, id, arrivals[0]);
      var pasts' := PastsStep(pasts, x, names, id, arrivals[0]);
      if on then RunPasts(pasts', x', names, id, arrivals[1..]) else pasts'
  }

  /** An accepted block advances a table's history, its writes hit the rows they should, and its recorded
      rows can be undone in any order. */
  ghost predicate Extends(p: Past, table: Table, b: BlockWrites) {
    && (p.blocks == [] || p.blocks[|p.blocks| - 1].number < b.number)
    && Recordable(b.writes, table, p.schema)
    && Settled(Records(b.writes, table, b.number, p.schema.columns), table, ApplyAll(b.writes, table),
               p.schema.required)
  }

  ghost predicate RecordedOne(pasts: map<string, Past>, x: Indexer, id: nat, a: Arrival) {
    && Possible(a.answer)
    && (Decide(x.chain, a.client, id, a.block).0 == Ok(Normal) ==>
          a.recorded && forall n :: n in pasts && n in x.data.tables ==>
            Extends(pasts[n], x.data.tables[n], BlockWrites(a.block.number, WritesTo(a.writes, n))))
  }

  /** Every block the run accepts is recorded and can be undone, and the database answers queries correctly. */
  ghost predicate Recorded(pasts: map<string, Past>, x: Indexer, names: seq<string>, id: nat, arrivals: seq<Arrival>)
    decreases |arrivals|
  {
    arrivals == [] ||
    (var a := arrivals[0];
     var (on, x') := Step(x, names, id, a);
     && RecordedOne(pasts, x, id, a)
     && (on ==> Recorded(PastsStep(pasts, x, names, id, a), x', names, id, arrivals[1..])))
  }

  /** Every reorg the run meets finds only rows whose key can be pasted. */
  ghost predicate RunReplays(x: Indexer, names: seq<string>, id: nat, arrivals: seq<Arrival>)
    decreases |arrivals|
  {
    arrivals == [] ||
    (var a := arrivals[0];
     var (on, x') := Step(x, names, id, a);
     && ReplaysOne(x, names, id, a)
     && (on ==> RunReplays(x', names, id, arrivals[1..])))
  }

  ghost predicate ReplaysOne(x: Indexer, names: seq<string>, id: nat, a: Arrival) {
    var r := Decide(x.chain, a.client, id, a.block).0;
    r.Ok? && r.value.Reorg? ==> AllReplay(names, x.data, r.value.forkBlock)
  }

  lemma AcceptedKept(p: Past, table: Table, shadow: seq<ShadowRow>, b: BlockWrites)
    requires Kept(p, table, shadow) && Extends(p, table, b)
    ensures Kept(Extended(p, b), ApplyAll(b.writes, table),
                 shadow + Records(b.writes, table, b.number, p.schema.columns))
  {
    AcceptedBuilds(p.blocks, p.start, p.schema.columns, b);
    AcceptedFits(p.blocks, p.start, p.schema, b);
    AcceptedUndoable(p.blocks, p.start, p.schema, b, Records(b.writes, table, b.number, p.schema.columns),
                     table, ApplyAll(b.writes, table));
  }

  /** What a history with one more block builds. */
  lemma {:induction false} AcceptedBuilds(h: History, t: Table, columns: set<string>, b: BlockWrites)
    ensures After(h + [b], t) == ApplyAll(b.writes, After(h, t))
    ensures Log(h + [b], t, columns) == Log(h, t, columns) + Records(b.writes, After(h, t), b.number, columns)
  {
    assert (h + [b])[..|h|] == h && (h + [b])[|h|] == b;
  }

  lemma {:induction false} AcceptedFits(h: History, t: Table, s: Schema, b: BlockWrites)
    requires WellFormed(h, t, s) && (h == [] || h[|h| - 1].number < b.number)
    requires Recordable(b.writes, After(h, t), s)
    ensures WellFormed(h + [b], t, s)
  {
    assert (h + [b])[..|h|] == h && (h + [b])[|h|] == b;
  }

  lemma {:induction false} AcceptedUndoable(h: History, t: Table, s: Schema, b: BlockWrites, recs: seq<ShadowRow>,
                                            u: Table, u': Table)
    requires Undoable(h, t, s) && u == After(h, t) && u' == ApplyAll(b.writes, u)
    requires recs == Records(b.writes, u, b.number, s.columns) && Settled(recs, u, u', s.required)
    ensures Undoable(h + [b], t, s)
  {
    assert (h + [b])[..|h|] == h && (h + [b])[|h|] == b;
  }

  lemma AcceptedInStep(pasts: map<string, Past>, x: Indexer, names: seq<string>, id: nat, a: Arrival)
    requires InStep(x.data, pasts) && RecordedOne(pasts, x, id, a)
    requires Decide(x.chain, a.client, id, a.block).0 == Ok(Normal)
    ensures InStep(Accepted(x.data, a), PastsStep(pasts, x, names, id, a))
  {
    forall n | n in pasts
      ensures Tracks(Accepted(x.data, a), n, PastsStep(pasts, x, names, id, a)[n])
    {
      assert Tracks(x.data, n, pasts[n]);
      AcceptedKept(pasts[n], x.data.tables[n], x.data.shadows[n], BlockWrites(a.block.number, WritesTo(a.writes, n)));
    }
  }

  lemma StepInStepIff(pasts: map<string, Past>, x: Indexer, names: seq<string>, id: nat, a: Arrival)
    requires InStep(x.data, pasts) && RecordedOne(pasts, x, id, a) && forall n <- names :: n in pasts
    ensures InStep(Step(x, names, id, a).1.data, PastsStep(pasts, x, names, id, a)) <==> ReplaysOne(x, names, id, a)
    ensures Decide(x.chain, a.client, id, a.block).0.Ok? ==> (Step(x, names, id, a).0 <==> ReplaysOne(x, names, id, a))
    ensures PastsStep(pasts, x, names, id, a).Keys == pasts.Keys
  {
    var r := Decide(x.chain, a.client, id, a.block).0;
    if r == Ok(Normal) {
      AcceptedInStep(pasts, x, names, id, a);
    } else if r.Ok? {
      RollbackTablesIff(names, x.data, pasts, r.value.forkBlock, a.answer, 0);
    }
  }

  /** Over every run, with any number of reorgs and any order of ties, the tables and shadow logs are those
      of the blocks accepted and not since rolled back if and only if every reorg of the run finds only rows
      that can be replayed. */
  lemma {:induction false} RunInStepIff(pasts: map<string, Past>, x: Indexer, names: seq<string>, id: nat,
                                        arrivals: seq<Arrival>)
    requires InStep(x.data, pasts) && Recorded(pasts, x, names, id, arrivals) && forall n <- names :: n in pasts
    ensures InStep(Run(x, names, id, arrivals).data, RunPasts(pasts, x, names, id, arrivals)) <==>
            RunReplays(x, names, id, arrivals)
    decreases |arrivals|
  {
    if arrivals != [] {
      var a := arrivals[0];
      var (on, x') := Step(x, names, id, a);
      var pasts' := PastsStep(pasts, x, names, id, a);
      StepInStepIff(pasts, x, names, id, a);
      if on {
        assert forall n <- names :: n in pasts'.Keys;
        RunInStepIff(pasts', x', names, id, arrivals[1..]);
      }
    }
  }

  // Plain text keys

  ghost predicate PlainData(d: Data) {
    forall n :: n in d.shadows ==> PlainLog(d.shadows[n])
  }

  ghost predicate PlainArrival(a: Arrival) {
    forall n :: n in a.writes ==> forall w <- a.writes[n] :: PlainKey(w.key)
  }

  lemma {:induction false} PlainRecords(ws: seq<Write>, t: Table, b: nat, columns: set<string>)
    requires forall w <- ws :: PlainKey(w.key)
    ensures PlainLog(Records(ws, t, b, columns))
  {
    if ws != [] {
      assert ws[0] in ws;
      PlainRecords(ws[1..], Apply(ws[0], t), b, columns);
    }
  }

  lemma PlainAccepted(d: Data, a: Arrival)
    requires PlainData(d) && PlainArrival(a)
    ensures PlainData(Accepted(d, a))
  {
    forall n | n in d.tables && n in d.schemas
      ensures PlainLog(Records(WritesTo(a.writes, n), d.tables[n], a.block.number, d.schemas[n].columns))
    {
      PlainRecords(WritesTo(a.writes, n), d.tables[n], a.block.number, d.schemas[n].columns);
    }
  }

  lemma {:induction false} PlainRollback(names: seq<string>, fork: nat, answer: Answer, d: Data, total: nat)
    requires PlainData(d)
    ensures PlainData(RollbackTables(names, fork, answer, d, total).data)
    decreases |names|
  {
    if names != [] {
      var one := RollbackOne(names[0], fork, answer, d);
      PlainOne(names[0], fork, answer, d);
      if one.ok {
        PlainRollback(names[1..], fork, answer, one.data, total + one.replayed);
      }
    }
  }

  lemma PlainOne(name: string, fork: nat, answer: Answer, d: Data)
    requires PlainData(d)
    ensures PlainData(RollbackOne(name, fork, answer, d).data)
  {
    if name in d.shadows {
      FilterMembers(d.shadows[name], Before(fork));
    }
  }

  lemma PlainAllReplay(names: seq<string>, d: Data, fork: nat)
    requires PlainData(d)
    ensures AllReplay(names, d, fork)
  {
    forall n | n in d.shadows
      ensures Replays(d.shadows[n], fork)
    {
      PlainNames(d.shadows[n]);
    }
  }

  lemma {:induction false} PlainReplays(x: Indexer, names: seq<string>, id: nat, arrivals: seq<Arrival>)
    requires PlainData(x.data) && forall a <- arrivals :: PlainArrival(a)
    ensures RunReplays(x, names, id, arrivals)
    decreases |arrivals|
  {
    if arrivals != [] {
      var a := arrivals[0];
      var r := Decide(x.chain, a.client, id, a.block).0;
      assert a in arrivals;
      if r == Ok(Normal) {
        PlainAccepted(x.data, a);
      } else if r.Ok? {
        PlainAllReplay(names, x.data, r.value.forkBlock);
        PlainRollback(names, r.value.forkBlock, a.answer, x.data, 0);
      }
      PlainReplays(Step(x, names, id, a).1, names, id, arrivals[1..]);
    }
  }

  /** For plain keys a block can be undone if and only if its recorded rows are tie-safe. */
  lemma PlainExtendsIff(p: Past, table: Table, shadow: seq<ShadowRow>, b: BlockWrites)
    requires Kept(p, table, shadow) && forall w <- b.writes :: PlainKey(w.key)
    ensures Extends(p, table, b) <==>
      && (p.blocks == [] || p.blocks[|p.blocks| - 1].number < b.number)
      && Recordable(b.writes, table, p.schema)
      && TieSafe(Records(b.writes, table, b.number, p.schema.columns), table, p.schema.required)
  {
    HistoryTyped(p.blocks, p.start, p.schema);
    PlainRecords(b.writes, table, b.number, p.schema.columns);
    PlainNames(Records(b.writes, table, b.number, p.schema.columns));
    if Recordable(b.writes, table, p.schema) {
      SettledIff(b.writes, table, b.number, p.schema);
    }
  }

  /** With text keys without apostrophes every recorded run stays in step. */
  lemma RunStaysInStep(pasts: map<string, Past>, x: Indexer, names: seq<string>, id: nat, arrivals: seq<Arrival>)
    requires InStep(x.data, pasts) && Recorded(pasts, x, names, id, arrivals) && forall n <- names :: n in pasts
    requires PlainData(x.data) && forall a <- arrivals :: PlainArrival(a)
    ensures InStep(Run(x, names, id, arrivals).data, RunPasts(pasts, x, names, id, arrivals))
  {
    PlainReplays(x, names, id, arrivals);
    RunInStepIff(pasts, x, names, id, arrivals);
  }

  /** A row with a numeric key, inserted in block 5 and to be rolled back from there, stays. */
  lemma NumericKeySticks(answer: Answer, s: Schema)
    requires Possible(answer)
    ensures var row := ShadowRow(BigInt(1), map[], DeleteOp, 5);
      var d := Data(map["t" := map[BigInt(1) := map[]]], map["t" := [row]], map["t" := s]);
      RollbackTables(["t"], 5, answer, d, 0) == Outcome(false, 0, d)
  {
    var row := ShadowRow(BigInt(1), map[], DeleteOp, 5);
    var d := Data(map["t" := map[BigInt(1) := map[]]], map["t" := [row]], map["t" := s]);
    var rows := answer([row], 5);
    assert Selection(rows, [row], 5);
    SelectionMembers(rows, [row], 5);
    assert row in [row] && row in rows;
    assert rows[0] in rows;
    assert rows[..0] == [];
    assert FirstStuck(rows, d.tables["t"], s.required) == 0;
    var one := RollbackOne("t", 5, answer, d);
    assert one.data.tables == d.tables;
  }
}
