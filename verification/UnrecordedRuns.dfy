/** The realtime loop as it stands (crates/forge-index-sync/src/realtime/processor.rs:103-195): it flushes the
    writes of a block and records none of them, so a rollback finds nothing to undo. */
module UnrecordedRuns {
  import opened Tables
  import opened Sequences
  import opened ReorgLog
  import opened Chain
  import opened Handler
  import opened EndToEnd
  import opened Runs

  /** The tables hold what their blocks wrote, and the shadow logs are empty. */
  ghost predicate TablesInStep(d: Data, pasts: map<string, Past>) {
    forall n :: n in pasts ==>
      && n in d.tables && d.tables[n] == After(pasts[n].blocks, pasts[n].start)
      && n in d.shadows && d.shadows[n] == []
  }

  /** Rolling back tables with empty shadow logs succeeds and changes nothing. */
  lemma {:induction false} NothingUndone(names: seq<string>, fork: nat, answer: Answer, d: Data, total: nat)
    requires Possible(answer) && forall n <- names :: n in d.tables && n in d.shadows && d.shadows[n] == []
    ensures RollbackTables(names, fork, answer, d, total) == Outcome(true, total, d)
    decreases |names|
  {
    if names != [] {
      var n, rows := names[0], answer([], fork);
      assert Selection(rows, [], fork);
      SameElements(rows, []);
      assert n in names && d.tables[n := d.tables[n]] == d.tables && d.shadows[n := []] == d.shadows;
      assert RollbackOne(n, fork, answer, d) == Outcome(true, 0, d);
      FirstRolledBack(names, fork, answer, d, total, total);
      NothingUndone(names[1..], fork, answer, d, total);
    }
  }

  /** After every block of the run the tables hold what the blocks accepted and not rolled back wrote. */
  ghost predicate AlwaysInStep(pasts: map<string, Past>, x: Indexer, names: seq<string>, id: nat,
                               arrivals: seq<Arrival>)
    decreases |arrivals|
  {
    && TablesInStep(x.data, pasts)
    && (arrivals == [] ||
        (var a := arrivals[0];
         AlwaysInStep(PastsStep(pasts, x, names, id, a), Step(x, names, id, a).1, names, id,
                      if Step(x, names, id, a).0 then arrivals[1..] else [])))
  }

  /** Every reorg of the run rolls back only blocks that, taken together, changed no listed table. */
  ghost predicate NothingToUndo(pasts: map<string, Past>, x: Indexer, names: seq<string>, id: nat,
                                arrivals: seq<Arrival>)
    decreases |arrivals|
  {
    arrivals == [] ||
    (var a := arrivals[0];
     && UnchangedSince(pasts, x, names, id, a)
     && NothingToUndo(PastsStep(pasts, x, names, id, a), Step(x, names, id, a).1, names, id,
                      if Step(x, names, id, a).0 then arrivals[1..] else []))
  }

  ghost predicate UnchangedSince(pasts: map<string, Past>, x: Indexer, names: seq<string>, id: nat, a: Arrival) {
    var r := Decide(x.chain, a.client, id, a.block).0;
    r.Ok? && r.value.Reorg? ==>
      forall n <- names :: n in pasts ==>
        After(UpTo(pasts[n].blocks, r.value.forkBlock), pasts[n].start) == After(pasts[n].blocks, pasts[n].start)
  }

  lemma AcceptedUnrecorded(pasts: map<string, Past>, x: Indexer, names: seq<string>, id: nat, a: Arrival)
    requires TablesInStep(x.data, pasts) && !a.recorded && Decide(x.chain, a.client, id, a.block).0 == Ok(Normal)
    ensures TablesInStep(Accepted(x.data, a), PastsStep(pasts, x, names, id, a))
  {
    forall n | n in pasts
      ensures var p := PastsStep(pasts, x, names, id, a)[n];
        Accepted(x.data, a).tables[n] == After(p.blocks, p.start)
    {
      AcceptedBuilds(pasts[n].blocks, pasts[n].start, {}, BlockWrites(a.block.number, WritesTo(a.writes, n)));
    }
  }

  /** One block keeps the tables in step if and only if it is not a reorg that had to undo something. */
  lemma StepUnrecorded(pasts: map<string, Past>, x: Indexer, names: seq<string>, id: nat, a: Arrival)
    requires TablesInStep(x.data, pasts) && (forall n <- names :: n in pasts) && !a.recorded && Possible(a.answer)
    ensures TablesInStep(Step(x, names, id, a).1.data, PastsStep(pasts, x, names, id, a)) <==>
            UnchangedSince(pasts, x, names, id, a)
    ensures PastsStep(pasts, x, names, id, a).Keys == pasts.Keys
  {
    var r := Decide(x.chain, a.client, id, a.block).0;
    if r == Ok(Normal) {
      AcceptedUnrecorded(pasts, x, names, id, a);
    } else if r.Ok? {
      NothingUndone(names, r.value.forkBlock, a.answer, x.data, 0);
    }
  }

  /** A run that records nothing keeps the tables in step throughout if and only if no reorg of it rolls back
      blocks that changed a listed table. */
  lemma {:induction false} UnrecordedInStepIff(pasts: map<string, Past>, x: Indexer, names: seq<string>, id: nat,
                                               arrivals: seq<Arrival>)
    requires TablesInStep(x.data, pasts) && forall n <- names :: n in pasts
    requires forall a <- arrivals :: !a.recorded && Possible(a.answer)
    ensures AlwaysInStep(pasts, x, names, id, arrivals) <==> NothingToUndo(pasts, x, names, id, arrivals)
    decreases |arrivals|
  {
    if arrivals != [] {
      var a := arrivals[0];
      var (on, x') := Step(x, names, id, a);
      var pasts' := PastsStep(pasts, x, names, id, a);
      assert a in arrivals;
      StepUnrecorded(pasts, x, names, id, a);
      if TablesInStep(x'.data, pasts') {
        assert forall n <- names :: n in pasts'.Keys;
        UnrecordedInStepIff(pasts', x', names, id, if on then arrivals[1..] else []);
      }
    }
  }

  // One row

  /** An accepted block 2 that inserts one row. */
  function Orphan(k: Value, c: Cells, answer: Answer): Arrival {
    Arrival(Block(2, Hash32(20), Hash32(1)), None, map["t" := [Insert(k, c)]], false, answer)
  }

  /** Block 3, whose parent is another block 2. */
  function NextBlock(answer: Answer): Arrival {
    Arrival(Block(3, Hash32(3), Hash32(2)), Some(Counting()), map[], false, answer)
  }

  /** The row of an orphaned block stays after the reorg that rolls the block back. */
  lemma OrphanedRowStays(k: Value, c: Cells, s: Schema, answer: Answer)
    requires Possible(answer)
    ensures var d := Data(map["t" := map[]], map["t" := []], map["t" := s]);
      var x := Indexer([Entry(1, Hash32(1))], d);
      var pasts := map["t" := Past([], map[], s)];
      var arrivals := [Orphan(k, c, answer), NextBlock(answer)];
      && Runs.Run(x, ["t"], 1, arrivals).data == d.(tables := map["t" := map[k := c]])
      && RunPasts(pasts, x, ["t"], 1, arrivals) == pasts
      && After([], map[]) == map[]
  {
    var d := Data(map["t" := map[]], map["t" := []], map["t" := s]);
    var x := Indexer([Entry(1, Hash32(1))], d);
    var pasts := map["t" := Past([], map[], s)];
    var a1, a2 := Orphan(k, c, answer), NextBlock(answer);
    FirstAccepted(k, c, s, answer, x, pasts);
    SecondReorgs(k, c, s, answer);
    TwoSteps(pasts, x, ["t"], 1, a1, a2);
  }

  lemma TwoSteps(pasts: map<string, Past>, x: Indexer, names: seq<string>, id: nat, a1: Arrival, a2: Arrival)
    requires Step(x, names, id, a1).0
    ensures var x1 := Step(x, names, id, a1).1;
      && Runs.Run(x, names, id, [a1, a2]) == Step(x1, names, id, a2).1
      && RunPasts(pasts, x, names, id, [a1, a2]) ==
         PastsStep(PastsStep(pasts, x, names, id, a1), x1, names, id, a2)
  {
    var x1, pasts1 := Step(x, names, id, a1).1, PastsStep(pasts, x, names, id, a1);
    var x2, pasts2 := Step(x1, names, id, a2).1, PastsStep(pasts1, x1, names, id, a2);
    assert [a1, a2][1..] == [a2] && [a2][1..] == [];
    assert Runs.Run(x2, names, id, []) == x2 && RunPasts(pasts2, x2, names, id, []) == pasts2;
    assert Runs.Run(x1, names, id, [a2]) == x2 && RunPasts(pasts1, x1, names, id, [a2]) == pasts2;
  }

  function Held(k: Value, c: Cells, s: Schema): Indexer {
    Indexer([Entry(1, Hash32(1)), Entry(2, Hash32(20))],
            Data(map["t" := map[k := c]], map["t" := []], map["t" := s]))
  }

  function HeldPasts(k: Value, c: Cells, s: Schema): map<string, Past> {
    map["t" := Past([BlockWrites(2, [Insert(k, c)])], map[], s)]
  }

  lemma FirstAccepted(k: Value, c: Cells, s: Schema, answer: Answer, x: Indexer, pasts: map<string, Past>)
    requires x == Indexer([Entry(1, Hash32(1))], Data(map["t" := map[]], map["t" := []], map["t" := s]))
    requires pasts == map["t" := Past([], map[], s)]
    ensures Step(x, ["t"], 1, Orphan(k, c, answer)) == (true, Held(k, c, s))
    ensures PastsStep(pasts, x, ["t"], 1, Orphan(k, c, answer)) == HeldPasts(k, c, s)
  {
    var a := Orphan(k, c, answer);
    assert Decide(x.chain, None, 1, a.block) == (Ok(Normal), x.chain + [Entry(2, Hash32(20))]);
    assert [Insert(k, c)][1..] == [];
    assert ApplyAll([Insert(k, c)], map[]) == ApplyAll([], map[k := c]);
    assert x.chain + [Entry(2, Hash32(20))] == Held(k, c, s).chain;
    assert Accepted(x.data, a).tables == map["t" := map[k := c]];
    assert Accepted(x.data, a).shadows == map["t" := []];
    assert [] + [BlockWrites(2, [Insert(k, c)])] == [BlockWrites(2, [Insert(k, c)])];
  }

  lemma SecondReorgs(k: Value, c: Cells, s: Schema, answer: Answer)
    requires Possible(answer)
    ensures Step(Held(k, c, s), ["t"], 1, NextBlock(answer)) ==
            (true, Indexer([Entry(1, Hash32(1))], Held(k, c, s).data))
    ensures PastsStep(HeldPasts(k, c, s), Held(k, c, s), ["t"], 1, NextBlock(answer)) == map["t" := Past([], map[], s)]
  {
    var chain := Held(k, c, s).chain;
    assert FindHash(chain, 2) == Some(Hash32(20)) by {
      FindHashFinds(chain, 2);
      assert chain[1] in chain;
    }
    assert Walk(chain, Counting(), 1, 1, 0) == Ok(2);
    assert Walk(chain, Counting(), 1, 2, 0) == Ok(2);
    assert chain[..1] == [Entry(1, Hash32(1))];
    assert Pruned(chain, 1) == [Entry(1, Hash32(1))];
    NothingUndone(["t"], 2, answer, Held(k, c, s).data, 0);
    assert UpTo([BlockWrites(2, [Insert(k, c)])], 2) == [];
  }
}
