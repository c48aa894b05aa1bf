/** From a delivered block to restored tables: detection, handling, and whole runs with any number
    of reorgs. */
module EndToEnd {
  import opened Tables
  import opened Sequences
  import opened ReorgLog
  import opened Rollback
  import opened Buffer
  import opened Flush
  import opened Chain
  import opened Handler

  // Truncated histories

  lemma {:induction false} UpToShorter(h: History, t: Table, s: Schema, b: nat)
    requires WellFormed(h, t, s)
    ensures WellFormed(UpTo(h, b), t, s)
    ensures Undoable(h, t, s) ==> Undoable(UpTo(h, b), t, s)
    ensures UpTo(UpTo(h, b), b) == UpTo(h, b)
  {
    if h != [] && h[|h| - 1].number >= b {
      UpToShorter(h[..|h| - 1], t, s, b);
    }
  }

  /** What a rollback leaves of the log is the log of the blocks below the fork. */
  lemma {:induction false} LogUpTo(h: History, t: Table, s: Schema, b: nat)
    requires WellFormed(h, t, s)
    ensures Below(Log(h, t, s.columns), b) == Log(UpTo(h, b), t, s.columns)
    ensures WellFormed(UpTo(h, b), t, s)
    ensures Undoable(h, t, s) ==> Undoable(UpTo(h, b), t, s)
    ensures UpTo(UpTo(h, b), b) == UpTo(h, b)
  {
    UpToShorter(h, t, s, b);
    LogBelow(h, t, s, b);
  }

  lemma {:induction false} LogBelow(h: History, t: Table, s: Schema, b: nat)
    requires WellFormed(h, t, s)
    ensures Below(Log(h, t, s.columns), b) == Log(UpTo(h, b), t, s.columns)
  {
    if h == [] || h[|h| - 1].number < b {
      HistoryTyped(h, t, s);
      FilterMembers(Log(h, t, s.columns), Before(b));
    } else {
      LogBelow(h[..|h| - 1], t, s, b);
      LastBlockDropped(h, t, s, b);
    }
  }

  lemma LastBlockDropped(h: History, t: Table, s: Schema, b: nat)
    requires h != [] && WellFormed(h, t, s) && h[|h| - 1].number >= b
    ensures Below(Log(h, t, s.columns), b) == Below(Log(h[..|h| - 1], t, s.columns), b)
  {
    var front, recs := h[..|h| - 1], LastRecords(h, t, s);
    LastBlock(h, t, s);
    FilterConcat(Log(front, t, s.columns), recs, Before(b));
    FilterMembers(recs, Before(b));
    assert Log(h, t, s.columns) == Log(front, t, s.columns) + recs;
  }

  /** The blocks behind a table, the table they start from and its columns. */
  datatype Past = Past(blocks: History, start: Table, schema: Schema)

  function Truncated(p: Past, fork: nat): Past {
    p.(blocks := UpTo(p.blocks, fork))
  }

  /** A table and its shadow log are what a history of recorded, undoable blocks leaves. */
  ghost predicate Kept(p: Past, table: Table, shadow: seq<ShadowRow>) {
    && WellFormed(p.blocks, p.start, p.schema) && Undoable(p.blocks, p.start, p.schema)
    && table == After(p.blocks, p.start) && shadow == Log(p.blocks, p.start, p.schema.columns)
  }

  /** The key of every row that a rollback from the fork has to undo can be pasted. */
  predicate Replays(log: seq<ShadowRow>, fork: nat) {
    forall r <- log :: r.block >= fork ==> Pasteable(r)
  }

  lemma SelectionMembers(rows: seq<ShadowRow>, log: seq<ShadowRow>, fork: nat)
    requires Selection(rows, log, fork)
    ensures forall r :: r in rows <==> r in log && r.block >= fork
  {
    FilterMembers(log, AtOrAfter(fork));
    SameElements(rows, Above(log, fork));
  }

  /** Rolling a kept table back, in any order of ties, goes through if and only if its rows can be replayed,
      and then keeps it for the truncated history. */
  lemma RollbackKeeps(p: Past, table: Table, shadow: seq<ShadowRow>, fork: nat, rows: seq<ShadowRow>)
    requires Kept(p, table, shadow) && Selection(rows, shadow, fork)
    ensures FirstStuck(rows, table, p.schema.required) == |rows| <==> Replays(shadow, fork)
    ensures Kept(Truncated(p, fork), UndoAll(rows, table), Below(shadow, fork))
    ensures Truncated(Truncated(p, fork), fork) == Truncated(p, fork)
  {
    RollbackExact(p.blocks, p.start, p.schema, fork, rows);
    ReplayedIff(p.blocks, p.start, p.schema, fork, rows);
    SelectionMembers(rows, shadow, fork);
    LogUpTo(p.blocks, p.start, p.schema, fork);
  }

  ghost predicate Tracks(d: Data, n: string, p: Past) {
    n in d.tables && n in d.shadows && n in d.schemas && d.schemas[n] == p.schema && Kept(p, d.tables[n], d.shadows[n])
  }

  /** A rollback of one table reaches the truncated history if and only if its rows can be replayed. */
  lemma RollbackOneIff(d: Data, name: string, p: Past, fork: nat, answer: Answer)
    requires Tracks(d, name, p) && Possible(answer)
    ensures var one := RollbackOne(name, fork, answer, d);
      && (one.ok <==> Replays(d.shadows[name], fork))
      && (one.ok <==> Tracks(one.data, name, Truncated(p, fork)))
      && name in one.data.tables && one.data.tables == d.tables[name := one.data.tables[name]]
      && one.data.schemas == d.schemas
      && one.data.shadows == if one.ok then d.shadows[name := Below(d.shadows[name], fork)] else d.shadows
    ensures Truncated(Truncated(p, fork), fork) == Truncated(p, fork)
  {
    var shadow := d.shadows[name];
    var rows := answer(shadow, fork);
    assert Selection(rows, shadow, fork);
    RollbackKeeps(p, d.tables[name], shadow, fork, rows);
    if Replays(shadow, fork) {
      assert rows[..|rows|] == rows;
    } else {
      StuckNotKept(p, shadow, fork);
    }
  }

  /** A log with rows at or after the fork is not that of the truncated history. */
  lemma StuckNotKept(p: Past, shadow: seq<ShadowRow>, fork: nat)
    requires WellFormed(p.blocks, p.start, p.schema) && shadow == Log(p.blocks, p.start, p.schema.columns)
    requires !Replays(shadow, fork)
    ensures shadow != Log(Truncated(p, fork).blocks, p.start, p.schema.columns)
  {
    LogUpTo(p.blocks, p.start, p.schema, fork);
    FilterMembers(shadow, Before(fork));
  }

  /** Every listed table and its shadow log are what its history leaves. */
  ghost predicate InStep(d: Data, pasts: map<string, Past>) {
    forall n :: n in pasts ==> Tracks(d, n, pasts[n])
  }

  ghost predicate AllReplay(names: seq<string>, d: Data, fork: nat) {
    forall n <- names :: n in d.shadows ==> Replays(d.shadows[n], fork)
  }

  function TruncatedAt(names: seq<string>, pasts: map<string, Past>, fork: nat): map<string, Past> {
    map n | n in pasts :: if n in names then Truncated(pasts[n], fork) else pasts[n]
  }

  lemma TruncateFirst(names: seq<string>, pasts: map<string, Past>, fork: nat)
    requires names != [] && names[0] in pasts
    requires Truncated(Truncated(pasts[names[0]], fork), fork) == Truncated(pasts[names[0]], fork)
    ensures TruncatedAt(names[1..], pasts[names[0] := Truncated(pasts[names[0]], fork)], fork) ==
            TruncatedAt(names, pasts, fork)
  {
    assert forall o :: o in names <==> o == names[0] || o in names[1..];
  }

  lemma ReplayFirst(names: seq<string>, d: Data, d': Data, fork: nat)
    requires names != [] && names[0] in d.shadows && Replays(d.shadows[names[0]], fork)
    requires d'.shadows == d.shadows[names[0] := Below(d.shadows[names[0]], fork)]
    ensures AllReplay(names, d, fork) <==> AllReplay(names[1..], d', fork)
  {
    FilterMembers(d.shadows[names[0]], Before(fork));
    assert names == [names[0]] + names[1..];
  }

  lemma OthersInStep(d: Data, d': Data, name: string, pasts: map<string, Past>, p: Past)
    requires InStep(d, pasts) && Tracks(d', name, p)
    requires d'.tables == d.tables[name := d'.tables[name]] && d'.shadows == d.shadows[name := d'.shadows[name]]
    requires d'.schemas == d.schemas
    ensures InStep(d', pasts[name := p])
  {
    forall n | n in pasts && n != name
      ensures Tracks(d', n, pasts[n])
    {
      assert Tracks(d, n, pasts[n]);
    }
  }

  lemma FirstStuckOut(names: seq<string>, d: Data, pasts: map<string, Past>, fork: nat)
    requires names != [] && names[0] in pasts && !Tracks(d, names[0], Truncated(pasts[names[0]], fork))
    ensures !InStep(d, TruncatedAt(names, pasts, fork))
  {
    assert names[0] in TruncatedAt(names, pasts, fork);
  }

  function FirstTruncated(names: seq<string>, pasts: map<string, Past>, fork: nat): map<string, Past>
    requires names != [] && names[0] in pasts
  {
    pasts[names[0] := Truncated(pasts[names[0]], fork)]
  }

  /** A rollback of these tables ended well if and only if all their rows can be replayed, and if and only if
      it took them to their truncated histories. */
  ghost predicate EndsRight(names: seq<string>, d: Data, pasts: map<string, Past>, fork: nat, all: Outcome) {
    && (all.ok <==> AllReplay(names, d, fork))
    && (all.ok <==> InStep(all.data, TruncatedAt(names, pasts, fork)))
  }

  /** Rolling the first table back: what is left to be shown of the others, or why the whole fails. */
  lemma FirstTable(names: seq<string>, d: Data, pasts: map<string, Past>, fork: nat, answer: Answer, total: nat)
    requires InStep(d, pasts) && Possible(answer) && names != [] && names[0] in pasts
    ensures var one := RollbackOne(names[0], fork, answer, d);
      if one.ok then
        && InStep(one.data, FirstTruncated(names, pasts, fork))
        && forall all :: EndsRight(names[1..], one.data, FirstTruncated(names, pasts, fork), fork, all) <==>
                         EndsRight(names, d, pasts, fork, all)
      else EndsRight(names, d, pasts, fork, Outcome(false, total, one.data))
  {
    var name := names[0];
    var one := RollbackOne(name, fork, answer, d);
    assert Tracks(d, name, pasts[name]);
    RollbackOneIff(d, name, pasts[name], fork, answer);
    if one.ok {
      OthersInStep(d, one.data, name, pasts, Truncated(pasts[name], fork));
      ReplayFirst(names, d, one.data, fork);
      TruncateFirst(names, pasts, fork);
    } else {
      FirstStuckOut(names, one.data, pasts, fork);
    }
  }

  lemma {:induction false} TablesEndRight(
      names: seq<string>, d: Data, pasts: map<string, Past>, fork: nat, answer: Answer, total: nat)
    requires InStep(d, pasts) && Possible(answer) && forall n <- names :: n in pasts
    ensures EndsRight(names, d, pasts, fork, RollbackTables(names, fork, answer, d, total))
    decreases |names|
  {
    if names == [] {
      assert TruncatedAt(names, pasts, fork) == pasts;
    } else {
      var one := RollbackOne(names[0], fork, answer, d);
      var sum := total + one.replayed;
      FirstTable(names, d, pasts, fork, answer, total);
      FirstRolledBack(names, fork, answer, d, total, sum);
      if one.ok {
        TablesEndRight(names[1..], one.data, FirstTruncated(names, pasts, fork), fork, answer, sum);
      }
    }
  }

  /** A rollback of several tables succeeds if and only if all their rows can be replayed, and if and
      only if it takes each of them, and its shadow log, to its truncated history. */
  lemma RollbackTablesIff(
      names: seq<string>, d: Data, pasts: map<string, Past>, fork: nat, answer: Answer, total: nat)
    requires InStep(d, pasts) && Possible(answer) && forall n <- names :: n in pasts
    ensures var all := RollbackTables(names, fork, answer, d, total);
      && (all.ok <==> AllReplay(names, d, fork))
      && (all.ok <==> InStep(all.data, TruncatedAt(names, pasts, fork)))
  {
    TablesEndRight(names, d, pasts, fork, answer, total);
  }

  // A rollback that fails

  /** A rollback that fails does so at one table: those before it have been rolled back, its own replay has stopped at
      the row that is stuck, and those behind it are as they were. */
  lemma {:induction false} StopsAtFailure(names: seq<string>, fork: nat, answer: Answer, d: Data, total: nat)
    returns (k: nat)
    requires (forall i, j :: 0 <= i < j < |names| ==> names[i] != names[j])
    requires !RollbackTables(names, fork, answer, d, total).ok
    ensures k < |names|
    ensures var left := RollbackTables(names, fork, answer, d, total).data;
      && (forall i :: 0 <= i < k ==> ByItself(names[i], fork, answer, d, left, true))
      && ByItself(names[k], fork, answer, d, left, false)
      && (forall n :: n !in names[..k + 1] ==> SameTable(n, left, d))
    decreases |names|
  {
    var one := RollbackOne(names[0], fork, answer, d);
    FirstRolledBack(names, fork, answer, d, total, total + one.replayed);
    OneTouchesOne(names[0], fork, answer, d);
    if one.ok {
      var m := StopsAtFailure(names[1..], fork, answer, one.data, total + one.replayed);
      k := m + 1;
      FailureFurtherOn(names, fork, answer, d, RollbackTables(names, fork, answer, d, total).data, m);
    } else {
      k := 0;
      assert names[..1] == [names[0]];
    }
  }

  /** The table has come out as from a rollback of it alone, which succeeded or not. */
  ghost predicate ByItself(n: string, fork: nat, answer: Answer, d: Data, left: Data, ok: bool) {
    var one := RollbackOne(n, fork, answer, d);
    one.ok == ok && SameTable(n, left, one.data)
  }

  /** Two databases hold the same table and shadow log under a name. */
  predicate SameTable(n: string, d: Data, e: Data) {
    && (n in d.tables <==> n in e.tables) && (n in d.tables && n in e.tables ==> d.tables[n] == e.tables[n])
    && (n in d.shadows <==> n in e.shadows) && (n in d.shadows && n in e.shadows ==> d.shadows[n] == e.shadows[n])
  }

  lemma SameTwice(n: string, d: Data, e: Data, f: Data)
    requires SameTable(n, d, e) && SameTable(n, e, f)
    ensures SameTable(n, d, f)
  {
  }

  lemma OneTouchesOne(name: string, fork: nat, answer: Answer, d: Data)
    ensures var one := RollbackOne(name, fork, answer, d);
      one.data.schemas == d.schemas && forall n :: n != name ==> SameTable(n, one.data, d)
  {
  }

  /** Rolling a table back depends on that table alone. */
  lemma AloneAllTheSame(n: string, fork: nat, answer: Answer, d: Data, e: Data, left: Data, ok: bool)
    requires SameTable(n, e, d) && d.schemas == e.schemas && ByItself(n, fork, answer, e, left, ok)
    ensures ByItself(n, fork, answer, d, left, ok)
  {
  }

  lemma FailureFurtherOn(names: seq<string>, fork: nat, answer: Answer, d: Data, left: Data, m: nat)
    requires names != [] && m < |names| - 1 && (forall i, j :: 0 <= i < j < |names| ==> names[i] != names[j])
    requires var one := RollbackOne(names[0], fork, answer, d);
      var rest := names[1..];
      && one.ok
      && (forall i :: 0 <= i < m ==> ByItself(rest[i], fork, answer, one.data, left, true))
      && ByItself(rest[m], fork, answer, one.data, left, false)
      && (forall n :: n !in rest[..m + 1] ==> SameTable(n, left, one.data))
    ensures forall i :: 0 <= i < m + 1 ==> ByItself(names[i], fork, answer, d, left, true)
    ensures ByItself(names[m + 1], fork, answer, d, left, false)
    ensures forall n :: n !in names[..m + 2] ==> SameTable(n, left, d)
  {
    var one, rest := RollbackOne(names[0], fork, answer, d), names[1..];
    OneTouchesOne(names[0], fork, answer, d);
    assert names[..m + 2] == [names[0]] + rest[..m + 1];
    assert names[0] !in rest[..m + 1] by {
      assert forall i :: 0 <= i < |rest| ==> rest[i] == names[i + 1];
    }
    forall i | 0 <= i < m + 1
      ensures ByItself(names[i], fork, answer, d, left, true)
    {
      if i > 0 {
        assert names[i] == rest[i - 1] && SameTable(rest[i - 1], one.data, d);
        AloneAllTheSame(names[i], fork, answer, d, one.data, left, true);
      }
    }
    assert names[m + 1] == rest[m] && SameTable(rest[m], one.data, d);
    AloneAllTheSame(names[m + 1], fork, answer, d, one.data, left, false);
    forall n | n !in names[..m + 2]
      ensures SameTable(n, left, d)
    {
      assert n !in rest[..m + 1] && n != names[0];
      SameTwice(n, left, one.data, d);
    }
  }

  // The number of rows replayed

  /** The shadow rows at or after the fork, over the listed tables. */
  function RowsFrom(names: seq<string>, shadows: map<string, seq<ShadowRow>>, fork: nat): nat
    decreases |names|
  {
    if names == [] then 0
    else (if names[0] in shadows then |Above(shadows[names[0]], fork)| else 0) + RowsFrom(names[1..], shadows, fork)
  }

  lemma {:induction false} RowsElsewhere(names: seq<string>, shadows: map<string, seq<ShadowRow>>, fork: nat, n: string,
                                         log: seq<ShadowRow>)
    requires n !in names
    ensures RowsFrom(names, shadows[n := log], fork) == RowsFrom(names, shadows, fork)
    decreases |names|
  {
    if names != [] {
      assert names[0] in names;
      RowsElsewhere(names[1..], shadows, fork, n, log);
    }
  }

  /** A rollback that succeeds reports the number of shadow rows that its tables had at or after the fork. */
  lemma {:induction false} ReplayedCount(names: seq<string>, fork: nat, answer: Answer, d: Data, total: nat)
    requires Possible(answer) && forall i, j :: 0 <= i < j < |names| ==> names[i] != names[j]
    ensures var all := RollbackTables(names, fork, answer, d, total);
      all.ok ==> all.replayed == total + RowsFrom(names, d.shadows, fork)
    decreases |names|
  {
    if names != [] {
      var n := names[0];
      var one := RollbackOne(n, fork, answer, d);
      var sum := total + one.replayed;
      FirstRolledBack(names, fork, answer, d, total, sum);
      if one.ok {
        assert Selection(answer(d.shadows[n], fork), d.shadows[n], fork);
        SameElements(answer(d.shadows[n], fork), Above(d.shadows[n], fork));
        ReplayedCount(names[1..], fork, answer, one.data, sum);
        assert n !in names[1..] by {
          assert forall i :: 0 <= i < |names[1..]| ==> names[1..][i] == names[i + 1];
        }
        RowsElsewhere(names[1..], d.shadows, fork, n, Below(d.shadows[n], fork));
      }
    }
  }

  lemma {:induction false} FlushNothing(names: seq<string>, s: Store, columns: map<string, set<string>>)
    requires forall n :: n in s.buffers ==> s.buffers[n] == []
    ensures FlushNames(names, map[], s, columns) == (true, s)
    decreases |names|
  {
    if names != [] {
      var (ok, s') := FlushOne(names[0], NoFault, s, columns);
      if names[0] in s.buffers {
        assert s.buffers[names[0] := []] == s.buffers;
        if names[0] in columns && names[0] in s.tables {
          var t := s.tables[names[0]];
          assert WritesOf([], columns[names[0]]) == [];
          assert Flushed([], t) == t;
          assert s.tables[names[0] := t] == s.tables;
        }
      }
      assert (ok, s') == (true, s);
      FlushNothing(names[1..], s, columns);
    }
  }

  /** End to end, on any ascending, hash-linked state and with nothing pending. A block that makes the
      detector report a reorg and the handling of that reorg leave a fork at or below the new tip and a
      chain state that is the part of the old one below the fork; it holds every canonical block, and only
      these if and only if the blocks below its gaps are canonical. The rollback succeeds if and only if
      every row at or after the fork can be replayed, and then every table and shadow log is as the blocks
      below the fork alone would have built it. */
  lemma ReorgRestores(
      s: seq<Entry>, node: Node, parentOf: Hash32 -> Hash32, id: nat, b: Block,
      names: seq<string>, st: Store, before: Data, columns: map<string, set<string>>,
      pending: seq<string>, pasts: map<string, Past>, answer: Answer)
    requires Ascending(s) && Linked(s, parentOf) && Canonical(node, parentOf, b.number)
    requires Decide(s, Some(node), id, b).0.Ok? && Decide(s, Some(node), id, b).0.value.Reorg?
    requires before.tables == st.tables && forall n :: n in st.buffers ==> st.buffers[n] == []
    requires InStep(before, pasts) && Possible(answer)
    requires forall n <- names :: n in pasts
    ensures var (r, left) := Decide(s, Some(node), id, b);
      var fork := r.value.forkBlock;
      var (flushed, st') := FlushNames(pending, map[], st, columns);
      var all := RollbackTables(names, fork, answer, before.(tables := st'.tables), 0);
      && fork <= r.value.newTip
      && (forall e <- s :: e in left <==> e.number < fork)
      && (forall e <- s :: e.number < b.number && Agrees(e, node) ==> e in left)
      && ((forall e <- left :: Agrees(e, node)) <==> (forall e <- left :: BelowGap(s, e, fork) ==> Agrees(e, node)))
      && flushed
      && (all.ok <==> AllReplay(names, before, fork))
      && (all.ok ==> forall n <- names :: Rebuilt(all.data, n, pasts[n], fork))
  {
    var fork := Decide(s, Some(node), id, b).0.value.forkBlock;
    ReorgLeavesCanonical(s, node, parentOf, id, b);
    FlushNothing(pending, st, columns);
    assert before.(tables := st.tables) == before;
    RollbackTablesIff(names, before, pasts, fork, answer, 0);
    var all := RollbackTables(names, fork, answer, before, 0);
    if all.ok {
      forall n | n in names
        ensures Rebuilt(all.data, n, pasts[n], fork)
      {
        assert n in TruncatedAt(names, pasts, fork);
        assert Tracks(all.data, n, Truncated(pasts[n], fork));
      }
    }
  }

  /** A table and its shadow log are what the blocks below the fork build. */
  predicate Rebuilt(d: Data, n: string, p: Past, fork: nat) {
    && n in d.tables && d.tables[n] == After(UpTo(p.blocks, fork), p.start)
    && n in d.shadows && d.shadows[n] == Log(UpTo(p.blocks, fork), p.start, p.schema.columns)
  }
}
