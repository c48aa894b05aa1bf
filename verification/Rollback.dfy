/** Rolling a table back over its shadow log: exactly when every rollback restores the earlier
    table, how rollbacks compose, and what pruning the log may not change. */
module Rollback {
  import opened Tables
  import opened ReorgLog
  import opened BlockUndo
  import opened Sequences
  import Sorting

  // What one block records

  /** The rows of one block, and the table it leaves. */
  lemma {:induction false} BlockKept(ws: seq<Write>, t: Table, b: nat, s: Schema)
    requires Recordable(ws, t, s) && Filled(t, s)
    ensures Filled(ApplyAll(ws, t), s)
    ensures forall r <- Records(ws, t, b, s.columns) :: r.block == b && r.cells.Keys == s.columns
  {
    if ws != [] {
      BlockKept(ws[1..], Apply(ws[0], t), b, s);
    }
  }

  lemma FilledTyped(t: Table, s: Schema)
    requires Filled(t, s)
    ensures Typed(t, s.columns)
  {
    forall k | k in t
      ensures t[k].Keys == s.columns
    {
      assert Full(t[k], s);
    }
  }

  predicate Has(recs: seq<ShadowRow>, k: Value, op: Operation) {
    exists r <- recs :: r.key == k && r.op == op
  }

  /** What the rows for a key tell about it. */
  lemma {:induction false} BlockShape(ws: seq<Write>, t: Table, b: nat, columns: set<string>, k: Value)
    ensures var recs, u := Records(ws, t, b, columns), ApplyAll(ws, t);
      && (k !in t && k in u ==> Has(recs, k, DeleteOp))
      && (k in t && k !in u ==> Has(recs, k, InsertOp))
      && (k in t && k in u && !Has(recs, k, DeleteOp) ==> !Has(recs, k, InsertOp))
      && (k in t && k in u && !Has(recs, k, DeleteOp) && !Has(recs, k, UpdateOp) ==> u[k] == t[k])
  {
    if ws != [] {
      var recs, t', rest := Records(ws, t, b, columns), Apply(ws[0], t), Records(ws[1..], Apply(ws[0], t), b, columns);
      BlockShape(ws[1..], t', b, columns, k);
      assert recs == [Record(ws[0], t, b, columns)] + rest;
      HasFirst(recs, k, DeleteOp);
      HasFirst(recs, k, InsertOp);
      HasFirst(recs, k, UpdateOp);
    }
  }

  lemma HasFirst(recs: seq<ShadowRow>, k: Value, op: Operation)
    requires recs != []
    ensures Has(recs, k, op) <==> (recs[0].key == k && recs[0].op == op) || Has(recs[1..], k, op)
  {
    assert recs == [recs[0]] + recs[1..];
  }

  /** Rows recorded for updates that find no row restore no required column, since there is none. */
  lemma {:induction false} AbsentUpdates(ws: seq<Write>, t: Table, b: nat, s: Schema, k: Value)
    requires Recordable(ws, t, s) && Filled(t, s) && k !in t && k !in ApplyAll(ws, t)
    requires !Has(Records(ws, t, b, s.columns), k, InsertOp)
    ensures forall r <- Records(ws, t, b, s.columns) :: r.key == k && r.op == UpdateOp ==> !Holed(r, s.required)
  {
    if ws != [] {
      var recs, t', rest :=
        Records(ws, t, b, s.columns), Apply(ws[0], t), Records(ws[1..], Apply(ws[0], t), b, s.columns);
      assert recs == [Record(ws[0], t, b, s.columns)] + rest;
      HasFirst(recs, k, InsertOp);
      if k in t' {
        BlockShape(ws[1..], t', b, s.columns, k);
        assert false;
      }
      BlockKept([ws[0]], t, b, s);
      AbsentUpdates(ws[1..], t', b, s, k);
    }
  }

  predicate NamesItself(recs: seq<ShadowRow>) {
    forall r <- recs :: Named(r) == r.key
  }

  /** A pre-image that reads back as a full row has no hole. */
  lemma FullNotHoled(r: ShadowRow, c: Cells, s: Schema)
    requires Full(c, s) && AsText(r.cells) == c
    ensures !Holed(r, s.required)
  {
    assert AsText(r.cells).Keys == r.cells.Keys;
  }

  lemma TieSafeSettles(ws: seq<Write>, t: Table, b: nat, s: Schema)
    requires Recordable(ws, t, s) && Filled(t, s)
    requires var recs := Records(ws, t, b, s.columns); NamesItself(recs) && TieSafe(recs, t, s.required)
    ensures Settled(Records(ws, t, b, s.columns), t, ApplyAll(ws, t), s.required)
  {
    var recs, u := Records(ws, t, b, s.columns), ApplyAll(ws, t);
    forall k
      ensures KeySettled(recs, t, u, k)
    {
      BlockShape(ws, t, b, s.columns, k);
    }
    forall r | r in recs && Holed(r, s.required)
      ensures r.op == DeleteOp
    {
      if r.key in t {
        FullNotHoled(r, t[r.key], s);
      }
    }
  }

  lemma SettledIsTieSafe(ws: seq<Write>, t: Table, b: nat, s: Schema)
    requires Recordable(ws, t, s) && Filled(t, s)
    requires var recs := Records(ws, t, b, s.columns);
      NamesItself(recs) && Settled(recs, t, ApplyAll(ws, t), s.required)
    ensures TieSafe(Records(ws, t, b, s.columns), t, s.required)
  {
    var recs, u := Records(ws, t, b, s.columns), ApplyAll(ws, t);
    forall r | r in recs
      ensures SafeRow(r, t, s.required)
    {
      var k := r.key;
      assert Named(r) == k && KeySettled(recs, t, u, k);
      BlockShape(ws, t, b, s.columns, k);
      if k !in t && k !in u {
        AbsentUpdates(ws, t, b, s, k);
      }
    }
  }

  /** For keys that name themselves, a block's rows are settled if and only if they are tie-safe. */
  lemma SettledIff(ws: seq<Write>, t: Table, b: nat, s: Schema)
    requires Recordable(ws, t, s) && Filled(t, s) && NamesItself(Records(ws, t, b, s.columns))
    ensures var recs := Records(ws, t, b, s.columns);
      Settled(recs, t, ApplyAll(ws, t), s.required) <==> TieSafe(recs, t, s.required)
  {
    if Settled(Records(ws, t, b, s.columns), t, ApplyAll(ws, t), s.required) {
      SettledIsTieSafe(ws, t, b, s);
    } else if TieSafe(Records(ws, t, b, s.columns), t, s.required) {
      TieSafeSettles(ws, t, b, s);
    }
  }

  // Whole histories

  /** The rows recorded for the last block. */
  function LastRecords(h: History, t: Table, s: Schema): seq<ShadowRow>
    requires h != []
  {
    Records(h[|h| - 1].writes, After(h[..|h| - 1], t), h[|h| - 1].number, s.columns)
  }

  lemma {:induction false} HistoryTyped(h: History, t: Table, s: Schema)
    requires WellFormed(h, t, s)
    ensures Filled(After(h, t), s) && Typed(After(h, t), s.columns)
    ensures h == [] ==> Log(h, t, s.columns) == []
    ensures h != [] ==> forall r <- Log(h, t, s.columns) :: r.block <= h[|h| - 1].number
  {
    if h != [] {
      var front, last := h[..|h| - 1], h[|h| - 1];
      HistoryTyped(front, t, s);
      BlockKept(last.writes, After(front, t), last.number, s);
    }
    FilledTyped(After(h, t), s);
  }

  /** The last block's rows and the tables before and after them. */
  lemma LastBlock(h: History, t: Table, s: Schema)
    requires h != [] && WellFormed(h, t, s)
    ensures Typed(After(h[..|h| - 1], t), s.columns) && Typed(After(h, t), s.columns) && s.required <= s.columns
    ensures forall r <- LastRecords(h, t, s) :: r.block == h[|h| - 1].number && r.cells.Keys == s.columns
  {
    HistoryTyped(h, t, s);
    HistoryTyped(h[..|h| - 1], t, s);
    BlockKept(h[|h| - 1].writes, After(h[..|h| - 1], t), h[|h| - 1].number, s);
  }

  /** The rows to undo in a longer history: the last block's, then the shorter history's. */
  lemma LastBlockAbove(h: History, t: Table, s: Schema, b: nat)
    requires h != [] && WellFormed(h, t, s) && h[|h| - 1].number >= b
    ensures var front, last := h[..|h| - 1], h[|h| - 1];
      && Above(Log(h, t, s.columns), b) == Above(Log(front, t, s.columns), b) + LastRecords(h, t, s)
      && (forall r <- Above(Log(front, t, s.columns), b) :: r.block < last.number)
  {
    var front := h[..|h| - 1];
    LastBlock(h, t, s);
    HistoryTyped(front, t, s);
    var recs := LastRecords(h, t, s);
    FilterConcat(Log(front, t, s.columns), recs, AtOrAfter(b));
    FilterMembers(recs, AtOrAfter(b));
    FilterMembers(Log(front, t, s.columns), AtOrAfter(b));
    assert Log(h, t, s.columns) == Log(front, t, s.columns) + recs;
  }

  lemma AboveNothing(h: History, t: Table, s: Schema, b: nat)
    requires WellFormed(h, t, s) && (h == [] || h[|h| - 1].number < b)
    ensures Above(Log(h, t, s.columns), b) == []
  {
    HistoryTyped(h, t, s);
    FilterMembers(Log(h, t, s.columns), AtOrAfter(b));
  }

  /** A selection over a longer history starts with the last block's rows in some order. */
  lemma SelectionSplits(h: History, t: Table, s: Schema, b: nat, rows: seq<ShadowRow>)
    returns (newest: seq<ShadowRow>, rest: seq<ShadowRow>)
    requires h != [] && WellFormed(h, t, s) && h[|h| - 1].number >= b
    requires Selection(rows, Log(h, t, s.columns), b)
    ensures rows == newest + rest && multiset(newest) == multiset(LastRecords(h, t, s))
    ensures Selection(rest, Log(h[..|h| - 1], t, s.columns), b)
  {
    LastBlockAbove(h, t, s, b);
    LastBlock(h, t, s);
    newest, rest := DescendingHalves(rows, Above(Log(h[..|h| - 1], t, s.columns), b), LastRecords(h, t, s),
                                     h[|h| - 1].number);
  }

  lemma LastSettled(h: History, t: Table, s: Schema)
    requires h != [] && Undoable(h, t, s)
    ensures Undoable(h[..|h| - 1], t, s)
    ensures Settled(LastRecords(h, t, s), After(h[..|h| - 1], t), After(h, t), s.required)
  {
  }

  /** Undoing the last block's rows first, in any order, takes the table back before that block. */
  lemma UndoLastBlock(h: History, t: Table, s: Schema, newest: seq<ShadowRow>, rest: seq<ShadowRow>)
    requires h != [] && WellFormed(h, t, s) && Undoable(h, t, s)
    requires multiset(newest) == multiset(LastRecords(h, t, s))
    ensures UndoAll(newest + rest, After(h, t)) == UndoAll(rest, After(h[..|h| - 1], t))
    ensures FirstStuck(newest + rest, After(h, t), s.required) == |newest + rest| <==>
            (forall r <- newest :: Pasteable(r)) &&
            FirstStuck(rest, After(h[..|h| - 1], t), s.required) == |rest|
  {
    LastBlock(h, t, s);
    LastSettled(h, t, s);
    BlockUndoExact(LastRecords(h, t, s), After(h[..|h| - 1], t), After(h, t), s, newest);
    SameElements(newest, LastRecords(h, t, s));
    UndoAllConcat(newest, rest, After(h, t));
    StuckConcat(newest, rest, After(h, t), s.required);
  }

  /** Exact undo: whichever order the database returns ties in, rolling back from block b restores the table
      built by the blocks below b, if all rows are replayed. */
  lemma {:induction false} RollbackExact(h: History, t: Table, s: Schema, b: nat, rows: seq<ShadowRow>)
    requires WellFormed(h, t, s) && Undoable(h, t, s)
    requires Selection(rows, Log(h, t, s.columns), b)
    ensures UndoAll(rows, After(h, t)) == After(UpTo(h, b), t)
  {
    if h == [] || h[|h| - 1].number < b {
      NothingToUndo(h, t, s, b, rows);
    } else {
      var front := h[..|h| - 1];
      var newest, rest := SelectionSplits(h, t, s, b, rows);
      UndoLastBlock(h, t, s, newest, rest);
      RollbackExact(front, t, s, b, rest);
      assert UpTo(h, b) == UpTo(front, b);
    }
  }

  /** And all rows are replayed if and only if all keys can be pasted. */
  lemma {:induction false} ReplayedIff(h: History, t: Table, s: Schema, b: nat, rows: seq<ShadowRow>)
    requires WellFormed(h, t, s) && Undoable(h, t, s)
    requires Selection(rows, Log(h, t, s.columns), b)
    ensures FirstStuck(rows, After(h, t), s.required) == |rows| <==> forall r <- rows :: Pasteable(r)
  {
    if h == [] || h[|h| - 1].number < b {
      NothingToUndo(h, t, s, b, rows);
    } else {
      var newest, rest := SelectionSplits(h, t, s, b, rows);
      UndoLastBlock(h, t, s, newest, rest);
      ReplayedIff(h[..|h| - 1], t, s, b, rest);
      BothPaste(newest, rest);
    }
  }

  lemma BothPaste(a: seq<ShadowRow>, b: seq<ShadowRow>)
    ensures (forall r <- a + b :: Pasteable(r)) <==> (forall r <- a :: Pasteable(r)) && (forall r <- b :: Pasteable(r))
  {
    assert forall r :: r in a + b <==> r in a || r in b;
  }

  lemma NothingToUndo(h: History, t: Table, s: Schema, b: nat, rows: seq<ShadowRow>)
    requires WellFormed(h, t, s) && (h == [] || h[|h| - 1].number < b)
    requires Selection(rows, Log(h, t, s.columns), b)
    ensures rows == []
  {
    AboveNothing(h, t, s, b);
    SameElements(rows, []);
  }

  lemma DescendingConcat(newer: seq<ShadowRow>, older: seq<ShadowRow>, n: nat)
    requires Descending(older) && (forall r <- older :: r.block < n)
    requires forall r <- newer :: r.block == n
    ensures Descending(newer + older)
  {
    forall i, j | 0 <= i < j < |newer + older|
      ensures (newer + older)[i].block >= (newer + older)[j].block
    {
      assert i < |newer| ==> newer[i] in newer;
      assert j < |newer| ==> newer[j] in newer;
      assert j >= |newer| ==> older[j - |newer|] in older;
    }
  }

  /** Prepending a newer block's rows to a selection gives a selection of the longer history. */
  lemma SelectionExtends(h: History, t: Table, s: Schema, b: nat, newest: seq<ShadowRow>, rows: seq<ShadowRow>)
    requires h != [] && WellFormed(h, t, s) && h[|h| - 1].number >= b
    requires multiset(newest) == multiset(LastRecords(h, t, s))
    requires Selection(rows, Log(h[..|h| - 1], t, s.columns), b)
    ensures Selection(newest + rows, Log(h, t, s.columns), b)
  {
    var recs, rest := LastRecords(h, t, s), Above(Log(h[..|h| - 1], t, s.columns), b);
    LastBlockAbove(h, t, s, b);
    LastBlock(h, t, s);
    SameElements(newest, recs);
    SameElements(rows, rest);
    DescendingConcat(newest, rows, h[|h| - 1].number);
    assert multiset(rest + recs) == multiset(rest) + multiset(recs);
    assert multiset(newest + rows) == multiset(newest) + multiset(rows);
  }

  /** A history whose last block has a bad order fails when only that block is rolled back. */
  lemma LastFails(h: History, t: Table, s: Schema) returns (rows: seq<ShadowRow>)
    requires h != [] && WellFormed(h, t, s)
    requires !Settled(LastRecords(h, t, s), After(h[..|h| - 1], t), After(h, t), s.required) ||
             exists r <- LastRecords(h, t, s) :: !Pasteable(r)
    ensures var b := h[|h| - 1].number;
      && Selection(rows, Log(h, t, s.columns), b)
      && !Undoes(rows, After(h, t), After(UpTo(h, b), t), s.required)
  {
    var front, b := h[..|h| - 1], h[|h| - 1].number;
    LastBlock(h, t, s);
    rows := BlockUndoFails(LastRecords(h, t, s), After(front, t), After(h, t), s);
    AboveNothing(front, t, s, b);
    SelectionExtends(h, t, s, b, rows, []);
    assert rows + [] == rows;
    assert UpTo(h, b) == front;
  }

  /** Settled newer blocks do not help. */
  lemma FrontFails(h: History, t: Table, s: Schema, b: nat, rest: seq<ShadowRow>)
    requires h != [] && WellFormed(h, t, s) && h[|h| - 1].number >= b
    requires Settled(LastRecords(h, t, s), After(h[..|h| - 1], t), After(h, t), s.required)
    requires forall r <- LastRecords(h, t, s) :: Pasteable(r)
    requires Selection(rest, Log(h[..|h| - 1], t, s.columns), b)
    requires !Undoes(rest, After(h[..|h| - 1], t), After(UpTo(h[..|h| - 1], b), t), s.required)
    ensures Selection(LastRecords(h, t, s) + rest, Log(h, t, s.columns), b)
    ensures !Undoes(LastRecords(h, t, s) + rest, After(h, t), After(UpTo(h, b), t), s.required)
  {
    var recs, front := LastRecords(h, t, s), h[..|h| - 1];
    LastBlock(h, t, s);
    SelectionExtends(h, t, s, b, recs, rest);
    BlockUndoExact(recs, After(front, t), After(h, t), s, recs);
    UndoAllConcat(recs, rest, After(h, t));
    StuckConcat(recs, rest, After(h, t), s.required);
    assert UpTo(h, b) == UpTo(front, b);
  }

  lemma {:induction false} RollbackFails(h: History, t: Table, s: Schema)
    returns (b: nat, rows: seq<ShadowRow>)
    requires WellFormed(h, t, s) && (!Undoable(h, t, s) || exists r <- Log(h, t, s.columns) :: !Pasteable(r))
    ensures Selection(rows, Log(h, t, s.columns), b)
    ensures !Undoes(rows, After(h, t), After(UpTo(h, b), t), s.required)
    ensures h != [] && b <= h[|h| - 1].number
  {
    var front, recs := h[..|h| - 1], LastRecords(h, t, s);
    assert Log(h, t, s.columns) == Log(front, t, s.columns) + recs;
    if !Settled(recs, After(front, t), After(h, t), s.required) || exists r <- recs :: !Pasteable(r) {
      b := h[|h| - 1].number;
      rows := LastFails(h, t, s);
    } else {
      var rest;
      b, rest := RollbackFails(front, t, s);
      rows := recs + rest;
      FrontFails(h, t, s, b, rest);
    }
  }

  /** Rolling back from any block, in any order of ties, is replayed to the end and gives the table of the
      blocks below it. */
  ghost predicate RollsBackExactly(h: History, t: Table, s: Schema) {
    forall b: nat, rows :: Selection(rows, Log(h, t, s.columns), b) ==>
      Undoes(rows, After(h, t), After(UpTo(h, b), t), s.required)
  }

  /** Every rollback of a history is exact if and only if each block's recorded rows are settled and every
      recorded key can be pasted. */
  lemma RollbackExactIff(h: History, t: Table, s: Schema)
    requires WellFormed(h, t, s)
    ensures RollsBackExactly(h, t, s) <==>
            Undoable(h, t, s) && forall r <- Log(h, t, s.columns) :: Pasteable(r)
  {
    if Undoable(h, t, s) && forall r <- Log(h, t, s.columns) :: Pasteable(r) {
      forall b: nat, rows | Selection(rows, Log(h, t, s.columns), b)
        ensures Undoes(rows, After(h, t), After(UpTo(h, b), t), s.required)
      {
        RollbackExact(h, t, s, b, rows);
        ReplayedIff(h, t, s, b, rows);
        FilterMembers(Log(h, t, s.columns), AtOrAfter(b));
        SameElements(rows, Above(Log(h, t, s.columns), b));
      }
    } else {
      var b, rows := RollbackFails(h, t, s);
      assert Selection(rows, Log(h, t, s.columns), b);
    }
  }

  // Keys without apostrophes

  /** A key that every undo statement names as it is. */
  predicate PlainKey(k: Value) {
    k.Text? && '\'' !in k.text
  }

  /** Pasting keeps exactly the texts without apostrophes, and shortens the others. */
  lemma {:induction false} PastedIff(text: string)
    ensures Pasted(text) == Some(text) <==> '\'' !in text
    ensures Pasted(text).Some? ==> |Pasted(text).value| <= |text| && ('\'' in text ==> |Pasted(text).value| < |text|)
  {
    if text != "" {
      assert text == [text[0]] + text[1..];
      PastedIff(text[1..]);
      if |text| >= 2 && text[0] == '\'' {
        PastedIff(text[2..]);
      }
    }
  }

  predicate PlainLog(log: seq<ShadowRow>) {
    forall r <- log :: PlainKey(r.key)
  }

  lemma PlainNames(log: seq<ShadowRow>)
    requires PlainLog(log)
    ensures NamesItself(log) && forall r <- log :: Pasteable(r)
  {
    forall r | r in log
      ensures Named(r) == r.key && Pasteable(r)
    {
      PastedIff(r.key.text);
    }
  }

  /** Each block's rows are tie-safe. */
  predicate AllTieSafe(h: History, t: Table, s: Schema) {
    h == [] ||
    (AllTieSafe(h[..|h| - 1], t, s) && TieSafe(LastRecords(h, t, s), After(h[..|h| - 1], t), s.required))
  }

  lemma {:induction false} UndoableIff(h: History, t: Table, s: Schema)
    requires WellFormed(h, t, s) && PlainLog(Log(h, t, s.columns))
    ensures Undoable(h, t, s) <==> AllTieSafe(h, t, s)
  {
    if h != [] {
      var front, last := h[..|h| - 1], h[|h| - 1];
      assert Log(h, t, s.columns) == Log(front, t, s.columns) + LastRecords(h, t, s);
      UndoableIff(front, t, s);
      HistoryTyped(front, t, s);
      PlainNames(LastRecords(h, t, s));
      SettledIff(last.writes, After(front, t), last.number, s);
    }
  }

  /** With keys without apostrophes every rollback of a history is exact if and only if each block's recorded
      rows are tie-safe. */
  lemma PlainRollbackExactIff(h: History, t: Table, s: Schema)
    requires WellFormed(h, t, s) && PlainLog(Log(h, t, s.columns))
    ensures RollsBackExactly(h, t, s) <==> AllTieSafe(h, t, s)
  {
    RollbackExactIff(h, t, s);
    UndoableIff(h, t, s);
    PlainNames(Log(h, t, s.columns));
  }

  // Composition and pruning, for every log

  lemma AboveAbove(log: seq<ShadowRow>, b: nat, f: nat)
    ensures Above(Above(log, b), f) == Above(log, if b <= f then f else b)
    ensures forall r :: r in Above(log, b) <==> r in log && r.block >= b
  {
    FilterAgain(log, AtOrAfter(b), AtOrAfter(f), AtOrAfter(if b <= f then f else b));
    FilterMembers(log, AtOrAfter(b));
  }

  lemma BelowBelow(log: seq<ShadowRow>, b1: nat, b2: nat)
    requires b1 <= b2
    ensures Below(Below(log, b2), b1) == Below(log, b1)
  {
    FilterAgain(log, Before(b2), Before(b1), Before(b1));
  }

  lemma AboveBelow(log: seq<ShadowRow>, b1: nat, b2: nat)
    requires b1 <= b2
    ensures multiset(Above(log, b1)) == multiset(Above(Below(log, b2), b1)) + multiset(Above(log, b2))
    ensures forall r <- Above(log, b2) :: r.block >= b2
    ensures forall r <- Above(Below(log, b2), b1) :: b1 <= r.block < b2
  {
    var between := (r: ShadowRow) => b1 <= r.block < b2;
    FilterAgain(log, Before(b2), AtOrAfter(b1), between);
    FilterDivides(log, between, AtOrAfter(b2), AtOrAfter(b1));
    AboveAbove(log, b2, b2);
    FilterMembers(log, between);
  }

  /** Rolling back from b2 and then from b1 <= b2 undoes a selection for b1 of the whole log and
      leaves the log a single rollback from b1 leaves. */
  lemma RollbacksCompose(log: seq<ShadowRow>, t: Table, b1: nat, b2: nat, newer: seq<ShadowRow>, older: seq<ShadowRow>)
    requires b1 <= b2
    requires Selection(newer, log, b2) && Selection(older, Below(log, b2), b1)
    ensures Selection(newer + older, log, b1)
    ensures UndoAll(older, UndoAll(newer, t)) == UndoAll(newer + older, t)
    ensures Below(Below(log, b2), b1) == Below(log, b1)
  {
    AboveBelow(log, b1, b2);
    BelowBelow(log, b1, b2);
    UndoAllConcat(newer, older, t);
    SameElements(newer, Above(log, b2));
    SameElements(older, Above(Below(log, b2), b1));
    forall i, j | 0 <= i < j < |newer + older|
      ensures (newer + older)[i].block >= (newer + older)[j].block
    {
      assert i < |newer| ==> newer[i] in newer;
      assert j >= |newer| ==> older[j - |newer|] in older;
    }
  }

  /** A descending arrangement splits at any block number. */
  lemma DescendingSplits(rows: seq<ShadowRow>, older: seq<ShadowRow>, newer: seq<ShadowRow>, b: nat)
    requires multiset(rows) == multiset(older) + multiset(newer) && Descending(rows)
    requires forall r <- newer :: r.block >= b
    requires forall r <- older :: r.block < b
    ensures |newer| <= |rows|
    ensures multiset(rows[..|newer|]) == multiset(newer) && Descending(rows[..|newer|])
    ensures multiset(rows[|newer|..]) == multiset(older) && Descending(rows[|newer|..])
  {
    assert multiset(older + newer) == multiset(older) + multiset(newer);
    FrontHoldsChosen(rows, older, newer, AtOrAfter(b));
  }

  lemma DescendingHalves(rows: seq<ShadowRow>, older: seq<ShadowRow>, newer: seq<ShadowRow>, b: nat)
    returns (front: seq<ShadowRow>, back: seq<ShadowRow>)
    requires multiset(rows) == multiset(older) + multiset(newer) && Descending(rows)
    requires forall r <- newer :: r.block >= b
    requires forall r <- older :: r.block < b
    ensures rows == front + back
    ensures multiset(front) == multiset(newer) && Descending(front)
    ensures multiset(back) == multiset(older) && Descending(back)
  {
    DescendingSplits(rows, older, newer, b);
    front, back := rows[..|newer|], rows[|newer|..];
  }

  /** Conversely a rollback from b1 is always a rollback from b2 followed by one from b1. */
  lemma {:induction false} RollbackFactors(log: seq<ShadowRow>, b1: nat, b2: nat, rows: seq<ShadowRow>)
    returns (newer: seq<ShadowRow>, older: seq<ShadowRow>)
    requires b1 <= b2 && Selection(rows, log, b1)
    ensures rows == newer + older
    ensures Selection(newer, log, b2) && Selection(older, Below(log, b2), b1)
  {
    AboveBelow(log, b1, b2);
    newer, older := DescendingHalves(rows, Above(Below(log, b2), b1), Above(log, b2), b2);
  }

  /** A repeated rollback finds nothing to undo. */
  lemma RollbackRepeats(log: seq<ShadowRow>, b: nat, rows: seq<ShadowRow>)
    requires Selection(rows, Below(log, b), b)
    ensures rows == []
  {
    FilterMembers(log, Before(b));
    FilterMembers(Below(log, b), AtOrAfter(b));
    SameElements(rows, []);
  }

  /** Clearing the log before block f leaves the possible rollbacks from b unchanged if and only if
      the log has no row in [b, f); so it is harmless for every b >= f. */
  lemma ClearHarmlessIff(log: seq<ShadowRow>, f: nat, b: nat)
    ensures (forall rows :: Selection(rows, Above(log, f), b) <==> Selection(rows, log, b)) <==>
            (forall r <- log :: r.block >= b ==> r.block >= f)
  {
    AboveAbove(log, f, b);
    AboveAbove(log, b, f);
    AboveAbove(log, b, b);
    if forall r <- log :: r.block >= b ==> r.block >= f {
      FilterMembers(Above(log, b), AtOrAfter(f));
    } else {
      var rows := SomeSelection(log, b);
      SameElements(rows, Above(log, b));
      if Selection(rows, Above(log, f), b) {
        SameElements(rows, Above(log, f));
      }
    }
  }

  /** Every log has at least one possible answer. */
  lemma SomeSelection(log: seq<ShadowRow>, b: nat) returns (rows: seq<ShadowRow>)
    ensures Selection(rows, log, b)
  {
    var newestFirst := (x: ShadowRow, y: ShadowRow) => x.block >= y.block;
    rows := Sorting.Sort(Above(log, b), newestFirst);
    Sorting.SortKeeps(Above(log, b), newestFirst);
    Sorting.SortSorts(Above(log, b), newestFirst);
  }

  // Text columns and one write per key and block

  predicate OncePerBlock(h: History) {
    forall b <- h :: DistinctKeys(b.writes)
  }

  predicate DistinctKeys(ws: seq<Write>) {
    forall i, j :: 0 <= i < j < |ws| ==> ws[i].key != ws[j].key
  }

  predicate TextTable(t: Table) {
    forall k :: k in t ==> TextOnly(t[k])
  }

  predicate TextWrites(ws: seq<Write>) {
    forall w <- ws :: w.Delete? || TextOnly(w.cells)
  }

  /** Inserts are of keys that are not there, deletes of keys that are. */
  predicate Hits(ws: seq<Write>, t: Table) {
    forall w <- ws :: (w.Insert? ==> w.key !in t) && (w.Delete? ==> w.key in t)
  }

  predicate AllHit(h: History, t: Table) {
    h == [] || (AllHit(h[..|h| - 1], t) && Hits(h[|h| - 1].writes, After(h[..|h| - 1], t)))
  }

  lemma {:induction false} TextStays(ws: seq<Write>, t: Table)
    requires TextTable(t) && TextWrites(ws)
    ensures TextTable(ApplyAll(ws, t))
  {
    if ws != [] {
      assert ws[0] in ws;
      TextStays(ws[1..], Apply(ws[0], t));
    }
  }

  lemma AsTextSame(c: Cells)
    requires TextOnly(c)
    ensures AsText(c) == c
  {
  }

  /** The row of a write that finds its key as it was before the block. */
  lemma OneIsSafe(w: Write, u: Table, t: Table, b: nat, s: Schema)
    requires Recordable([w], u, s) && TextTable(t) && Slot(u, w.key) == Slot(t, w.key)
    ensures SafeRow(Record(w, u, b, s.columns), t, s.required) <==> Hits([w], t)
  {
    if w.key in t {
      AsTextSame(t[w.key]);
    }
    assert Hits([w], t) <==> (w.Insert? ==> w.key !in t) && (w.Delete? ==> w.key in t);
  }

  /** The writes still to come find their keys as they were before the block. */
  lemma {:induction false} OnceTieSafeIff(ws: seq<Write>, u: Table, t: Table, b: nat, s: Schema)
    requires Recordable(ws, u, s) && DistinctKeys(ws) && TextTable(t)
    requires forall w <- ws :: Slot(u, w.key) == Slot(t, w.key)
    ensures TieSafe(Records(ws, u, b, s.columns), t, s.required) <==> Hits(ws, t)
  {
    if ws != [] {
      var w, rest := ws[0], ws[1..];
      var u' := Apply(w, u);
      assert w in ws;
      OneIsSafe(w, u, t, b, s);
      forall i | 0 <= i < |rest|
        ensures Slot(u', rest[i].key) == Slot(t, rest[i].key)
      {
        assert rest[i] == ws[i + 1] && ws[i + 1].key != ws[0].key;
        assert ws[i + 1] in ws;
      }
      OnceTieSafeIff(rest, u', t, b, s);
      FirstOfBoth(ws, Records(ws, u, b, s.columns), t, s.required);
    }
  }

  lemma FirstOfBoth(ws: seq<Write>, recs: seq<ShadowRow>, t: Table, required: set<string>)
    requires ws != [] && recs != []
    ensures Hits(ws, t) <==> Hits([ws[0]], t) && Hits(ws[1..], t)
    ensures TieSafe(recs, t, required) <==> SafeRow(recs[0], t, required) && TieSafe(recs[1..], t, required)
  {
    assert ws == [ws[0]] + ws[1..] && recs == [recs[0]] + recs[1..];
  }

  lemma {:induction false} OnceAllSafeIff(h: History, t: Table, s: Schema)
    requires WellFormed(h, t, s) && OncePerBlock(h) && TextTable(t)
    requires forall b <- h :: TextWrites(b.writes)
    ensures TextTable(After(h, t)) && (AllTieSafe(h, t, s) <==> AllHit(h, t))
  {
    if h != [] {
      var front, last := h[..|h| - 1], h[|h| - 1];
      assert last in h;
      OnceAllSafeIff(front, t, s);
      OnceTieSafeIff(last.writes, After(front, t), After(front, t), last.number, s);
      TextStays(last.writes, After(front, t));
    }
  }

  /** A history with text columns and plain keys that touches each key at most once per block can be rolled
      back exactly if and only if no insert meets a key that is there and no delete one that is not. */
  lemma OnceIsUndoableIff(h: History, t: Table, s: Schema)
    requires WellFormed(h, t, s) && OncePerBlock(h) && TextTable(t) && PlainLog(Log(h, t, s.columns))
    requires forall b <- h :: TextWrites(b.writes)
    ensures RollsBackExactly(h, t, s) <==> AllHit(h, t)
  {
    OnceAllSafeIff(h, t, s);
    PlainRollbackExactIff(h, t, s);
  }
}
