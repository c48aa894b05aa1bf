/** The rows recorded for one block, undone in any order (crates/forge-index-db/src/reorg.rs:144-240):
    exactly when every order is replayed to the end and gives back the table from before the block. */
module BlockUndo {
  import opened Tables
  import opened ReorgLog
  import opened Sequences

  lemma {:induction false} UndoAllConcat(a: seq<ShadowRow>, b: seq<ShadowRow>, t: Table)
    ensures UndoAll(a + b, t) == UndoAll(b, UndoAll(a, t))
  {
    if a == [] {
      assert a + b == b;
    } else {
      assert (a + b)[1..] == a[1..] + b;
      UndoAllConcat(a[1..], b, Undo(a[0], t));
    }
  }

  lemma {:induction false} StuckConcat(a: seq<ShadowRow>, b: seq<ShadowRow>, t: Table, required: set<string>)
    ensures FirstStuck(a + b, t, required) ==
            if FirstStuck(a, t, required) < |a| then FirstStuck(a, t, required)
            else |a| + FirstStuck(b, UndoAll(a, t), required)
  {
    if a == [] {
      assert a + b == b;
    } else {
      assert (a + b)[1..] == a[1..] + b;
      StuckConcat(a[1..], b, Undo(a[0], t), required);
    }
  }

  // One key under any order of undo

  lemma {:induction false} UndoUntouched(rows: seq<ShadowRow>, t: Table, k: Value)
    requires forall r <- rows :: Named(r) == k ==> if k in t then r.op == InsertOp else r.op != InsertOp
    ensures Slot(UndoAll(rows, t), k) == Slot(t, k)
  {
    if rows != [] {
      UndoUntouched(rows[1..], Undo(rows[0], t), k);
    }
  }

  lemma {:induction false} UndoAbsent(rows: seq<ShadowRow>, t: Table, k: Value)
    requires forall r <- rows :: Named(r) == k ==> r.op != InsertOp
    requires k !in t || exists r <- rows :: Named(r) == k && r.op == DeleteOp
    ensures k !in UndoAll(rows, t)
  {
    if rows != [] {
      UndoAbsent(rows[1..], Undo(rows[0], t), k);
    }
  }

  /** A key that is there and not deleted stays, with the cells of its updates. */
  lemma {:induction false} UndoUpdated(rows: seq<ShadowRow>, t: Table, k: Value, c: Cells)
    requires k in t && t[k].Keys == c.Keys
    requires forall r <- rows :: Named(r) == k ==> r.op != DeleteOp
    requires forall r <- rows :: Named(r) == k && r.op == UpdateOp ==> AsText(r.cells) == c
    requires t[k] == c || exists r <- rows :: Named(r) == k && r.op == UpdateOp
    ensures Slot(UndoAll(rows, t), k) == Some(c)
  {
    if rows != [] {
      var t' := Undo(rows[0], t);
      if Named(rows[0]) == k && rows[0].op == UpdateOp { assert t[k] + c == c; }
      UndoUpdated(rows[1..], t', k, c);
    }
  }

  /** A key that is not there comes with the first insert. */
  lemma {:induction false} UndoInserted(rows: seq<ShadowRow>, t: Table, k: Value, c: Cells)
    requires k !in t
    requires forall r <- rows :: Named(r) == k ==> r.op != DeleteOp && AsText(r.cells) == c
    requires exists r <- rows :: Named(r) == k && r.op == InsertOp
    ensures Slot(UndoAll(rows, t), k) == Some(c)
  {
    var t' := Undo(rows[0], t);
    if Named(rows[0]) == k && rows[0].op == InsertOp {
      UndoUpdated(rows[1..], t', k, c);
    } else {
      UndoInserted(rows[1..], t', k, c);
    }
  }

  lemma {:induction false} UndoTyped(rows: seq<ShadowRow>, t: Table, columns: set<string>)
    requires Typed(t, columns) && forall r <- rows :: r.cells.Keys == columns
    ensures Typed(UndoAll(rows, t), columns)
  {
    if rows != [] {
      UndoTyped(rows[1..], Undo(rows[0], t), columns);
    }
  }

  lemma {:induction false} UndoStays(rows: seq<ShadowRow>, t: Table, k: Value)
    requires k in t && forall r <- rows :: Named(r) == k ==> r.op != DeleteOp
    ensures k in UndoAll(rows, t)
  {
    if rows != [] {
      UndoStays(rows[1..], Undo(rows[0], t), k);
    }
  }

  // Settled rows, in any order

  lemma SettledKey(recs: seq<ShadowRow>, t: Table, u: Table, k: Value, rows: seq<ShadowRow>, columns: set<string>)
    requires KeySettled(recs, t, u, k) && (forall r :: r in rows <==> r in recs)
    requires Typed(t, columns) && Typed(u, columns)
    ensures Slot(UndoAll(rows, u), k) == Slot(t, k)
  {
    if k !in t {
      UndoAbsent(rows, u, k);
    } else if k in u {
      UndoUpdated(rows, u, k, t[k]);
    } else {
      UndoInserted(rows, u, k, t[k]);
    }
  }

  lemma SettledTable(recs: seq<ShadowRow>, t: Table, u: Table, rows: seq<ShadowRow>, columns: set<string>)
    requires (forall k :: KeySettled(recs, t, u, k)) && (forall r :: r in rows <==> r in recs)
    requires Typed(t, columns) && Typed(u, columns)
    ensures UndoAll(rows, u) == t
  {
    forall k: Value
      ensures Slot(UndoAll(rows, u), k) == Slot(t, k)
    {
      assert KeySettled(recs, t, u, k);
      SettledKey(recs, t, u, k, rows, columns);
    }
    TablesEqual(UndoAll(rows, u), t);
  }

  /** No statement for settled rows is refused, on any table between the two. */
  lemma {:induction false} SettledReplay(recs: seq<ShadowRow>, t: Table, u: Table, required: set<string>,
                                         rows: seq<ShadowRow>, x: Table)
    requires Settled(recs, t, u, required) && (forall r <- rows :: r in recs)
    requires forall k :: k in x ==> k in t || k in u
    ensures FirstStuck(rows, x, required) == |rows| <==> forall r <- rows :: Pasteable(r)
  {
    if rows != [] && Pasteable(rows[0]) {
      var r := rows[0];
      assert r in recs && KeySettled(recs, t, u, Named(r));
      assert Holed(r, required) || !Refused(r, x, required);
      assert rows == [r] + rows[1..];
      SettledReplay(recs, t, u, required, rows[1..], Undo(r, x));
    }
  }

  // Rows that are not settled, in a bad order

  function Inserts(k: Value): ShadowRow -> bool {
    (r: ShadowRow) => Named(r) == k && r.op == InsertOp
  }

  function NotInserts(k: Value): ShadowRow -> bool {
    (r: ShadowRow) => !(Named(r) == k && r.op == InsertOp)
  }

  /** The i-th row as the first that inserts its key, behind all rows that do not. */
  function InsertedFirst(recs: seq<ShadowRow>, i: nat): seq<ShadowRow>
    requires i < |recs|
  {
    var others, k := recs[..i] + recs[i + 1..], Named(recs[i]);
    Filter(others, NotInserts(k)) + [recs[i]] + Filter(others, Inserts(k))
  }

  lemma InsertedFirstSame(recs: seq<ShadowRow>, i: nat)
    requires i < |recs|
    ensures multiset(InsertedFirst(recs, i)) == multiset(recs)
  {
    var others, k := recs[..i] + recs[i + 1..], Named(recs[i]);
    FilterParts(others, NotInserts(k), Inserts(k));
    var front, back := Filter(others, NotInserts(k)), Filter(others, Inserts(k));
    assert multiset(front + [recs[i]] + back) == multiset(front) + multiset([recs[i]]) + multiset(back);
    MovedFirstSame(recs, i);
    assert MovedFirst(recs, i) == [recs[i]] + others;
    assert multiset([recs[i]] + others) == multiset([recs[i]]) + multiset(others);
  }

  /** A pre-image inserted first is what the key gets, if no row behind it changes it. */
  lemma FirstInsertCounts(recs: seq<ShadowRow>, i: nat, u: Table)
    requires i < |recs| && recs[i].op == InsertOp && Named(recs[i]) !in u
    ensures Slot(UndoAll(InsertedFirst(recs, i), u), Named(recs[i])) == Some(AsText(recs[i].cells))
  {
    var others, r, k := recs[..i] + recs[i + 1..], recs[i], Named(recs[i]);
    var front, back := Filter(others, NotInserts(k)), Filter(others, Inserts(k));
    FilterMembers(others, NotInserts(k));
    FilterMembers(others, Inserts(k));
    var x := UndoAll(front, u);
    UndoAbsent(front, u, k);
    UndoAllConcat(front + [r], back, u);
    UndoAllConcat(front, [r], u);
    assert UndoAll([r], x) == Undo(r, x);
    assert Slot(UndoAll(back, Undo(r, x)), k) == Slot(Undo(r, x), k) by {
      UndoUntouched(back, Undo(r, x), k);
    }
  }

  lemma UndoLast(recs: seq<ShadowRow>, i: nat, u: Table)
    requires i < |recs|
    ensures var others := recs[..i] + recs[i + 1..];
      UndoAll(MovedLast(recs, i), u) == Undo(recs[i], UndoAll(others, u))
  {
    var others := recs[..i] + recs[i + 1..];
    UndoAllConcat(others, [recs[i]], u);
    assert UndoAll([recs[i]], UndoAll(others, u)) == Undo(recs[i], UndoAll(others, u));
  }

  predicate Updates(r: ShadowRow, k: Value) {
    Named(r) == k && r.op == UpdateOp
  }

  lemma IndexOf(recs: seq<ShadowRow>, r: ShadowRow) returns (i: nat)
    requires r in recs
    ensures i < |recs| && recs[i] == r
  {
    i :| 0 <= i < |recs| && recs[i] == r;
  }

  /** If the rows for a key absent before the block are not safe, some order leaves it there. */
  lemma AbsentFails(recs: seq<ShadowRow>, t: Table, u: Table, k: Value) returns (rows: seq<ShadowRow>)
    requires k !in t && !KeySettled(recs, t, u, k)
    ensures multiset(rows) == multiset(recs) && k in UndoAll(rows, u)
  {
    if r :| r in recs && Named(r) == k && r.op == InsertOp {
      var i := IndexOf(recs, r);
      rows := MovedLast(recs, i);
      MovedLastSame(recs, i);
      UndoLast(recs, i, u);
    } else {
      rows := recs;
      UndoStays(recs, u, k);
    }
  }

  /** The same for a key present before the block: some order does not bring its row back. */
  lemma PresentFails(recs: seq<ShadowRow>, t: Table, u: Table, k: Value, columns: set<string>)
    returns (rows: seq<ShadowRow>)
    requires k in t && !KeySettled(recs, t, u, k) && Typed(u, columns) && forall r <- recs :: r.cells.Keys == columns
    ensures multiset(rows) == multiset(recs) && Slot(UndoAll(rows, u), k) != Some(t[k])
  {
    if r :| r in recs && Named(r) == k && r.op == DeleteOp {
      var i := IndexOf(recs, r);
      rows := MovedLast(recs, i);
      MovedLastSame(recs, i);
      UndoLast(recs, i, u);
    } else if r :| r in recs && Updates(r, k) && AsText(r.cells) != t[k] {
      rows := WrongUpdate(recs, r, t, u, columns);
    } else if k in u {
      rows := recs;
      UndoUntouched(recs, u, k);
    } else if r :| r in recs && Named(r) == k && r.op == InsertOp && AsText(r.cells) != t[k] {
      var i := IndexOf(recs, r);
      rows := InsertedFirst(recs, i);
      InsertedFirstSame(recs, i);
      FirstInsertCounts(recs, i, u);
    } else {
      rows := recs;
      UndoUntouched(recs, u, k);
    }
  }

  /** An update undone last either sets its own cells or finds no row. */
  lemma WrongUpdate(recs: seq<ShadowRow>, r: ShadowRow, t: Table, u: Table, columns: set<string>)
    returns (rows: seq<ShadowRow>)
    requires r in recs && r.op == UpdateOp && Named(r) in t && AsText(r.cells) != t[Named(r)]
    requires Typed(u, columns) && forall r <- recs :: r.cells.Keys == columns
    ensures multiset(rows) == multiset(recs) && Slot(UndoAll(rows, u), Named(r)) != Some(t[Named(r)])
  {
    var i := IndexOf(recs, r);
    rows := MovedLast(recs, i);
    MovedLastSame(recs, i);
    UndoLast(recs, i, u);
    var others := recs[..i] + recs[i + 1..];
    var x := UndoAll(others, u);
    assert forall o <- others :: o in recs;
    UndoTyped(others, u, columns);
    if Named(r) in x {
      assert x[Named(r)] + AsText(r.cells) == AsText(r.cells);
    }
  }

  /** A row refused in one order: the replay ends at it. */
  lemma NullFails(recs: seq<ShadowRow>, t: Table, u: Table, required: set<string>, columns: set<string>)
    returns (rows: seq<ShadowRow>)
    requires (forall k :: KeySettled(recs, t, u, k)) && !NullSafe(recs, t, u, required)
    requires required <= columns && forall r <- recs :: r.cells.Keys == columns
    ensures multiset(rows) == multiset(recs) && FirstStuck(rows, u, required) < |rows|
  {
    var r :| r in recs && Holed(r, required) &&
      !(r.op == DeleteOp || (r.op == UpdateOp && Named(r) !in t && Named(r) !in u));
    var i := IndexOf(recs, r);
    if r.op == InsertOp {
      rows := recs;
    } else if Named(r) in u {
      rows := MovedFirst(recs, i);
      MovedFirstSame(recs, i);
      assert rows[0] == r && Refused(r, u, required);
    } else {
      rows := RefusedSecond(recs, i, t, u, required);
    }
  }

  /** An update of a key that another row has to insert first. */
  lemma RefusedSecond(recs: seq<ShadowRow>, i: nat, t: Table, u: Table, required: set<string>)
    returns (rows: seq<ShadowRow>)
    requires i < |recs| && recs[i].op == UpdateOp && Named(recs[i]) in t && Named(recs[i]) !in u
    requires KeySettled(recs, t, u, Named(recs[i]))
    requires exists c <- required :: c in recs[i].cells && !recs[i].cells[c].Text?
    ensures multiset(rows) == multiset(recs) && FirstStuck(rows, u, required) < |rows|
  {
    var r := recs[i];
    var q :| q in recs && Named(q) == Named(r) && q.op == InsertOp;
    var second := MovedFirst(recs, i);
    MovedFirstSame(recs, i);
    SameElements(second, recs);
    var j := IndexOf(second, q);
    assert second[0] == r && j > 0;
    rows := MovedFirst(second, j);
    MovedFirstSame(second, j);
    assert rows[0] == q && rows[1] == r;
    StuckSecond(rows, u, required);
  }

  lemma StuckSecond(rows: seq<ShadowRow>, u: Table, required: set<string>)
    requires |rows| >= 2 && Refused(rows[1], Undo(rows[0], u), required)
    ensures FirstStuck(rows, u, required) < |rows|
  {
    assert rows[1..][0] == rows[1];
  }

  /** Rows that are not settled, or one that cannot be pasted, have an order that fails. */
  lemma BlockUndoFails(recs: seq<ShadowRow>, t: Table, u: Table, s: Schema) returns (rows: seq<ShadowRow>)
    requires Typed(u, s.columns) && s.required <= s.columns && forall r <- recs :: r.cells.Keys == s.columns
    requires !Settled(recs, t, u, s.required) || exists r <- recs :: !Pasteable(r)
    ensures multiset(rows) == multiset(recs) && !Undoes(rows, u, t, s.required)
  {
    if k :| !KeySettled(recs, t, u, k) {
      if k in t {
        rows := PresentFails(recs, t, u, k, s.columns);
        assert Slot(UndoAll(rows, u), k) != Slot(t, k);
      } else {
        rows := AbsentFails(recs, t, u, k);
      }
    } else if !NullSafe(recs, t, u, s.required) {
      rows := NullFails(recs, t, u, s.required, s.columns);
    } else {
      rows := recs;
    }
  }

  /** Settled rows, undone in any order, give back the table from before the block, and no statement that
      can be made is refused. */
  lemma BlockUndoExact(recs: seq<ShadowRow>, t: Table, u: Table, s: Schema, rows: seq<ShadowRow>)
    requires Typed(t, s.columns) && Typed(u, s.columns) && Settled(recs, t, u, s.required)
    requires multiset(rows) == multiset(recs)
    ensures UndoAll(rows, u) == t
    ensures FirstStuck(rows, u, s.required) == |rows| <==> forall r <- recs :: Pasteable(r)
  {
    SameElements(rows, recs);
    SettledTable(recs, t, u, rows, s.columns);
    SettledReplay(recs, t, u, s.required, rows, u);
  }

  /** Every order of the rows is replayed to the end and gives back the table from before the block if and
      only if the rows are settled and every key can be pasted. */
  lemma BlockUndoIff(recs: seq<ShadowRow>, t: Table, u: Table, s: Schema)
    requires Typed(t, s.columns) && Typed(u, s.columns)
    requires s.required <= s.columns && forall r <- recs :: r.cells.Keys == s.columns
    ensures (forall rows :: multiset(rows) == multiset(recs) ==> Undoes(rows, u, t, s.required)) <==>
            Settled(recs, t, u, s.required) && forall r <- recs :: Pasteable(r)
  {
    if Settled(recs, t, u, s.required) && forall r <- recs :: Pasteable(r) {
      forall rows | multiset(rows) == multiset(recs)
        ensures Undoes(rows, u, t, s.required)
      {
        BlockUndoExact(recs, t, u, s, rows);
      }
    } else {
      var rows := BlockUndoFails(recs, t, u, s);
      assert multiset(rows) == multiset(recs);
    }
  }
}
