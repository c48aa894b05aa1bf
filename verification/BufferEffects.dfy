/** What a flush does to a table, in terms of the rows that were handed to the write buffer
    (crates/forge-index-db/src/buffer.rs:119-303). */
module BufferEffects {
  import opened Tables
  import opened Sequences
  import opened ReorgStores
  import opened Flush
  import opened Buffer

  // One row

  predicate IsUpdateRow(row: Row) {
    row.operation == Some("UPDATE")
  }

  predicate IsDeleteRow(row: Row) {
    row.operation == Some("DELETE")
  }

  /** All keys but k hold what they held. */
  ghost predicate OthersSame(t: Table, t': Table, k: Value) {
    forall o :: o != k ==> (o in t <==> o in t') && (o in t && o in t' ==> t[o] == t'[o])
  }

  /** The columns that an update row sets have its values, the others keep theirs. */
  ghost predicate ColumnsSet(row: Row, columns: set<string>, before: Cells, after: Cells) {
    && (forall c :: c in after <==> c in before || (c in columns && c in row.cells))
    && (forall c :: c in columns && c in row.cells ==> c in after && after[c] == row.cells[c])
    && (forall c :: c in before && !(c in columns && c in row.cells) ==> c in after && after[c] == before[c])
  }

  /** A new row has every schema column, with NULL for those the row lacks. */
  ghost predicate ColumnsFilled(row: Row, columns: set<string>, after: Cells) {
    && (forall c :: c in after <==> c in columns)
    && (forall c :: c in columns ==> c in after && after[c] == if c in row.cells then row.cells[c] else Null)
  }

  /** What a buffered row does to table t: an update changes the row under its key, if there is one; a delete
      removes it; any other row is inserted if its key is free. Nothing else changes. */
  ghost predicate Effect(row: Row, columns: set<string>, t: Table, t': Table) {
    && OthersSame(t, t', row.key)
    && if IsUpdateRow(row) then
         && (row.key in t <==> row.key in t')
         && (row.key in t && row.key in t' ==> ColumnsSet(row, columns, t[row.key], t'[row.key]))
       else if IsDeleteRow(row) then row.key !in t'
       else
         && row.key in t'
         && if row.key in t then t'[row.key] == t[row.key] else ColumnsFilled(row, columns, t'[row.key])
  }

  lemma RowEffect(row: Row, columns: set<string>, t: Table)
    ensures Effect(row, columns, t, Apply(WriteOf(row, columns), t))
  {
  }

  /** There is only one such table. */
  lemma EffectUnique(row: Row, columns: set<string>, t: Table, u: Table, v: Table)
    requires Effect(row, columns, t, u) && Effect(row, columns, t, v)
    ensures u == v
  {
    var k := row.key;
    if k in u && k in v {
      assert u[k] == v[k] by {
        assert forall c :: c in u[k] <==> c in v[k];
        assert forall c :: c in u[k] ==> u[k][c] == v[k][c];
      }
    }
    forall o
      ensures Slot(u, o) == Slot(v, o)
    {
      if o != k {
        assert (o in t <==> o in u) && (o in t <==> o in v);
      }
    }
    TablesEqual(u, v);
  }

  // Several rows

  /** Table t becomes t' through the rows' effects, in order. */
  ghost predicate Leads(rows: seq<Row>, columns: set<string>, t: Table, t': Table)
    decreases |rows|
  {
    if rows == [] then t' == t
    else exists x :: Effect(rows[0], columns, t, x) && Leads(rows[1..], columns, x, t')
  }

  lemma {:induction false} LeadsUnique(rows: seq<Row>, columns: set<string>, t: Table, u: Table, v: Table)
    requires Leads(rows, columns, t, u) && Leads(rows, columns, t, v)
    ensures u == v
    decreases |rows|
  {
    if rows != [] {
      var x :| Effect(rows[0], columns, t, x) && Leads(rows[1..], columns, x, u);
      var y :| Effect(rows[0], columns, t, y) && Leads(rows[1..], columns, y, v);
      EffectUnique(rows[0], columns, t, x, y);
      LeadsUnique(rows[1..], columns, x, u, v);
    }
  }

  lemma {:induction false} WritesLead(rows: seq<Row>, columns: set<string>, t: Table)
    ensures Leads(rows, columns, t, ApplyAll(WritesOf(rows, columns), t))
    decreases |rows|
  {
    if rows != [] {
      var ws, w := WritesOf(rows, columns), WriteOf(rows[0], columns);
      assert ws[1..] == WritesOf(rows[1..], columns);
      RowEffect(rows[0], columns, t);
      WritesLead(rows[1..], columns, Apply(w, t));
    }
  }

  // A flush

  function Inserted(): Row -> bool { (r: Row) => !IsUpdateRow(r) && !IsDeleteRow(r) }

  function Updated(): Row -> bool { (r: Row) => IsUpdateRow(r) }

  function Deleted(): Row -> bool { (r: Row) => IsDeleteRow(r) }

  /** The rows in the order in which a flush writes them. */
  function Regrouped(rows: seq<Row>): seq<Row> {
    Filter(rows, Inserted()) + Filter(rows, Updated()) + Filter(rows, Deleted())
  }

  lemma {:induction false} WritesFilter(rows: seq<Row>, columns: set<string>, p: Row -> bool, q: Write -> bool)
    requires forall r <- rows :: p(r) <==> q(WriteOf(r, columns))
    ensures Filter(WritesOf(rows, columns), q) == WritesOf(Filter(rows, p), columns)
    decreases |rows|
  {
    if rows != [] {
      var ws := WritesOf(rows, columns);
      assert ws[1..] == WritesOf(rows[1..], columns);
      assert rows[0] in rows;
      WritesFilter(rows[1..], columns, p, q);
      assert WritesOf([rows[0]] + Filter(rows[1..], p), columns) ==
             [WriteOf(rows[0], columns)] + WritesOf(Filter(rows[1..], p), columns);
    }
  }

  /** The three groups as writes. */
  lemma Groups(rows: seq<Row>, columns: set<string>)
    ensures var ws := WritesOf(rows, columns);
      && Filter(ws, IsInsert()) == WritesOf(Filter(rows, Inserted()), columns)
      && Filter(ws, IsUpdate()) == WritesOf(Filter(rows, Updated()), columns)
      && Filter(ws, IsDelete()) == WritesOf(Filter(rows, Deleted()), columns)
  {
    WritesFilter(rows, columns, Inserted(), IsInsert());
    WritesFilter(rows, columns, Updated(), IsUpdate());
    WritesFilter(rows, columns, Deleted(), IsDelete());
  }

  lemma WritesConcat(a: seq<Row>, b: seq<Row>, columns: set<string>, t: Table)
    ensures ApplyAll(WritesOf(a + b, columns), t) ==
            ApplyAll(WritesOf(b, columns), ApplyAll(WritesOf(a, columns), t))
  {
    assert WritesOf(a + b, columns) == WritesOf(a, columns) + WritesOf(b, columns);
    ApplyAllConcat(WritesOf(a, columns), WritesOf(b, columns), t);
  }

  /** Rows one group after the other. */
  lemma GroupsLead(a: seq<Row>, b: seq<Row>, columns: set<string>, t: Table)
    ensures Leads(a + b, columns, t, ApplyAll(WritesOf(b, columns), ApplyAll(WritesOf(a, columns), t)))
  {
    WritesLead(a + b, columns, t);
    WritesConcat(a, b, columns, t);
  }

  /** A flush that succeeds. */
  lemma FlushedLeads(rows: seq<Row>, columns: set<string>, t: Table)
    ensures Leads(Regrouped(rows), columns, t, Flushed(WritesOf(rows, columns), t))
  {
    var i, u, d := Filter(rows, Inserted()), Filter(rows, Updated()), Filter(rows, Deleted());
    Groups(rows, columns);
    GroupsLead(i + u, d, columns, t);
    WritesConcat(i, u, columns, t);
  }

  /** How many of the regrouped rows a flush writes before the given statement fails. */
  function Before(rows: seq<Row>, f: Fault): (n: nat)
    ensures n <= |Regrouped(rows)|
  {
    var i, u := |Filter(rows, Inserted())|, |Filter(rows, Updated())|;
    match f
    case InsertFails => 0
    case UpdateFails(k) => i + if k < u then k else u
    case DeleteFails => i + u
    case NoFault => |Regrouped(rows)|
  }

  lemma PartlyLeads(rows: seq<Row>, columns: set<string>, t: Table, f: Fault)
    ensures Leads(Regrouped(rows)[..Before(rows, f)], columns, t, PartlyFlushed(WritesOf(rows, columns), t, f))
  {
    var i, u, d := Filter(rows, Inserted()), Filter(rows, Updated()), Filter(rows, Deleted());
    var all := Regrouped(rows);
    Groups(rows, columns);
    match f {
      case NoFault =>
        assert all[..|all|] == all;
        FlushedLeads(rows, columns, t);
      case InsertFails =>
        assert all[..0] == [];
      case UpdateFails(k) =>
        var n := if k < |u| then k else |u|;
        assert all[..|i| + n] == i + u[..n];
        assert WritesOf(u[..n], columns) == WritesOf(u, columns)[..n];
        GroupsLead(i, u[..n], columns, t);
      case DeleteFails =>
        assert all[..|i| + |u|] == i + u;
        GroupsLead(i, u, columns, t);
    }
  }

  // Which failures show

  /** The failing statement is one that the flush issues. */
  predicate Shows(rows: seq<Row>, columns: set<string>, f: Fault) {
    var inserts, updates := Filter(rows, Inserted()), Filter(rows, Updated());
    match f
    case NoFault => false
    case InsertFails => inserts != []
    case UpdateFails(i) => i < |updates| && exists c :: c in columns && c in updates[i].cells
    case DeleteFails => exists r <- rows :: IsDeleteRow(r) && r.key != Null
  }

  /** An inserted row without a key makes the INSERT fail by itself. */
  predicate Keyless(rows: seq<Row>) {
    exists r <- rows :: !IsUpdateRow(r) && !IsDeleteRow(r) && r.key == Null
  }

  lemma KeylessIff(rows: seq<Row>, columns: set<string>)
    ensures Keyless(rows) <==> !Keyed(WritesOf(rows, columns))
  {
    var ws := WritesOf(rows, columns);
    if Keyless(rows) {
      var r :| r in rows && !IsUpdateRow(r) && !IsDeleteRow(r) && r.key == Null;
      var i :| 0 <= i < |rows| && rows[i] == r;
      assert ws[i] in ws;
    }
    if !Keyed(ws) {
      var w :| w in ws && w.Insert? && w.key == Null;
      var i :| 0 <= i < |ws| && ws[i] == w;
      assert rows[i] in rows;
    }
  }

  lemma UpdateShows(rows: seq<Row>, columns: set<string>, i: nat)
    ensures UpdateIssued(Filter(WritesOf(rows, columns), IsUpdate()), i) <==> Shows(rows, columns, UpdateFails(i))
  {
    Groups(rows, columns);
    var updates := Filter(rows, Updated());
    FilterMembers(rows, Updated());
    if i < |updates| {
      assert updates[i] in updates;
      UpdateSets(updates[i], columns);
    }
  }

  lemma UpdateSets(row: Row, columns: set<string>)
    requires IsUpdateRow(row)
    ensures var w := WriteOf(row, columns);
      w.Update? && (w.cells != map[] <==> exists c :: c in columns && c in row.cells)
  {
    var w := WriteOf(row, columns);
    if c :| c in columns && c in row.cells {
      assert c in w.cells;
    }
    if w.cells != map[] {
      var c :| c in w.cells;
    }
  }

  lemma DeleteShows(rows: seq<Row>, columns: set<string>)
    ensures DeleteIssued(Filter(WritesOf(rows, columns), IsDelete())) <==> Shows(rows, columns, DeleteFails)
  {
    Groups(rows, columns);
    FilterMembers(rows, Deleted());
    SomeKey(Filter(rows, Deleted()), columns);
  }

  lemma SomeKey(rows: seq<Row>, columns: set<string>)
    ensures (exists w <- WritesOf(rows, columns) :: w.key != Null) <==> exists r <- rows :: r.key != Null
  {
    var ws := WritesOf(rows, columns);
    assert forall i :: 0 <= i < |rows| ==> ws[i].key == rows[i].key && ws[i] in ws && rows[i] in rows;
    if w :| w in ws && w.key != Null {
      var i :| 0 <= i < |ws| && ws[i] == w;
      assert rows[i].key != Null;
    }
  }

  /** The fault that shows, in terms of the rows. */
  lemma EffectiveIs(rows: seq<Row>, columns: set<string>, f: Fault)
    ensures Effective(WritesOf(rows, columns), f) ==
            if Keyless(rows) then InsertFails else if Shows(rows, columns, f) then f else NoFault
  {
    Groups(rows, columns);
    KeylessIff(rows, columns);
    KeylessInserts(rows);
    match f {
      case UpdateFails(i) => UpdateShows(rows, columns, i);
      case DeleteFails => DeleteShows(rows, columns);
      case _ =>
    }
  }

  lemma KeylessInserts(rows: seq<Row>)
    ensures Keyless(rows) ==> Filter(rows, Inserted()) != []
  {
    FilterMembers(rows, Inserted());
  }

  /** Flushing one table of the schema: its rows leave the buffer. They take effect inserts first, then updates, then
      deletes, and within each kind in order, up to the first statement that fails. */
  lemma FlushOneExact(name: string, f: Fault, s: Store, columns: map<string, set<string>>)
    requires name in s.buffers && name in columns && name in s.tables
    ensures var (ok, s') := FlushOne(name, f, s, columns);
      var rows := s.buffers[name];
      var shown := if Keyless(rows) then InsertFails else f;
      && (ok <==> !Keyless(rows) && !Shows(rows, columns[name], f))
      && s'.buffers == s.buffers[name := []]
      && name in s'.tables && s'.tables == s.tables[name := s'.tables[name]]
      && Leads(if ok then Regrouped(rows) else Regrouped(rows)[..Before(rows, shown)], columns[name], s.tables[name],
               s'.tables[name])
  {
    var rows, ws := s.buffers[name], WritesOf(s.buffers[name], columns[name]);
    var shown := Effective(ws, f);
    EffectiveIs(rows, columns[name], f);
    PartlyLeads(rows, columns[name], s.tables[name], shown);
    assert Regrouped(rows)[..|Regrouped(rows)|] == Regrouped(rows);
  }

  // Several tables

  /** How table `name` comes out of its own flush. */
  ghost predicate OneFlushed(name: string, f: Fault, s: Store, s': Store, columns: map<string, set<string>>, ok: bool) {
    && name in s.buffers && name in s.tables && name in s'.buffers && name in s'.tables
    && s'.buffers[name] == []
    && if name !in columns then ok && s'.tables[name] == s.tables[name]
       else
         var rows := s.buffers[name];
         var shown := if Keyless(rows) then InsertFails else f;
         && (ok <==> !Keyless(rows) && !Shows(rows, columns[name], f))
         && Leads(if ok then Regrouped(rows) else Regrouped(rows)[..Before(rows, shown)], columns[name],
                  s.tables[name], s'.tables[name])
  }

  ghost predicate Untouched(name: string, s: Store, s': Store) {
    && (name in s.buffers <==> name in s'.buffers) && (name in s.tables <==> name in s'.tables)
    && (name in s.buffers && name in s'.buffers ==> s'.buffers[name] == s.buffers[name])
    && (name in s.tables && name in s'.tables ==> s'.tables[name] == s.tables[name])
  }

  lemma OneOfSeveral(name: string, f: Fault, s: Store, columns: map<string, set<string>>)
    requires name in s.buffers && name in s.tables
    ensures var one := FlushOne(name, f, s, columns);
      OneFlushed(name, f, s, one.1, columns, one.0) && forall n :: n != name ==> Untouched(n, s, one.1)
  {
    if name in columns {
      FlushOneExact(name, f, s, columns);
    }
  }

  lemma UntouchedTwice(n: string, s: Store, s1: Store, s2: Store)
    requires Untouched(n, s, s1) && Untouched(n, s1, s2)
    ensures Untouched(n, s, s2)
  {
  }

  lemma OneLater(n: string, f: Fault, s: Store, s1: Store, s2: Store, columns: map<string, set<string>>, ok: bool)
    requires Untouched(n, s, s1) && OneFlushed(n, f, s1, s2, columns, ok)
    ensures OneFlushed(n, f, s, s2, columns, ok)
  {
  }

  /** What a flush of several tables leaves: the first k succeed, the next one, if any, fails, and no other table
      is touched. */
  ghost predicate SeveralFlushed(names: seq<string>, faults: map<string, Fault>, s: Store, s': Store,
                                 columns: map<string, set<string>>, k: nat)
  {
    && k <= |names|
    && (forall i :: 0 <= i < k ==> OneFlushed(names[i], FaultOf(faults, names[i]), s, s', columns, true))
    && (k < |names| ==> OneFlushed(names[k], FaultOf(faults, names[k]), s, s', columns, false))
    && (forall n :: n !in names[..if k < |names| then k + 1 else k] ==> Untouched(n, s, s'))
  }

  lemma {:induction false} FlushNamesExact(names: seq<string>, faults: map<string, Fault>, s: Store,
                                           columns: map<string, set<string>>) returns (k: nat)
    requires forall i, j :: 0 <= i < j < |names| ==> names[i] != names[j]
    requires forall n <- names :: n in s.buffers && n in s.tables
    ensures var (ok, s') := FlushNames(names, faults, s, columns);
      SeveralFlushed(names, faults, s, s', columns, k) && (ok <==> k == |names|)
    decreases |names|
  {
    if names == [] {
      k := 0;
    } else {
      var one := FlushOne(names[0], FaultOf(faults, names[0]), s, columns);
      assert names[0] in names;
      OneOfSeveral(names[0], FaultOf(faults, names[0]), s, columns);
      if one.0 {
        assert forall n <- names[1..] :: n in names && Untouched(n, s, one.1);
        var rest := FlushNamesExact(names[1..], faults, one.1, columns);
        k := rest + 1;
        FirstOfSeveral(names, faults, s, one.1, FlushNames(names[1..], faults, one.1, columns).1, columns, rest);
      } else {
        k := 0;
        assert names[..1] == [names[0]];
      }
    }
  }

  lemma FirstOfSeveral(names: seq<string>, faults: map<string, Fault>, s: Store, s1: Store, s2: Store,
                       columns: map<string, set<string>>, k: nat)
    requires names != [] && forall i, j :: 0 <= i < j < |names| ==> names[i] != names[j]
    requires OneFlushed(names[0], FaultOf(faults, names[0]), s, s1, columns, true)
    requires forall n :: n != names[0] ==> Untouched(n, s, s1)
    requires SeveralFlushed(names[1..], faults, s1, s2, columns, k)
    ensures SeveralFlushed(names, faults, s, s2, columns, k + 1)
  {
    var rest := names[1..];
    assert names[0] !in rest by {
      assert forall i :: 0 <= i < |rest| ==> rest[i] == names[i + 1];
    }
    var end := if k < |rest| then k + 1 else k;
    assert names[..end + 1] == [names[0]] + rest[..end];
    assert forall n <- rest[..end] :: n in rest;
    assert Untouched(names[0], s1, s2);
    forall i | 0 <= i < k + 1
      ensures OneFlushed(names[i], FaultOf(faults, names[i]), s, s2, columns, true)
    {
      if i > 0 {
        assert names[i] == rest[i - 1];
        OneLater(names[i], FaultOf(faults, names[i]), s, s1, s2, columns, true);
      }
    }
    if k < |rest| {
      assert names[k + 1] == rest[k];
      OneLater(names[k + 1], FaultOf(faults, names[k + 1]), s, s1, s2, columns, false);
    }
    forall n | n !in names[..end + 1]
      ensures Untouched(n, s, s2)
    {
      assert n != names[0] && n !in rest[..end];
      UntouchedTwice(n, s, s1, s2);
    }
  }

  // In the order of arrival

  /** No insert follows an update or delete of its key, and no update follows a delete of its key. */
  ghost predicate RowsInOrder(rows: seq<Row>) {
    forall i, j :: 0 <= i < j < |rows| && rows[i].key == rows[j].key ==>
      && (Inserted()(rows[j]) ==> Inserted()(rows[i]))
      && (IsUpdateRow(rows[j]) ==> !IsDeleteRow(rows[i]))
  }

  /** For rows in order a successful flush has the rows' effects in the order of arrival. */
  lemma InOrderLeads(rows: seq<Row>, columns: set<string>, t: Table)
    requires RowsInOrder(rows)
    ensures Leads(rows, columns, t, Flushed(WritesOf(rows, columns), t))
  {
    var ws := WritesOf(rows, columns);
    forall i, j | 0 <= i < j < |ws| && ws[i].key == ws[j].key
      ensures (ws[j].Insert? ==> ws[i].Insert?) && (ws[j].Update? ==> !ws[i].Delete?)
    {
      assert ws[i] == WriteOf(rows[i], columns) && ws[j] == WriteOf(rows[j], columns);
    }
    InOrderFlush(ws, t);
    WritesLead(rows, columns, t);
  }

  // From the calls to the table

  datatype Call = InsertCall(row: Row) | UpdateCall(row: Row) | DeleteCall(pkCol: string, pkValue: Value)

  /** The row that a call leaves in the buffer. */
  function RowOf(c: Call, pk: string): Row {
    match c
    case InsertCall(row) => row
    case UpdateCall(row) => row.(operation := Some("UPDATE"))
    case DeleteCall(pkCol, k) => Row(if pkCol == pk then k else Null, map[], Some("DELETE"))
  }

  function RowsOf(calls: seq<Call>, pk: string): (rows: seq<Row>)
    ensures |rows| == |calls|
  {
    seq(|calls|, i requires 0 <= i < |calls| => RowOf(calls[i], pk))
  }

  /** Any calls for one table that an empty buffer has room for, and a flush of it without faults. */
  method CallsThenFlush(b: WriteBuffer, table: string, calls: seq<Call>) returns (r: Result<nat, DbError>)
    requires b.Valid() && table in b.columns && b.Rows(table) == [] && |calls| <= b.maxSize
    modifies b`buffers, b`totalFlushed, b.db`tables
    ensures b.Valid() && table in old(b.db.tables) && table in b.db.tables
    ensures var rows := RowsOf(calls, b.pkColumns[table]);
      && (r.Ok? <==> !Keyless(rows))
      && (r.Ok? ==> r.value == |calls|)
      && (r.Ok? ==> Leads(Regrouped(rows), b.columns[table], old(b.db.tables)[table], b.db.tables[table]))
      && (r.Ok? && RowsInOrder(rows) ==> Leads(rows, b.columns[table], old(b.db.tables)[table], b.db.tables[table]))
  {
    ghost var rows, t := RowsOf(calls, b.pkColumns[table]), b.db.tables[table];
    for i := 0 to |calls|
      invariant b.Valid() && b.Rows(table) == rows[..i] && b.db.tables == old(b.db.tables)
    {
      assert rows[..i + 1] == rows[..i] + [RowOf(calls[i], b.pkColumns[table])];
      match calls[i] {
        case InsertCall(row) => var one := b.InsertRow(table, row);
        case UpdateCall(row) => var one := b.UpdateRow(table, row);
        case DeleteCall(pkCol, k) => var one := b.DeleteRow(table, pkCol, k);
      }
    }
    assert rows[..|calls|] == rows;
    ghost var s := b.Snapshot();
    r := b.FlushTable(table, NoFault);
    if table in s.buffers {
      FlushOneExact(table, NoFault, s, b.columns);
    } else {
      assert rows == [];
    }
    if RowsInOrder(rows) {
      InOrderLeads(rows, b.columns[table], t);
    }
    FlushedLeads(rows, b.columns[table], t);
  }
}
