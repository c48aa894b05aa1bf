/** The write buffer of crates/forge-index-db/src/buffer.rs: rows collect per table and a flush
    takes them and writes them in at most one INSERT, one UPDATE per row and one DELETE. */
module Buffer {
  import opened Tables
  import opened Sequences
  import opened ReorgStores
  import opened Flush

  /** Which SQL statement of a table's flush fails, if any. */
  datatype Fault = NoFault | InsertFails | UpdateFails(index: nat) | DeleteFails

  /** The operation a buffered row stands for. */
  function WriteOf(row: Row, columns: set<string>): Write {
    if row.operation == Some("UPDATE") then
      Update(row.key, map c | c in columns && c in row.cells :: row.cells[c])
    else if row.operation == Some("DELETE") then Delete(row.key)
    else Insert(row.key, map c | c in columns :: if c in row.cells then row.cells[c] else Null)
  }

  function WritesOf(rows: seq<Row>, columns: set<string>): (ws: seq<Write>)
    ensures |ws| == |rows|
    ensures forall i :: 0 <= i < |rows| ==> ws[i] == WriteOf(rows[i], columns)
  {
    seq(|rows|, i requires 0 <= i < |rows| => WriteOf(rows[i], columns))
  }

  /** A row without a primary key makes the INSERT fail. */
  predicate Keyed(ws: seq<Write>) {
    forall w <- ws :: w.Insert? ==> w.key != Null
  }

  /** The table when the given statement fails: the statements before it have taken effect. */
  function PartlyFlushed(ws: seq<Write>, t: Table, f: Fault): Table {
    var inserted := ApplyAll(Filter(ws, IsInsert()), t);
    var updates := Filter(ws, IsUpdate());
    match f
    case NoFault => Flushed(ws, t)
    case InsertFails => t
    case UpdateFails(i) => ApplyAll(updates[..if i < |updates| then i else |updates|], inserted)
    case DeleteFails => ApplyAll(updates, inserted)
  }

  /** An update that sets no column is not issued. */
  predicate UpdateIssued(updates: seq<Write>, i: nat) {
    i < |updates| && updates[i].Update? && updates[i].cells != map[]
  }

  /** Without a key in any of its rows the DELETE is not issued. */
  predicate DeleteIssued(deletes: seq<Write>) {
    exists w <- deletes :: w.key != Null
  }

  /** The fault that actually shows: a failing statement that is never issued does no harm. */
  function Effective(ws: seq<Write>, f: Fault): Fault {
    var inserts := Filter(ws, IsInsert());
    if inserts != [] && (f == InsertFails || !Keyed(ws)) then InsertFails
    else if f.UpdateFails? && UpdateIssued(Filter(ws, IsUpdate()), f.index) then f
    else if f == DeleteFails && DeleteIssued(Filter(ws, IsDelete())) then f
    else NoFault
  }

  /** The buffered rows and the main tables. */
  datatype Store = Store(buffers: map<string, seq<Row>>, tables: map<string, Table>)

  /** Flushing one table: its rows leave the buffer whether or not the statements succeed; rows of
      a table outside the schema are dropped. */
  function FlushOne(name: string, f: Fault, s: Store, columns: map<string, set<string>>): (bool, Store) {
    if name !in s.buffers then (true, s)
    else
      var emptied := s.buffers[name := []];
      if name in columns && name in s.tables then
        var ws := WritesOf(s.buffers[name], columns[name]);
        var shown := Effective(ws, f);
        (shown == NoFault, Store(emptied, s.tables[name := PartlyFlushed(ws, s.tables[name], shown)]))
      else (true, Store(emptied, s.tables))
  }

  function FaultOf(faults: map<string, Fault>, name: string): Fault {
    if name in faults then faults[name] else NoFault
  }

  /** Flushing tables one after the other until one fails. */
  function FlushNames(names: seq<string>, faults: map<string, Fault>, s: Store, columns: map<string, set<string>>)
    : (bool, Store)
    decreases |names|
  {
    if names == [] then (true, s)
    else
      var (ok, s') := FlushOne(names[0], FaultOf(faults, names[0]), s, columns);
      if ok then FlushNames(names[1..], faults, s', columns) else (false, s')
  }

  /** How a table may come out of a flush: untouched, or emptied with some statements applied. */
  ghost predicate Passed(name: string, s: Store, s': Store, columns: map<string, set<string>>) {
    && name in s.buffers && name in s'.buffers && name in s.tables && name in s'.tables
    && (|| (s'.buffers[name] == s.buffers[name] && s'.tables[name] == s.tables[name])
        || (s'.buffers[name] == [] &&
            (name in columns ==>
               exists f ::
                 s'.tables[name] == PartlyFlushed(WritesOf(s.buffers[name], columns[name]), s.tables[name], f))))
  }

  /** A flush touches only the named tables, and each passes. If it succeeds every named table is
      emptied and holds the flush of its rows. */
  lemma {:induction false} FlushNamesPasses(names: seq<string>, faults: map<string, Fault>, s: Store,
                                            columns: map<string, set<string>>, name: string)
    requires forall i, j :: 0 <= i < j < |names| ==> names[i] != names[j]
    requires forall n <- names :: n in s.buffers && n in s.tables
    requires name in s.buffers && name in s.tables
    ensures var (ok, s') := FlushNames(names, faults, s, columns);
      && s'.buffers.Keys == s.buffers.Keys && s'.tables.Keys == s.tables.Keys
      && Passed(name, s, s', columns)
      && (name !in names ==> s'.buffers[name] == s.buffers[name] && s'.tables[name] == s.tables[name])
      && (ok && name in names ==> s'.buffers[name] == [])
      && (ok && name in names && name in columns ==>
            s'.tables[name] == Flushed(WritesOf(s.buffers[name], columns[name]), s.tables[name]))
    decreases |names|
  {
    if names != [] {
      var (ok, s1) := FlushOne(names[0], FaultOf(faults, names[0]), s, columns);
      assert names[0] in names;
      if names[0] == name && name in columns {
        var ws := WritesOf(s.buffers[name], columns[name]);
        assert s1.tables[name] == PartlyFlushed(ws, s.tables[name], Effective(ws, FaultOf(faults, name)));
      }
      if ok {
        FlushNamesPasses(names[1..], faults, s1, columns, name);
      }
    }
  }

  /** Sorting a table's operations by kind, keeping the arrival order inside each kind. */
  method Split(ws: seq<Write>) returns (inserts: seq<Write>, updates: seq<Write>, deletes: seq<Write>)
    ensures inserts == Filter(ws, IsInsert())
    ensures updates == Filter(ws, IsUpdate())
    ensures deletes == Filter(ws, IsDelete())
  {
    inserts, updates, deletes := [], [], [];
    for n := 0 to |ws|
      invariant inserts == Filter(ws[..n], IsInsert())
      invariant updates == Filter(ws[..n], IsUpdate())
      invariant deletes == Filter(ws[..n], IsDelete())
    {
      assert ws[..n + 1] == ws[..n] + [ws[n]];
      FilterConcat(ws[..n], [ws[n]], IsInsert());
      FilterConcat(ws[..n], [ws[n]], IsUpdate());
      FilterConcat(ws[..n], [ws[n]], IsDelete());
      match ws[n]
      case Update(_, _) => updates := updates + [ws[n]];
      case Delete(_) => deletes := deletes + [ws[n]];
      case Insert(_, _) => inserts := inserts + [ws[n]];
    }
    assert ws[..|ws|] == ws;
  }

  class WriteBuffer {
    const db: Database
    const maxSize: nat
    const columns: map<string, set<string>>
    const pkColumns: map<string, string>
    var buffers: map<string, seq<Row>>
    var totalFlushed: nat

    constructor (db: Database, columns: map<string, set<string>>, pkColumns: map<string, string>)
      requires columns.Keys == pkColumns.Keys <= db.tables.Keys
      ensures Valid() && this.db == db && this.columns == columns && this.pkColumns == pkColumns
      ensures maxSize == 10_000 && buffers == map[] && totalFlushed == 0
    {
      this.db, this.columns, this.pkColumns := db, columns, pkColumns;
      this.maxSize := 10_000;
      this.buffers, this.totalFlushed := map[], 0;
    }

    /** Every table of the schema has a primary key and exists in the database. */
    ghost predicate Valid()
      reads this, db
    {
      columns.Keys == pkColumns.Keys <= db.tables.Keys
    }

    function Rows(table: string): seq<Row>
      reads this
    {
      if table in buffers then buffers[table] else []
    }

    method InsertRow(table: string, row: Row) returns (r: Result<(), DbError>)
      modifies this`buffers
      ensures r.Ok? <==> |old(Rows(table))| < maxSize
      ensures Rows(table) == if r.Ok? then old(Rows(table)) + [row] else old(Rows(table))
      ensures forall t :: t != table ==> Rows(t) == old(Rows(t))
    {
      if |Rows(table)| >= maxSize {
        buffers := buffers[table := Rows(table)];
        return Err(BufferFull(table));
      }
      buffers := buffers[table := Rows(table) + [row]];
      return Ok(());
    }

    method UpdateRow(table: string, row: Row) returns (r: Result<(), DbError>)
      modifies this`buffers
      ensures r.Ok? && Rows(table) == old(Rows(table)) + [row.(operation := Some("UPDATE"))]
      ensures forall t :: t != table ==> Rows(t) == old(Rows(t))
    {
      buffers := buffers[table := Rows(table) + [row.(operation := Some("UPDATE"))]];
      return Ok(());
    }

    /** A delete addressed by a column other than the primary key carries no key. */
    method DeleteRow(table: string, pkCol: string, pkValue: Value) returns (r: Result<(), DbError>)
      modifies this`buffers
      ensures var isKey := table in pkColumns && pkColumns[table] == pkCol;
        r.Ok? && Rows(table) ==
          old(Rows(table)) + [Row(if isKey then pkValue else Null, map[], Some("DELETE"))]
      ensures forall t :: t != table ==> Rows(t) == old(Rows(t))
    {
      var isKey := table in pkColumns && pkColumns[table] == pkCol;
      buffers := buffers[table := Rows(table) + [Row(if isKey then pkValue else Null, map[], Some("DELETE"))]];
      return Ok(());
    }

    /** One UPDATE per row that sets a column, in arrival order, up to the failing one. */
    method FlushUpdates(table: string, updates: seq<Write>, f: Fault) returns (ok: bool)
      requires table in db.tables
      modifies db`tables
      ensures ok <==> !(f.UpdateFails? && UpdateIssued(updates, f.index))
      ensures db.tables == old(db.tables)[table :=
        ApplyAll(if ok then updates else updates[..f.index], old(db.tables)[table])]
    {
      var n := 0;
      while n < |updates|
        invariant 0 <= n <= |updates| && (f.UpdateFails? && UpdateIssued(updates, f.index) ==> n <= f.index)
        invariant db.tables == old(db.tables)[table := ApplyAll(updates[..n], old(db.tables)[table])]
      {
        if f == UpdateFails(n) && UpdateIssued(updates, n) {
          return false;
        }
        assert updates[..n + 1] == updates[..n] + [updates[n]];
        ApplyAllConcat(updates[..n], [updates[n]], old(db.tables)[table]);
        db.tables := db.tables[table := Apply(updates[n], db.tables[table])];
        n := n + 1;
      }
      assert updates[..n] == updates;
      return true;
    }

    /** One statement for all rows of a kind, unless there is nothing to issue. */
    method FlushBatch(table: string, ws: seq<Write>, fails: bool) returns (ok: bool)
      requires table in db.tables
      modifies db`tables
      ensures ok <==> !fails
      ensures db.tables == old(db.tables)[table :=
        ApplyAll(if ok then ws else [], old(db.tables)[table])]
    {
      if fails {
        return false;
      }
      db.tables := db.tables[table := ApplyAll(ws, db.tables[table])];
      return true;
    }

    /** The statements of one table's flush, stopping at the one that fails. */
    method WriteStatements(table: string, ws: seq<Write>, f: Fault) returns (ok: bool)
      requires table in db.tables
      modifies db`tables
      ensures ok <==> Effective(ws, f) == NoFault
      ensures db.tables == old(db.tables)[table := PartlyFlushed(ws, old(db.tables)[table], Effective(ws, f))]
    {
      var inserts, updates, deletes := Split(ws);
      ghost var m, t := db.tables, db.tables[table];
      ok := FlushBatch(table, inserts, inserts != [] && (f == InsertFails || !Keyed(ws)));
      if !ok {
        return;
      }
      ghost var inserted := ApplyAll(inserts, t);
      ok := FlushUpdates(table, updates, f);
      ghost var updated := ApplyAll(if ok then updates else updates[..f.index], inserted);
      SetAgain(m, table, inserted, updated);
      if !ok {
        return;
      }
      ok := FlushBatch(table, deletes, f == DeleteFails && DeleteIssued(deletes));
      SetAgain(m, table, updated, ApplyAll(if ok then deletes else [], updated));
    }

    lemma SetAgain(m: map<string, Table>, n: string, t: Table, u: Table)
      ensures m[n := t][n := u] == m[n := u]
    {
    }

    ghost function Snapshot(): Store
      reads this, db
    {
      Store(buffers, db.tables)
    }

    /** Taking a table's rows and writing them. */
    method FlushTable(table: string, f: Fault) returns (r: Result<nat, DbError>)
      requires Valid()
      modifies this`buffers, this`totalFlushed, db`tables
      ensures Valid() && db.shadows == old(db.shadows) && db.tables.Keys == old(db.tables.Keys)
      ensures (r.Ok?, Snapshot()) == FlushOne(table, f, old(Snapshot()), columns)
      ensures r == if r.Ok? then Ok(|old(Rows(table))|) else Err(FlushFailed(table))
      ensures totalFlushed == old(totalFlushed) + if r.Ok? then r.value else 0
    {
      if table !in buffers {
        return Ok(0);
      }
      var rows := buffers[table];
      buffers := buffers[table := []];
      if table in columns {
        var ok := WriteStatements(table, WritesOf(rows, columns[table]), f);
        if !ok {
          return Err(FlushFailed(table));
        }
      }
      totalFlushed := totalFlushed + |rows|;
      return Ok(|rows|);
    }

    /** Flushing every buffered table, in whatever order the map yields its keys, until one fails.
        Tables after the failing one keep their rows. */
    method FlushAll(names: seq<string>, faults: map<string, Fault>)
      returns (r: Result<map<string, nat>, DbError>)
      requires Valid()
      requires (set n | n in names) == buffers.Keys
      modifies this`buffers, this`totalFlushed, db`tables
      ensures Valid() && db.shadows == old(db.shadows) && db.tables.Keys == old(db.tables.Keys)
      ensures (r.Ok?, Snapshot()) == FlushNames(names, faults, old(Snapshot()), columns)
    {
      var stats: map<string, nat> := map[];
      var n := 0;
      while n < |names|
        invariant 0 <= n <= |names| && Valid()
        invariant db.shadows == old(db.shadows) && db.tables.Keys == old(db.tables.Keys)
        invariant FlushNames(names[n..], faults, Snapshot(), columns) ==
                  FlushNames(names, faults, old(Snapshot()), columns)
      {
        assert names[n..][1..] == names[n + 1..];
        var count := FlushTable(names[n], FaultOf(faults, names[n]));
        if count.Err? {
          return Err(count.error);
        }
        if count.value > 0 {
          stats := stats[names[n] := count.value];
        }
        n := n + 1;
      }
      return Ok(stats);
    }
  }
}
