/** The reorg store of crates/forge-index-db/src/reorg.rs over a database of main and shadow tables. */
module ReorgStores {
  import opened Tables
  import opened ReorgLog
  import opened BlockUndo
  import opened Rollback

  class Database {
    const schemas: map<string, Schema>
    var tables: map<string, Table>
    var shadows: map<string, seq<ShadowRow>>

    constructor (schemas: map<string, Schema>)
      ensures Valid() && this.schemas == schemas
      ensures forall n <- schemas :: tables[n] == map[] && shadows[n] == []
    {
      this.schemas := schemas;
      tables := map n | n in schemas :: map[];
      shadows := map n | n in schemas :: [];
    }

    /** Each main table is created together with its shadow table. */
    ghost predicate Valid()
      reads this
    {
      tables.Keys == shadows.Keys == schemas.Keys
    }
  }

  /** The columns of a table that may not be null. */
  function Required(schemas: map<string, Schema>, table: string): set<string> {
    if table in schemas then schemas[table].required else {}
  }

  /** A row handed to the store or the write buffer: its primary key value (NULL when the column is
      missing), its other columns, and the buffer's operation marker. */
  datatype Row = Row(key: Value, cells: Cells, operation: Option<string>)

  function ShadowOf(row: Row, op: Operation, block: nat, columns: set<string>): ShadowRow {
    ShadowRow(row.key, map c | c in columns :: if c in row.cells then row.cells[c] else Null, op.Inverse(), block)
  }

  function ShadowsOf(rows: seq<Row>, op: Operation, block: nat, columns: set<string>): (r: seq<ShadowRow>)
    ensures |r| == |rows|
  {
    seq(|rows|, i requires 0 <= i < |rows| => ShadowOf(rows[i], op, block, columns))
  }

  /** The columns that may not be null have a value, and so does the key. */
  predicate Complete(r: ShadowRow, required: set<string>) {
    r.key != Null && forall c <- required :: c in r.cells && r.cells[c] != Null
  }

  /** The rows that recording inserts before it meets an incomplete one. */
  function Recordings(rows: seq<ShadowRow>, required: set<string>): (n: nat)
    ensures n <= |rows|
    ensures forall i :: 0 <= i < n ==> Complete(rows[i], required)
    ensures n < |rows| ==> !Complete(rows[n], required)
  {
    if rows == [] || !Complete(rows[0], required) then 0 else 1 + Recordings(rows[1..], required)
  }

  class ReorgStore {
    const db: Database

    constructor (db: Database)
      ensures this.db == db
    {
      this.db := db;
    }

    /** Rows are recorded one by one; a shadow table has the NOT NULL columns of its main table. */
    method RecordFlush(table: string, rows: seq<Row>, op: Operation, block: nat, columns: set<string>)
      returns (r: Result<(), DbError>)
      modifies db`shadows
      ensures var shadows := ShadowsOf(rows, op, block, columns);
        var n := Recordings(shadows, Required(db.schemas, table));
        && (r.Ok? <==> rows == [] || (table in old(db.shadows) && n == |rows|))
        && db.shadows == if table !in old(db.shadows) then old(db.shadows)
                         else old(db.shadows)[table := old(db.shadows)[table] + shadows[..n]]
    {
      var i := 0;
      var before := if table in db.shadows then db.shadows[table] else [];
      var required := Required(db.schemas, table);
      ghost var shadows := ShadowsOf(rows, op, block, columns);
      assert before + shadows[..0] == before;
      while i < |rows|
        invariant 0 <= i <= Recordings(shadows, required)
        invariant i > 0 ==> table in old(db.shadows)
        invariant table !in old(db.shadows) ==> db.shadows == old(db.shadows)
        invariant table in old(db.shadows) ==> db.shadows == old(db.shadows)[table := before + shadows[..i]]
      {
        var shadow := ShadowOf(rows[i], op, block, columns);
        assert shadow == shadows[i];
        if table !in db.shadows || !Complete(shadow, required) {
          return Err(FlushFailed(table));
        }
        assert before + shadows[..i] + [shadow] == before + shadows[..i + 1];
        SetAgain(old(db.shadows), table, before + shadows[..i], before + shadows[..i + 1]);
        db.shadows := db.shadows[table := db.shadows[table] + [shadow]];
        i := i + 1;
      }
      return Ok(());
    }

    lemma SetAgain(m: map<string, seq<ShadowRow>>, n: string, a: seq<ShadowRow>, b: seq<ShadowRow>)
      ensures m[n := a][n := b] == m[n := b]
    {
    }

    /** `rows` is the database's answer to the query for the shadow rows at or after the block. */
    method RollbackFromBlock(table: string, block: nat, rows: seq<ShadowRow>) returns (r: Result<nat, DbError>)
      requires db.Valid()
      requires table in db.shadows ==> Selection(rows, db.shadows[table], block)
      modifies db
      ensures db.Valid()
      ensures table !in old(db.shadows) ==> r.Err? && db.tables == old(db.tables) && db.shadows == old(db.shadows)
      ensures table in old(db.shadows) ==>
        var t := old(db.tables)[table];
        var n := FirstStuck(rows, t, db.schemas[table].required);
        && (r.Ok? <==> n == |rows|) && (r.Ok? ==> r.value == |rows|)
        && db.tables == old(db.tables)[table := UndoAll(rows[..n], t)]
        && db.shadows == if r.Err? then old(db.shadows)
                         else old(db.shadows)[table := Below(old(db.shadows)[table], block)]
    {
      if table !in db.shadows {
        return Err(QueryFailed(table));
      }
      var affected := 0;
      var required := db.schemas[table].required;
      ghost var before, t := db.tables, db.tables[table];
      while affected < |rows|
        invariant 0 <= affected <= FirstStuck(rows, t, required)
        invariant db.tables == before[table := UndoAll(rows[..affected], t)]
        invariant db.shadows == old(db.shadows)
      {
        var row := rows[affected];
        StuckHere(rows, affected, t, required);
        if !Pasteable(row) || Refused(row, db.tables[table], required) {
          return Err(if row.key.Text? then FlushFailed(table) else KeyNotText(table));
        }
        SetTable(before, table, UndoAll(rows[..affected], t), Undo(row, db.tables[table]));
        db.tables := db.tables[table := Undo(row, db.tables[table])];
        affected := affected + 1;
      }
      db.shadows := db.shadows[table := Below(db.shadows[table], block)];
      return Ok(affected);
    }

    /** Whether replaying goes on behind the rows already replayed. */
    lemma StuckHere(rows: seq<ShadowRow>, n: nat, t: Table, required: set<string>)
      requires n < |rows| && n <= FirstStuck(rows, t, required)
      ensures var x := UndoAll(rows[..n], t);
        && UndoAll(rows[..n + 1], t) == Undo(rows[n], x)
        && (n + 1 <= FirstStuck(rows, t, required) <==> Pasteable(rows[n]) && !Refused(rows[n], x, required))
    {
      var x := UndoAll(rows[..n], t);
      assert rows == rows[..n] + rows[n..];
      StuckConcat(rows[..n], rows[n..], t, required);
      assert rows[..n + 1] == rows[..n] + [rows[n]];
      UndoAllConcat(rows[..n], [rows[n]], t);
      assert UndoAll([rows[n]], x) == Undo(rows[n], x);
    }

    lemma SetTable(m: map<string, Table>, n: string, a: Table, b: Table)
      ensures m[n := a][n := b] == m[n := b]
    {
    }

    method ClearBeforeBlock(table: string, block: nat) returns (r: Result<(), DbError>)
      modifies db`shadows
      ensures r.Ok? <==> table in old(db.shadows)
      ensures db.shadows == if r.Err? then old(db.shadows)
        else old(db.shadows)[table := Above(old(db.shadows)[table], block)]
    {
      if table !in db.shadows {
        return Err(FlushFailed(table));
      }
      db.shadows := db.shadows[table := Above(db.shadows[table], block)];
      return Ok(());
    }
  }

  function OperationOf(w: Write): Operation {
    match w
    case Insert(_, _) => InsertOp
    case Update(_, _) => UpdateOp
    case Delete(_) => DeleteOp
  }

  /** The row a caller passes to record a write: the new row of an insert, else the row as it was. */
  function PreImage(w: Write, t: Table): Row {
    Row(w.key, if w.Insert? then w.cells else if w.key in t then t[w.key] else map[], None)
  }

  lemma FirstRecorded(w: Write, t: Table, b: nat, s: Schema)
    requires Recordable([w], t, s) && Filled(t, s)
    ensures Record(w, t, b, s.columns) == ShadowOf(PreImage(w, t), OperationOf(w), b, s.columns)
    ensures Complete(Record(w, t, b, s.columns), s.required)
  {
    var c := PreImage(w, t).cells;
    var cells := ShadowOf(PreImage(w, t), OperationOf(w), b, s.columns).cells;
    if c == map[] {
      assert cells == Nulls(s.columns);
    } else {
      assert cells == c;
    }
  }

  /** Recording pre-images write by write produces the shadow log the rollback theorems speak of, and no
      recording is refused. */
  lemma {:induction false} RecordingPreImages(ws: seq<Write>, t: Table, b: nat, s: Schema, i: nat)
    requires Filled(t, s) && Recordable(ws, t, s) && i < |ws|
    ensures |Records(ws, t, b, s.columns)| == |ws|
    ensures var shadow := Records(ws, t, b, s.columns)[i];
      && shadow == ShadowOf(PreImage(ws[i], ApplyAll(ws[..i], t)), OperationOf(ws[i]), b, s.columns)
      && Complete(shadow, s.required)
  {
    RecordsLength(ws, t, b, s.columns);
    if i == 0 {
      assert ws[..0] == [];
      FirstRecorded(ws[0], t, b, s);
    } else {
      BlockKept([ws[0]], t, b, s);
      assert ApplyAll([ws[0]], t) == Apply(ws[0], t);
      RecordingPreImages(ws[1..], Apply(ws[0], t), b, s, i - 1);
      assert ws[..i][1..] == ws[1..][..i - 1];
    }
  }

  lemma {:induction false} RecordsLength(ws: seq<Write>, t: Table, b: nat, columns: set<string>)
    ensures |Records(ws, t, b, columns)| == |ws|
  {
    if ws != [] {
      RecordsLength(ws[1..], Apply(ws[0], t), b, columns);
    }
  }
}
