/** The shadow log of crates/forge-index-db/src/reorg.rs as pure functions: how a write is
    recorded, how a recorded row is undone, and what the log of a history of blocks holds. */
module ReorgLog {
  import opened Sequences
  import opened Tables

  datatype Operation = InsertOp | UpdateOp | DeleteOp {
    function Inverse(): Operation {
      match this
      case InsertOp => DeleteOp
      case UpdateOp => UpdateOp
      case DeleteOp => InsertOp
    }
  }

  /** A shadow row: the recorded columns, the operation that undoes the write, and its block. */
  datatype ShadowRow = ShadowRow(key: Value, cells: Cells, op: Operation, block: nat)

  /** The columns of a table besides its primary key, and those that may not be null. */
  datatype Schema = Schema(columns: set<string>, required: set<string>)

  /** Undo reads every column as text; whatever is not text comes back as NULL. */
  function AsText(c: Cells): Cells {
    map n | n in c :: if c[n].Text? then c[n] else Null
  }

  predicate TextOnly(c: Cells) {
    forall n :: n in c ==> c[n].Text? || c[n].Null?
  }

  /** What a text reads back as when it is pasted between apostrophes as it is: two apostrophes in a row
      stand for one, and a single one ends the literal, after which the statement is not valid. */
  function Pasted(s: string): Option<string> {
    if s == "" then Some("")
    else if s[0] != '\'' then Prepended(s[0], Pasted(s[1..]))
    else if |s| >= 2 && s[1] == '\'' then Prepended('\'', Pasted(s[2..]))
    else None
  }

  function Prepended(c: char, s: Option<string>): Option<string> {
    if s.Some? then Some([c] + s.value) else None
  }

  /** An undo that inserts quotes its key properly, and one that sets no column is no statement at all;
      the others paste the key. */
  predicate Pastes(r: ShadowRow) {
    r.op == DeleteOp || (r.op == UpdateOp && r.cells != map[])
  }

  /** Undo needs the primary key as text, and a statement that is valid. */
  predicate Pasteable(r: ShadowRow) {
    r.key.Text? && (Pastes(r) ==> Pasted(r.key.text).Some?)
  }

  /** The key that the undo of a row goes to. */
  function Named(r: ShadowRow): Value {
    if Pasteable(r) && Pastes(r) then Text(Pasted(r.key.text).value) else r.key
  }

  /** A column that may not be null is missing or does not read back as text. */
  predicate Holed(r: ShadowRow, required: set<string>) {
    exists c <- required :: c !in r.cells || !r.cells[c].Text?
  }

  /** The database refuses to set such a column to NULL. An INSERT is refused even if its key is taken,
      an UPDATE only if it finds a row. */
  predicate Refused(r: ShadowRow, t: Table, required: set<string>) {
    match r.op
    case DeleteOp => false
    case InsertOp => Holed(r, required)
    case UpdateOp => Named(r) in t && exists c <- required :: c in r.cells && !r.cells[c].Text?
  }

  /** The undo of one row, when it is not refused. */
  function Undo(r: ShadowRow, t: Table): Table {
    match r.op
    case DeleteOp => t - {Named(r)}
    case InsertOp => if r.key in t then t else t[r.key := AsText(r.cells)]
    case UpdateOp => if Named(r) in t then t[Named(r) := t[Named(r)] + AsText(r.cells)] else t
  }

  function UndoAll(rows: seq<ShadowRow>, t: Table): Table {
    if rows == [] then t else UndoAll(rows[1..], Undo(rows[0], t))
  }

  /** Replaying stops at the first row whose statement cannot be made or is refused. */
  function FirstStuck(rows: seq<ShadowRow>, t: Table, required: set<string>): (n: nat)
    ensures n <= |rows|
    ensures n == |rows| ==> forall r <- rows :: Pasteable(r) && (r.op == InsertOp ==> !Holed(r, required))
  {
    if rows == [] || !Pasteable(rows[0]) || Refused(rows[0], t, required) then 0
    else
      var n := FirstStuck(rows[1..], Undo(rows[0], t), required);
      assert rows == [rows[0]] + rows[1..];
      1 + n
  }

  /** Replaying rows on table u goes through and gives t. */
  predicate Undoes(rows: seq<ShadowRow>, u: Table, t: Table, required: set<string>) {
    FirstStuck(rows, u, required) == |rows| && UndoAll(rows, u) == t
  }

  function AtOrAfter(b: nat): ShadowRow -> bool {
    (r: ShadowRow) => r.block >= b
  }

  function Before(b: nat): ShadowRow -> bool {
    (r: ShadowRow) => r.block < b
  }

  function Above(log: seq<ShadowRow>, b: nat): seq<ShadowRow> {
    Filter(log, AtOrAfter(b))
  }

  function Below(log: seq<ShadowRow>, b: nat): seq<ShadowRow> {
    Filter(log, Before(b))
  }

  predicate Descending(rows: seq<ShadowRow>) {
    forall i, j :: 0 <= i < j < |rows| ==> rows[i].block >= rows[j].block
  }

  /** A possible answer to the query for the rows at or after block b: those rows, newest block
      first, in any order inside a block. */
  ghost predicate Selection(rows: seq<ShadowRow>, log: seq<ShadowRow>, b: nat) {
    multiset(rows) == multiset(Above(log, b)) && Descending(rows)
  }

  // Histories

  datatype BlockWrites = BlockWrites(number: nat, writes: seq<Write>)

  type History = seq<BlockWrites>

  predicate Full(c: Cells, s: Schema) {
    c.Keys == s.columns && forall n <- s.required :: n in c && c[n] != Null
  }

  predicate Typed(t: Table, columns: set<string>) {
    forall k :: k in t ==> t[k].Keys == columns
  }

  predicate Filled(t: Table, s: Schema) {
    s.required <= s.columns && forall k :: k in t ==> Full(t[k], s)
  }

  /** Main and shadow table accept every write: no key and no required column is null. An update or delete
      that finds no row is recorded with NULL in every column, so it is refused if one is required. */
  predicate Recordable(ws: seq<Write>, t: Table, s: Schema) {
    ws == [] ||
    (&& ws[0].key != Null
     && (match ws[0]
         case Insert(k, c) => Full(c, s)
         case Update(k, c) =>
           && c.Keys <= s.columns && (forall n <- s.required :: n in c ==> c[n] != Null)
           && (k in t || s.required == {})
         case Delete(k) => k in t || s.required == {})
     && Recordable(ws[1..], Apply(ws[0], t), s))
  }

  /** Blocks in ascending order, each one recordable on the table its predecessors built. */
  predicate WellFormed(h: History, t: Table, s: Schema) {
    if h == [] then Filled(t, s)
    else
      var front, last := h[..|h| - 1], h[|h| - 1];
      && WellFormed(front, t, s)
      && (front == [] || front[|front| - 1].number < last.number)
      && Recordable(last.writes, After(front, t), s)
  }

  function After(h: History, t: Table): Table {
    if h == [] then t
    else ApplyAll(h[|h| - 1].writes, After(h[..|h| - 1], t))
  }

  /** The blocks of a history numbered below b. */
  function UpTo(h: History, b: nat): History {
    if h == [] || h[|h| - 1].number < b then h else UpTo(h[..|h| - 1], b)
  }

  function Nulls(columns: set<string>): Cells {
    map c | c in columns :: Null
  }

  function PreImageOf(k: Value, t: Table, columns: set<string>): Cells {
    if k in t then t[k] else Nulls(columns)
  }

  /** The shadow row recorded for a write made on table t: an update or delete carries its pre-image. */
  function Record(w: Write, t: Table, b: nat, columns: set<string>): ShadowRow {
    match w
    case Insert(k, c) => ShadowRow(k, c, InsertOp.Inverse(), b)
    case Update(k, c) => ShadowRow(k, PreImageOf(k, t, columns), UpdateOp.Inverse(), b)
    case Delete(k) => ShadowRow(k, PreImageOf(k, t, columns), DeleteOp.Inverse(), b)
  }

  function Records(ws: seq<Write>, t: Table, b: nat, columns: set<string>): seq<ShadowRow> {
    if ws == [] then [] else [Record(ws[0], t, b, columns)] + Records(ws[1..], Apply(ws[0], t), b, columns)
  }

  function Log(h: History, t: Table, columns: set<string>): seq<ShadowRow> {
    if h == [] then []
    else
      var front, last := h[..|h| - 1], h[|h| - 1];
      Log(front, t, columns) + Records(last.writes, After(front, t), last.number, columns)
  }

  // What makes the undo of one block independent of the order of its rows

  /** The rows whose undo goes to key k take it from its row in u to that in t, in any order. */
  ghost predicate KeySettled(recs: seq<ShadowRow>, t: Table, u: Table, k: Value) {
    if k in t then
      && (forall r <- recs :: Named(r) == k ==> r.op != DeleteOp)
      && if k in u then
           && (forall r <- recs :: Named(r) == k && r.op == UpdateOp ==> AsText(r.cells) == t[k])
           && (u[k] == t[k] || exists r <- recs :: Named(r) == k && r.op == UpdateOp)
         else
           && (forall r <- recs :: Named(r) == k ==> AsText(r.cells) == t[k])
           && (exists r <- recs :: Named(r) == k && r.op == InsertOp)
    else
      && (forall r <- recs :: Named(r) == k ==> r.op != InsertOp)
      && (k in u ==> exists r <- recs :: Named(r) == k && r.op == DeleteOp)
  }

  /** No order of the rows sets a required column to NULL. */
  predicate NullSafe(recs: seq<ShadowRow>, t: Table, u: Table, required: set<string>) {
    forall r <- recs :: Holed(r, required) ==>
      r.op == DeleteOp || (r.op == UpdateOp && Named(r) !in t && Named(r) !in u)
  }

  ghost predicate Settled(recs: seq<ShadowRow>, t: Table, u: Table, required: set<string>) {
    (forall k :: KeySettled(recs, t, u, k)) && NullSafe(recs, t, u, required)
  }

  predicate SafeRow(r: ShadowRow, t: Table, required: set<string>) {
    if r.key in t then r.op != DeleteOp && AsText(r.cells) == t[r.key]
    else r.op == DeleteOp || (r.op == UpdateOp && !Holed(r, required))
  }

  /** For keys without apostrophes: a key absent before the block is never deleted in it, and no update of
      it has to restore NULL in a required column; a key present before it is never inserted in it, and
      every recorded pre-image of it reads back as its row from before the block. */
  predicate TieSafe(recs: seq<ShadowRow>, t: Table, required: set<string>) {
    forall r <- recs :: SafeRow(r, t, required)
  }

  ghost predicate Undoable(h: History, t: Table, s: Schema) {
    h == [] ||
    (var front, last := h[..|h| - 1], h[|h| - 1];
     && Undoable(front, t, s)
     && Settled(Records(last.writes, After(front, t), last.number, s.columns), After(front, t),
                ApplyAll(last.writes, After(front, t)), s.required))
  }
}
