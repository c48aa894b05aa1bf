/** Values, rows and tables shared by the write buffer and the reorg store.
    A Postgres table with a primary key is a map from key value to the other columns,
    and each SQL statement is one atomic change of that map. */
module Tables {

  datatype Option<+T> = None | Some(value: T)

  datatype Result<+T, +E> = Ok(value: T) | Err(error: E)

  /** A column value (crates/forge-index-db/src/row.rs:8-27). */
  datatype Value =
    | Text(text: string)
    | Boolean(flag: bool)
    | Int(int32: int)
    | BigInt(int64: int)
    | Float(double: real)
    | Bytes(bytes: seq<bv8>)
    | Json(json: string)
    | Null
    | BigNumeric(digits: string)

  type Cells = map<string, Value>

  type Table = map<Value, Cells>

  datatype DbError =
    | BufferFull(table: string)
    | FlushFailed(table: string)
    | QueryFailed(table: string)
    | KeyNotText(table: string)

  /** One row operation on a table, as the source's SQL statements perform it. */
  datatype Write =
    | Insert(key: Value, cells: Cells)
    | Update(key: Value, cells: Cells)
    | Delete(key: Value)

  /** INSERT does nothing on a key conflict, UPDATE sets the listed columns of an existing row. */
  function Apply(w: Write, t: Table): Table {
    match w
    case Insert(k, c) => if k in t then t else t[k := c]
    case Update(k, c) => if k in t then t[k := t[k] + c] else t
    case Delete(k) => t - {k}
  }

  function ApplyAll(ws: seq<Write>, t: Table): Table {
    if ws == [] then t else ApplyAll(ws[1..], Apply(ws[0], t))
  }

  /** What a table holds under one key. */
  function Slot(t: Table, k: Value): Option<Cells> {
    if k in t then Some(t[k]) else None
  }

  lemma TablesEqual(t: Table, u: Table)
    requires forall k :: Slot(t, k) == Slot(u, k)
    ensures t == u
  {
    forall k: Value
      ensures k in t <==> k in u
      ensures k in t && k in u ==> t[k] == u[k]
    {
      assert Slot(t, k) == Slot(u, k);
    }
  }

  lemma {:induction false} ApplyAllConcat(a: seq<Write>, b: seq<Write>, t: Table)
    ensures ApplyAll(a + b, t) == ApplyAll(b, ApplyAll(a, t))
  {
    if a == [] {
      assert a + b == b;
    } else {
      assert (a + b)[1..] == a[1..] + b;
      ApplyAllConcat(a[1..], b, Apply(a[0], t));
    }
  }
}
