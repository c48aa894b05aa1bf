/** Inputs on which a rollback does not restore the earlier table: what each condition of exact rollback is for. */
module RollbackCases {
  import opened Tables
  import opened ReorgLog
  import opened Rollback
  import opened Sequences

  function Block(ws: seq<Write>): History {
    [BlockWrites(1, ws)]
  }

  /** The block takes table t to u, and `rows` are a possible answer to the rollback from it. */
  ghost predicate Answers(rows: seq<ShadowRow>, h: History, t: Table, u: Table, s: Schema) {
    && WellFormed(h, t, s) && After(h, t) == u && After(UpTo(h, 1), t) == t
    && Selection(rows, Log(h, t, s.columns), 1)
  }

  /** Any order of the rows of one block answers its rollback. */
  lemma AnyOrderAnswers(ws: seq<Write>, t: Table, u: Table, s: Schema, recs: seq<ShadowRow>, rows: seq<ShadowRow>)
    requires Filled(t, s) && Recordable(ws, t, s)
    requires ApplyAll(ws, t) == u && Records(ws, t, 1, s.columns) == recs && multiset(rows) == multiset(recs)
    ensures Answers(rows, Block(ws), t, u, s)
  {
    OneBlock(Block(ws), t, s);
    BlockKept(ws, t, 1, s);
    FilterMembers(recs, AtOrAfter(1));
    SameElements(rows, recs);
  }

  lemma OneBlock(h: History, t: Table, s: Schema)
    requires |h| == 1 && h[0].number == 1 && Filled(t, s) && Recordable(h[0].writes, t, s)
    ensures WellFormed(h, t, s) && After(h, t) == ApplyAll(h[0].writes, t)
    ensures Log(h, t, s.columns) == Records(h[0].writes, t, 1, s.columns) && After(UpTo(h, 1), t) == t
  {
    assert h[..0] == [] && UpTo([], 1) == [];
    assert WellFormed([], t, s) && After([], t) == t && Log([], t, s.columns) == [];
  }

  // What single rows do

  /** Undoing an update replaces a row with the same columns, or is refused. */
  lemma UndoUpdate(r: ShadowRow, c: Cells, s: Schema)
    requires r.op == UpdateOp && PlainKey(r.key) && c.Keys == r.cells.Keys == s.columns && s.required <= s.columns
    ensures Pasteable(r) && Undo(r, map[r.key := c]) == map[r.key := AsText(r.cells)]
    ensures Refused(r, map[r.key := c], s.required) <==> Holed(r, s.required)
  {
    PastedIff(r.key.text);
    assert c + AsText(r.cells) == AsText(r.cells);
  }

  lemma OneUndone(r: ShadowRow, t: Table, required: set<string>)
    ensures Undoes([r], t, Undo(r, t), required) <==> Pasteable(r) && !Refused(r, t, required)
    ensures !Undoes([r], t, Undo(r, t), required) ==> FirstStuck([r], t, required) == 0
  {
    assert [r][1..] == [];
    assert UndoAll([r], t) == UndoAll([], Undo(r, t));
    assert FirstStuck([], Undo(r, t), required) == 0;
  }

  lemma TwoUndone(first: ShadowRow, second: ShadowRow, t: Table, required: set<string>)
    requires Pasteable(first) && !Refused(first, t, required)
    requires Pasteable(second) && !Refused(second, Undo(first, t), required)
    ensures Undoes([first, second], t, Undo(second, Undo(first, t)), required)
  {
    assert [first, second][1..] == [second];
    OneUndone(second, Undo(first, t), required);
  }

  lemma OneInsert(k: Value, c: Cells, t: Table, s: Schema)
    requires k != Null && k !in t && Full(c, s)
    ensures var ws := [Insert(k, c)];
      && Recordable(ws, t, s) && ApplyAll(ws, t) == t[k := c]
      && Records(ws, t, 1, s.columns) == [ShadowRow(k, c, DeleteOp, 1)]
  {
    var ws := [Insert(k, c)];
    assert ws[1..] == [] && Apply(ws[0], t) == t[k := c];
    assert ApplyAll(ws, t) == ApplyAll([], t[k := c]);
    assert Records(ws, t, 1, s.columns) == [Record(ws[0], t, 1, s.columns)] + Records([], t[k := c], 1, s.columns);
  }

  lemma OneUpdate(k: Value, a: Cells, b: Cells, s: Schema)
    requires k != Null && Full(a, s) && Full(b, s)
    ensures var t: Table := map[k := a];
      var ws := [Update(k, b)];
      && Recordable(ws, t, s) && ApplyAll(ws, t) == map[k := b]
      && Records(ws, t, 1, s.columns) == [ShadowRow(k, a, UpdateOp, 1)]
  {
    var t: Table := map[k := a];
    var ws := [Update(k, b)];
    assert a + b == b;
    assert Apply(ws[0], t) == map[k := b];
    assert ws[1..] == [];
    assert ApplyAll(ws, t) == ApplyAll([], Apply(ws[0], t));
    assert Records(ws, t, 1, s.columns) ==
           [Record(ws[0], t, 1, s.columns)] + Records([], Apply(ws[0], t), 1, s.columns);
  }

  lemma TwoUpdates(k: Value, a: Cells, b: Cells, s: Schema)
    requires k != Null && Full(a, s) && Full(b, s)
    ensures var t: Table := map[k := a];
      var ws := [Update(k, b), Update(k, a)];
      && Recordable(ws, t, s) && ApplyAll(ws, t) == t
      && Records(ws, t, 1, s.columns) == [ShadowRow(k, a, UpdateOp, 1), ShadowRow(k, b, UpdateOp, 1)]
  {
    var t: Table := map[k := a];
    var ws := [Update(k, b), Update(k, a)];
    assert a + b == b && Apply(ws[0], t) == map[k := b] && ws[1..] == [Update(k, a)];
    OneUpdate(k, b, a, s);
  }

  lemma InsertAndUpdate(k: Value, a: Cells, b: Cells, s: Schema)
    requires k != Null && Full(a, s) && Full(b, s)
    ensures var ws := [Insert(k, a), Update(k, b)];
      && Recordable(ws, map[], s) && ApplyAll(ws, map[]) == map[k := b]
      && Records(ws, map[], 1, s.columns) == [ShadowRow(k, a, DeleteOp, 1), ShadowRow(k, a, UpdateOp, 1)]
  {
    var ws := [Insert(k, a), Update(k, b)];
    assert ws[1..] == [Update(k, b)] && Apply(ws[0], map[]) == map[k := a];
    OneUpdate(k, a, b, s);
  }

  // The cases

  /** Any text row set from a to another value b and back in one block: if the rows come back in the order in
      which they were recorded, the rollback leaves b. */
  lemma TiesMatter(k: Value, a: Cells, b: Cells, s: Schema)
    requires PlainKey(k) && TextOnly(a) && TextOnly(b) && Full(a, s) && Full(b, s) && a != b && s.required <= s.columns
    ensures var t: Table := map[k := a];
      var rows := [ShadowRow(k, a, UpdateOp, 1), ShadowRow(k, b, UpdateOp, 1)];
      && Answers(rows, Block([Update(k, b), Update(k, a)]), t, t, s)
      && Undoes(rows, t, map[k := b], s.required)
  {
    var first, second := ShadowRow(k, a, UpdateOp, 1), ShadowRow(k, b, UpdateOp, 1);
    TwoUpdates(k, a, b, s);
    AnyOrderAnswers([Update(k, b), Update(k, a)], map[k := a], map[k := a], s, [first, second], [first, second]);
    AsTextSame(a);
    AsTextSame(b);
    UndoUpdate(first, a, s);
    UndoUpdate(second, a, s);
    TwoUndone(first, second, map[k := a], s.required);
  }

  /** One update of a row with a column c that is not text. If no such column is required, the rollback goes
      through and sets c to NULL; otherwise the database refuses it and the new row stays. */
  lemma TextMatters(k: Value, a: Cells, b: Cells, c: string, s: Schema)
    requires PlainKey(k) && Full(a, s) && Full(b, s) && s.required <= s.columns
    requires c in a && !a[c].Text? && a[c] != Null
    ensures var rows := [ShadowRow(k, a, UpdateOp, 1)];
      && Answers(rows, Block([Update(k, b)]), map[k := a], map[k := b], s)
      && if forall n <- s.required :: a[n].Text? then Undoes(rows, map[k := b], map[k := AsText(a)], s.required)
         else FirstStuck(rows, map[k := b], s.required) == 0
    ensures AsText(a)[c] == Null != a[c]
  {
    var row := ShadowRow(k, a, UpdateOp, 1);
    OneUpdate(k, a, b, s);
    AnyOrderAnswers([Update(k, b)], map[k := a], map[k := b], s, [row], [row]);
    UndoUpdate(row, b, s);
    OneUndone(row, map[k := b], s.required);
  }

  /** A row inserted and then updated in one block, with a required column that is not text: if the update
      comes back first, its undo is refused and nothing is rolled back. */
  lemma NewRowSticks(k: Value, a: Cells, b: Cells, n: string, s: Schema)
    requires PlainKey(k) && Full(a, s) && Full(b, s) && s.required <= s.columns
    requires n in s.required && !a[n].Text?
    ensures var rows := [ShadowRow(k, a, UpdateOp, 1), ShadowRow(k, a, DeleteOp, 1)];
      && Answers(rows, Block([Insert(k, a), Update(k, b)]), map[], map[k := b], s)
      && FirstStuck(rows, map[k := b], s.required) == 0
  {
    var second, first := ShadowRow(k, a, UpdateOp, 1), ShadowRow(k, a, DeleteOp, 1);
    InsertAndUpdate(k, a, b, s);
    assert multiset([second, first]) == multiset([first, second]);
    AnyOrderAnswers([Insert(k, a), Update(k, b)], map[], map[k := b], s, [first, second], [second, first]);
    UndoUpdate(second, b, s);
  }

  /** A key whose apostrophes come in pairs names another one: undoing its insert leaves it, and deletes the
      other. */
  lemma PairedApostrophes(key: string, c: Cells, s: Schema)
    requires '\'' in key && Pasted(key).Some? && Full(c, s) && s.required <= s.columns
    ensures var wrong, other := Text(key), Text(Pasted(key).value);
      var rows := [ShadowRow(wrong, c, DeleteOp, 1)];
      && Answers(rows, Block([Insert(wrong, c)]), map[other := c], map[other := c, wrong := c], s)
      && wrong != other && Undoes(rows, map[other := c, wrong := c], map[wrong := c], s.required)
  {
    PastedIff(key);
    Misnamed(Text(key), Text(Pasted(key).value), c, s);
  }

  lemma Misnamed(wrong: Value, other: Value, c: Cells, s: Schema)
    requires var row := ShadowRow(wrong, c, DeleteOp, 1); Pasteable(row) && Named(row) == other
    requires wrong != other && Full(c, s) && s.required <= s.columns
    ensures var rows := [ShadowRow(wrong, c, DeleteOp, 1)];
      && Answers(rows, Block([Insert(wrong, c)]), map[other := c], map[other := c, wrong := c], s)
      && Undoes(rows, map[other := c, wrong := c], map[wrong := c], s.required)
  {
    var t: Table := map[other := c];
    var row := ShadowRow(wrong, c, DeleteOp, 1);
    OneInsert(wrong, c, t, s);
    assert t[wrong := c] == map[other := c, wrong := c];
    AnyOrderAnswers([Insert(wrong, c)], t, t[wrong := c], s, [row], [row]);
    assert Undo(row, t[wrong := c]) == map[wrong := c];
    OneUndone(row, t[wrong := c], s.required);
  }
}
