/** Flushing a table's buffer regroups its operations as inserts, then updates, then deletes.
    This module says exactly when that gives the table the arrival order gives
    (crates/forge-index-db/src/buffer.rs:119-303). */
module Flush {
  import opened Tables
  import opened Sequences

  function IsInsert(): Write -> bool { (w: Write) => w.Insert? }

  function IsUpdate(): Write -> bool { (w: Write) => w.Update? }

  function IsDelete(): Write -> bool { (w: Write) => w.Delete? }

  function OnKey(k: Value): Write -> bool { (w: Write) => w.key == k }

  /** The table after a flush. */
  function Flushed(ws: seq<Write>, t: Table): Table {
    ApplyAll(Filter(ws, IsDelete()), ApplyAll(Filter(ws, IsUpdate()), ApplyAll(Filter(ws, IsInsert()), t)))
  }

  // The condition

  predicate HasInsert(ws: seq<Write>) {
    exists w <- ws :: w.Insert?
  }

  predicate HasDelete(ws: seq<Write>) {
    exists w <- ws :: w.Delete?
  }

  function AfterLastDelete(ws: seq<Write>): seq<Write> {
    if ws == [] then []
    else if HasDelete(ws[1..]) then AfterLastDelete(ws[1..])
    else if ws[0].Delete? then ws[1..]
    else ws
  }

  function FirstInsert(ws: seq<Write>): (i: nat)
    ensures i <= |ws|
    ensures i < |ws| <==> HasInsert(ws)
    ensures i < |ws| ==> ws[i].Insert?
    ensures forall j :: 0 <= j < i ==> !ws[j].Insert?
  {
    if ws == [] then 0
    else if ws[0].Insert? then 0
    else 1 + FirstInsert(ws[1..])
  }

  /** The columns a run of updates sets, later ones winning. */
  function Merged(ws: seq<Write>): Cells {
    if ws == [] then map[]
    else (if ws[0].Update? then ws[0].cells else map[]) + Merged(ws[1..])
  }

  /** The operations on one key survive regrouping: nothing is inserted after the last delete; and
      when there is no delete and the row is new, every column that updates set before the insert
      is set again after it or has the inserted value anyway. */
  predicate KeySafe(own: seq<Write>, present: bool) {
    if HasDelete(own) then !HasInsert(AfterLastDelete(own))
    else
      present || !HasInsert(own) ||
      var i := FirstInsert(own);
      Absorbs(own[i].cells, Merged(own[..i]), Merged(own[i + 1..]))
  }

  /** Every column of `early` is set again in `late` or has the same value in the row already. */
  predicate Absorbs(row: Cells, early: Cells, late: Cells) {
    forall c :: c in early ==> c in late || (c in row && row[c] == early[c])
  }

  ghost predicate FlushSafe(ws: seq<Write>, t: Table) {
    forall k :: KeySafe(Filter(ws, OnKey(k)), k in t)
  }

  // One key

  function ApplySlot(w: Write, s: Option<Cells>): Option<Cells> {
    match w
    case Insert(_, c) => if s.Some? then s else Some(c)
    case Update(_, c) => if s.Some? then Some(s.value + c) else None
    case Delete(_) => None
  }

  function ApplySlots(ws: seq<Write>, s: Option<Cells>): Option<Cells> {
    if ws == [] then s else ApplySlots(ws[1..], ApplySlot(ws[0], s))
  }

  function FlushSlot(ws: seq<Write>, s: Option<Cells>): Option<Cells> {
    ApplySlots(Filter(ws, IsDelete()), ApplySlots(Filter(ws, IsUpdate()), ApplySlots(Filter(ws, IsInsert()), s)))
  }

  /** A key's slot depends on that key's operations only. */
  lemma {:induction false} SlotOfApplyAll(ws: seq<Write>, t: Table, k: Value)
    ensures Slot(ApplyAll(ws, t), k) == ApplySlots(Filter(ws, OnKey(k)), Slot(t, k))
  {
    if ws != [] {
      SlotOfApplyAll(ws[1..], Apply(ws[0], t), k);
      if ws[0].key == k {
        assert Filter(ws, OnKey(k)) == [ws[0]] + Filter(ws[1..], OnKey(k));
      } else {
        assert Filter(ws, OnKey(k)) == Filter(ws[1..], OnKey(k));
      }
    }
  }

  lemma FilterSwap(ws: seq<Write>, p: Write -> bool, k: Value)
    ensures Filter(Filter(ws, p), OnKey(k)) == Filter(Filter(ws, OnKey(k)), p)
  {
    var both := (w: Write) => p(w) && w.key == k;
    FilterAgain(ws, p, OnKey(k), both);
    FilterAgain(ws, OnKey(k), p, both);
  }

  lemma SlotOfFlushed(ws: seq<Write>, t: Table, k: Value)
    ensures Slot(Flushed(ws, t), k) == FlushSlot(Filter(ws, OnKey(k)), Slot(t, k))
  {
    var t1 := ApplyAll(Filter(ws, IsInsert()), t);
    var t2 := ApplyAll(Filter(ws, IsUpdate()), t1);
    SlotOfApplyAll(Filter(ws, IsInsert()), t, k);
    SlotOfApplyAll(Filter(ws, IsUpdate()), t1, k);
    SlotOfApplyAll(Filter(ws, IsDelete()), t2, k);
    FilterSwap(ws, IsInsert(), k);
    FilterSwap(ws, IsUpdate(), k);
    FilterSwap(ws, IsDelete(), k);
  }

  lemma {:induction false} ApplySlotsConcat(a: seq<Write>, b: seq<Write>, s: Option<Cells>)
    ensures ApplySlots(a + b, s) == ApplySlots(b, ApplySlots(a, s))
  {
    if a == [] {
      assert a + b == b;
    } else {
      assert (a + b)[1..] == a[1..] + b;
      ApplySlotsConcat(a[1..], b, ApplySlot(a[0], s));
    }
  }

  lemma {:induction false} MergedConcat(a: seq<Write>, b: seq<Write>)
    ensures Merged(a + b) == Merged(a) + Merged(b)
  {
    if a == [] {
      assert a + b == b;
    } else {
      assert (a + b)[0] == a[0] && (a + b)[1..] == a[1..] + b;
      MergedConcat(a[1..], b);
      MapConcat(if a[0].Update? then a[0].cells else map[], Merged(a[1..]), Merged(b));
    }
  }

  lemma {:induction false} MergedUpdates(ws: seq<Write>)
    ensures Merged(Filter(ws, IsUpdate())) == Merged(ws)
  {
    if ws != [] {
      MergedUpdates(ws[1..]);
      if ws[0].Update? {
        assert Filter(ws, IsUpdate()) == [ws[0]] + Filter(ws[1..], IsUpdate());
      } else {
        assert Filter(ws, IsUpdate()) == Filter(ws[1..], IsUpdate());
        assert map[] + Merged(ws[1..]) == Merged(ws[1..]);
      }
    }
  }

  /** Without deletes a present row collects the updates. */
  lemma {:induction false} PresentCollects(ws: seq<Write>, c: Cells)
    requires !HasDelete(ws)
    ensures ApplySlots(ws, Some(c)) == Some(c + Merged(ws))
  {
    if ws == [] {
      assert c + map[] == c;
    } else {
      assert forall w <- ws[1..] :: w in ws;
      assert ws[0] in ws;
      var c' := if ws[0].Update? then c + ws[0].cells else c;
      PresentCollects(ws[1..], c');
      MapConcat(c, if ws[0].Update? then ws[0].cells else map[], Merged(ws[1..]));
      assert c + map[] == c;
    }
  }

  /** Without inserts an absent row stays absent. */
  lemma {:induction false} AbsentStays(ws: seq<Write>)
    requires !HasInsert(ws)
    ensures ApplySlots(ws, None) == None
  {
    if ws != [] {
      assert forall w <- ws[1..] :: w in ws;
      assert ws[0] in ws;
      AbsentStays(ws[1..]);
    }
  }

  /** Inserts alone give an absent row its first value and leave a present one. */
  lemma {:induction false} InsertsOnly(ws: seq<Write>, s: Option<Cells>)
    ensures ApplySlots(Filter(ws, IsInsert()), s) ==
      if s.Some? then s else if HasInsert(ws) then Some(ws[FirstInsert(ws)].cells) else None
  {
    if ws != [] {
      assert forall w <- ws[1..] :: w in ws;
      if ws[0].Insert? {
        assert ws[0] in ws;
        assert Filter(ws, IsInsert()) == [ws[0]] + Filter(ws[1..], IsInsert());
        InsertsOnly(ws[1..], ApplySlot(ws[0], s));
      } else {
        assert Filter(ws, IsInsert()) == Filter(ws[1..], IsInsert());
        InsertsOnly(ws[1..], s);
      }
    }
  }

  lemma {:induction false} DeletesOnly(ws: seq<Write>, s: Option<Cells>)
    ensures ApplySlots(Filter(ws, IsDelete()), s) == if HasDelete(ws) then None else s
  {
    if ws != [] {
      assert forall w <- ws[1..] :: w in ws;
      if ws[0].Delete? {
        assert ws[0] in ws;
        assert Filter(ws, IsDelete()) == [ws[0]] + Filter(ws[1..], IsDelete());
        DeletesOnly(ws[1..], None);
      } else {
        assert Filter(ws, IsDelete()) == Filter(ws[1..], IsDelete());
        DeletesOnly(ws[1..], s);
      }
    }
  }

  /** What a flush leaves under one key. */
  lemma FlushSlotIs(ws: seq<Write>, s: Option<Cells>)
    ensures FlushSlot(ws, s) ==
      if HasDelete(ws) then None
      else if s.Some? then Some(s.value + Merged(ws))
      else if HasInsert(ws) then Some(ws[FirstInsert(ws)].cells + Merged(ws))
      else None
  {
    InsertsOnly(ws, s);
    DeletesOnly(ws, ApplySlots(Filter(ws, IsUpdate()), ApplySlots(Filter(ws, IsInsert()), s)));
    FilterMembers(ws, IsUpdate());
    var s1 := ApplySlots(Filter(ws, IsInsert()), s);
    if s1.Some? {
      PresentCollects(Filter(ws, IsUpdate()), s1.value);
      MergedUpdates(ws);
    } else {
      AbsentStays(Filter(ws, IsUpdate()));
    }
  }

  /** What arrival order leaves when there is a delete: whatever is inserted after the last one. */
  lemma {:induction false} DeleteDecides(ws: seq<Write>, s: Option<Cells>)
    requires HasDelete(ws)
    ensures ApplySlots(ws, s) == ApplySlots(AfterLastDelete(ws), None)
  {
    if HasDelete(ws[1..]) {
      DeleteDecides(ws[1..], ApplySlot(ws[0], s));
    } else {
      assert forall w <- ws :: w == ws[0] || w in ws[1..];
    }
  }

  lemma {:induction false} AfterLastDeleteHasNone(ws: seq<Write>)
    ensures !HasDelete(AfterLastDelete(ws))
  {
    if ws != [] {
      AfterLastDeleteHasNone(ws[1..]);
      assert forall w <- ws :: w == ws[0] || w in ws[1..];
    }
  }

  lemma FillAt(early: seq<Write>, w: Write, late: seq<Write>)
    requires !HasInsert(early) && w.Insert? && !HasDelete(late)
    ensures ApplySlots(early + [w] + late, None) == Some(w.cells + Merged(late))
  {
    ApplySlotsConcat(early + [w], late, None);
    ApplySlotsConcat(early, [w], None);
    AbsentStays(early);
    assert ApplySlots([w], None) == Some(w.cells);
    PresentCollects(late, w.cells);
  }

  /** What arrival order leaves of an absent row when there is no delete. */
  lemma AbsentFill(ws: seq<Write>)
    requires !HasDelete(ws) && HasInsert(ws)
    ensures var i := FirstInsert(ws);
      ApplySlots(ws, None) == Some(ws[i].cells + Merged(ws[i + 1..]))
  {
    var i := FirstInsert(ws);
    assert ws == ws[..i] + [ws[i]] + ws[i + 1..];
    FillAt(ws[..i], ws[i], ws[i + 1..]);
  }

  lemma MergedAround(early: seq<Write>, w: Write, late: seq<Write>)
    requires w.Insert?
    ensures Merged(early + [w] + late) == Merged(early) + Merged(late)
  {
    calc {
      Merged(early + [w] + late);
      { MergedConcat(early + [w], late); }
      Merged(early + [w]) + Merged(late);
      { MergedConcat(early, [w]); assert Merged([w]) == map[]; }
      Merged(early) + map[] + Merged(late);
      { assert Merged(early) + map[] == Merged(early); }
      Merged(early) + Merged(late);
    }
  }

  /** Earlier columns do not show through exactly when each is set again or already has its value. */
  lemma Absorbed(row: Cells, early: Cells, late: Cells)
    ensures row + (early + late) == row + late <==> Absorbs(row, early, late)
  {
    var l, r := row + (early + late), row + late;
    if Absorbs(row, early, late) {
      assert l.Keys == r.Keys;
      assert forall n :: n in l ==> l[n] == r[n];
    } else {
      var n :| n in early && !(n in late || (n in row && row[n] == early[n]));
      assert n in l && l[n] == early[n];
    }
  }

  lemma KeyIffDeleted(own: seq<Write>, s: Option<Cells>)
    requires HasDelete(own)
    ensures ApplySlots(own, s) == None <==> !HasInsert(AfterLastDelete(own))
  {
    DeleteDecides(own, s);
    AfterLastDeleteHasNone(own);
    if HasInsert(AfterLastDelete(own)) {
      AbsentFill(AfterLastDelete(own));
    } else {
      AbsentStays(AfterLastDelete(own));
    }
  }

  lemma NewAt(early: seq<Write>, w: Write, late: seq<Write>)
    requires !HasInsert(early) && w.Insert? && !HasDelete(late)
    ensures Some(w.cells + Merged(early + [w] + late)) == ApplySlots(early + [w] + late, None) <==>
      Absorbs(w.cells, Merged(early), Merged(late))
  {
    FillAt(early, w, late);
    MergedAround(early, w, late);
    Absorbed(w.cells, Merged(early), Merged(late));
  }

  lemma KeyIffNew(own: seq<Write>)
    requires !HasDelete(own) && HasInsert(own)
    ensures Some(own[FirstInsert(own)].cells + Merged(own)) == ApplySlots(own, None) <==> KeySafe(own, false)
  {
    var i := FirstInsert(own);
    var early, w, late := own[..i], own[i], own[i + 1..];
    assert own == early + [w] + late;
    NewAt(early, w, late);
    assert KeySafe(own, false) <==> Absorbs(w.cells, Merged(early), Merged(late));
  }

  lemma KeyIff(own: seq<Write>, s: Option<Cells>)
    ensures FlushSlot(own, s) == ApplySlots(own, s) <==> KeySafe(own, s.Some?)
  {
    FlushSlotIs(own, s);
    if HasDelete(own) {
      KeyIffDeleted(own, s);
    } else if s.Some? {
      PresentCollects(own, s.value);
    } else if HasInsert(own) {
      KeyIffNew(own);
    } else {
      AbsentStays(own);
    }
  }

  /** A flush gives the table of the arrival order if and only if every key's operations survive
      regrouping. */
  lemma FlushIff(ws: seq<Write>, t: Table)
    ensures Flushed(ws, t) == ApplyAll(ws, t) <==> FlushSafe(ws, t)
  {
    forall k: Value
      ensures Slot(Flushed(ws, t), k) == Slot(ApplyAll(ws, t), k) <==> KeySafe(Filter(ws, OnKey(k)), k in t)
    {
      SlotOfFlushed(ws, t, k);
      SlotOfApplyAll(ws, t, k);
      KeyIff(Filter(ws, OnKey(k)), Slot(t, k));
    }
    if FlushSafe(ws, t) {
      TablesEqual(Flushed(ws, t), ApplyAll(ws, t));
    }
  }

  /** No insert follows an update or delete of its key, and no update follows a delete of its key. */
  ghost predicate InOrder(ws: seq<Write>) {
    forall i, j :: 0 <= i < j < |ws| && ws[i].key == ws[j].key ==>
      (ws[j].Insert? ==> ws[i].Insert?) && (ws[j].Update? ==> !ws[i].Delete?)
  }

  /** Operations that arrive insert-first are flushed to the table of the arrival order. */
  lemma InOrderFlush(ws: seq<Write>, t: Table)
    requires InOrder(ws)
    ensures Flushed(ws, t) == ApplyAll(ws, t)
  {
    forall k: Value
      ensures KeySafe(Filter(ws, OnKey(k)), k in t)
    {
      var own := Filter(ws, OnKey(k));
      OwnInOrder(ws, k);
      InsertFirst(own);
      AfterDeleteSuffix(own);
    }
    FlushIff(ws, t);
  }

  ghost predicate InsertsFirst(own: seq<Write>) {
    forall i, j :: 0 <= i < j < |own| && own[j].Insert? ==> own[i].Insert?
  }

  lemma OwnInOrder(ws: seq<Write>, k: Value)
    requires InOrder(ws)
    ensures InsertsFirst(Filter(ws, OnKey(k)))
  {
    var own := Filter(ws, OnKey(k));
    FilterMembers(ws, OnKey(k));
    forall i, j | 0 <= i < j < |own| && own[j].Insert?
      ensures own[i].Insert?
    {
      var a, b := FilterOrder(ws, OnKey(k), i, j);
      assert own[i] in own && own[j] in own;
    }
  }

  lemma InsertFirst(own: seq<Write>)
    requires InsertsFirst(own)
    ensures HasInsert(own) ==> FirstInsert(own) == 0
  {
  }

  lemma {:induction false} AfterDeleteSuffix(own: seq<Write>)
    requires InsertsFirst(own)
    ensures HasDelete(own) ==> !HasInsert(AfterLastDelete(own))
  {
    if own != [] {
      assert forall w <- own :: w == own[0] || w in own[1..];
      AfterDeleteSuffix(own[1..]);
    }
  }

  /** An update of a row that a later insert creates is applied by the flush and not by arrival order. */
  lemma UpdateBeforeInsertDiffers(k: Value)
    ensures var ws := [Update(k, map["n" := Int(2)]), Insert(k, map["n" := Int(1)])];
      && ApplyAll(ws, map[]) == map[k := map["n" := Int(1)]]
      && Flushed(ws, map[]) == map[k := map["n" := Int(2)]]
  {
    var u, w := Update(k, map["n" := Int(2)]), Insert(k, map["n" := Int(1)]);
    var ws := [u, w];
    assert ws[1..] == [w];
    SplitTwo(u, w, IsInsert());
    SplitTwo(u, w, IsUpdate());
    SplitTwo(u, w, IsDelete());
    assert [] + [w] == [w] && [u] + [] == [u];
    assert ApplyAll([w], map[]) == map[k := w.cells];
    assert w.cells + u.cells == u.cells;
    assert ApplyAll([u], map[k := w.cells]) == map[k := u.cells];
    assert ApplyAll(ws, map[]) == ApplyAll([w], Apply(u, map[]));
  }

  lemma SplitTwo(u: Write, w: Write, p: Write -> bool)
    ensures Filter([u, w], p) == (if p(u) then [u] else []) + if p(w) then [w] else []
  {
    assert [u, w][1..] == [w];
    FilterMembers([w], p);
  }
}
