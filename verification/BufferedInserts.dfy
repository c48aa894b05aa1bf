/** The write buffer's flush, seen from backfill: handlers only insert rows, and what a flush does to the tables
    is what the backfill model says. */
module BufferedInserts {
  import opened Tables
  import opened Sequences
  import opened Flush
  import opened Buffer
  import opened Backfill

  /** Rows that handlers insert come out of the regrouping flush as they would one by one. */
  lemma InsertsFlushAsWritten(ws: seq<Write>, t: Table)
    requires OnlyInserts(ws)
    ensures Flushed(ws, t) == ApplyAll(ws, t)
  {
    assert forall i :: 0 <= i < |ws| ==> ws[i] in ws;
    InOrderFlush(ws, t);
  }

  /** The buffered rows of the named tables are the pending inserts, each with a key. */
  ghost predicate Buffers(names: seq<string>, s: Store, columns: map<string, set<string>>, buf: Pending) {
    forall n <- names ::
      && n in s.buffers && n in columns && n in s.tables
      && WritesOf(s.buffers[n], columns[n]) == Queue(buf, n)
      && OnlyInserts(Queue(buf, n)) && Keyed(Queue(buf, n))
  }

  /** The INSERT of this table fails. */
  predicate Refused(name: string, faults: map<string, Fault>, buf: Pending) {
    Queue(buf, name) != [] && FaultOf(faults, name) == InsertFails
  }

  lemma InsertsOnlyFault(ws: seq<Write>, f: Fault)
    requires OnlyInserts(ws) && Keyed(ws)
    ensures Effective(ws, f) == if ws != [] && f == InsertFails then InsertFails else NoFault
  {
    AllInserts(ws);
  }

  lemma {:induction false} AllInserts(ws: seq<Write>)
    requires OnlyInserts(ws)
    ensures Filter(ws, IsInsert()) == ws && Filter(ws, IsUpdate()) == [] && Filter(ws, IsDelete()) == []
  {
    FilterMembers(ws, IsInsert());
    FilterMembers(ws, IsUpdate());
    FilterMembers(ws, IsDelete());
  }

  lemma FlushOneInserts(name: string, faults: map<string, Fault>, s: Store, columns: map<string, set<string>>,
                        buf: Pending)
    requires Buffers([name], s, columns, buf)
    ensures var r := FlushOne(name, FaultOf(faults, name), s, columns);
      && (r.0 <==> !Refused(name, faults, buf))
      && r.1.buffers == s.buffers[name := []]
      && r.1.tables == s.tables[name := if r.0 then ApplyAll(Queue(buf, name), s.tables[name]) else s.tables[name]]
  {
    assert name in [name];
    var ws := Queue(buf, name);
    InsertsOnlyFault(ws, FaultOf(faults, name));
    InsertsFlushAsWritten(ws, s.tables[name]);
  }

  function NameSet(names: seq<string>): set<string> {
    set n | n in names
  }

  /** How many of the tables are flushed before one is refused. */
  function Passed(names: seq<string>, faults: map<string, Fault>, buf: Pending): (k: nat)
    ensures k <= |names|
    ensures forall i :: 0 <= i < k ==> !Refused(names[i], faults, buf)
    ensures k < |names| ==> Refused(names[k], faults, buf)
  {
    if names == [] || Refused(names[0], faults, buf) then 0 else 1 + Passed(names[1..], faults, buf)
  }

  /** Flushing table after table until one is refused writes exactly the tables before that one. */
  lemma {:induction false} FlushIsWritten(names: seq<string>, faults: map<string, Fault>, s: Store,
                                          columns: map<string, set<string>>, buf: Pending)
    requires Buffers(names, s, columns, buf) && forall i, j :: 0 <= i < j < |names| ==> names[i] != names[j]
    ensures var r, k := FlushNames(names, faults, s, columns), Passed(names, faults, buf);
      (r.0 <==> k == |names|) && r.1.tables == Written(s.tables, buf, NameSet(names[..k]))
    decreases |names|
  {
    if names == [] || Refused(names[0], faults, buf) {
      NothingFlushed(names, faults, s, columns, buf);
    } else {
      var one := FlushOne(names[0], FaultOf(faults, names[0]), s, columns);
      FirstFlushed(names, faults, s, columns, buf);
      FlushIsWritten(names[1..], faults, one.1, columns, buf);
      WrittenFirst(s.tables, buf, names, Passed(names[1..], faults, buf));
    }
  }

  lemma WrittenFirst(tables: map<string, Table>, buf: Pending, names: seq<string>, k: nat)
    requires names != [] && k < |names| && names[0] in tables && names[0] !in names[1..]
    ensures var first := tables[names[0] := ApplyAll(Queue(buf, names[0]), tables[names[0]])];
      Written(first, buf, NameSet(names[1..][..k])) == Written(tables, buf, NameSet(names[..k + 1]))
  {
    var rest := names[1..][..k];
    assert names[..k + 1] == [names[0]] + rest;
    assert forall n :: n in NameSet(names[..k + 1]) <==> n == names[0] || n in NameSet(rest);
    assert forall n <- rest :: n in names[1..];
  }

  lemma NothingFlushed(names: seq<string>, faults: map<string, Fault>, s: Store, columns: map<string, set<string>>,
                       buf: Pending)
    requires Buffers(names, s, columns, buf) && (names == [] || Refused(names[0], faults, buf))
    ensures var r := FlushNames(names, faults, s, columns);
      (r.0 <==> names == []) && r.1.tables == Written(s.tables, buf, NameSet(names[..0]))
  {
    assert Written(s.tables, buf, NameSet(names[..0])) == s.tables;
    if names != [] {
      assert names[0] in names;
      FlushOneInserts(names[0], faults, s, columns, buf);
      assert s.tables[names[0] := s.tables[names[0]]] == s.tables;
    }
  }

  lemma FirstFlushed(names: seq<string>, faults: map<string, Fault>, s: Store, columns: map<string, set<string>>,
                     buf: Pending)
    requires Buffers(names, s, columns, buf) && forall i, j :: 0 <= i < j < |names| ==> names[i] != names[j]
    requires names != [] && !Refused(names[0], faults, buf)
    ensures var one := FlushOne(names[0], FaultOf(faults, names[0]), s, columns);
      var r, rest := FlushNames(names, faults, s, columns), FlushNames(names[1..], faults, one.1, columns);
      && r.0 == rest.0 && r.1 == rest.1
      && names[0] in s.tables
      && one.1.tables == s.tables[names[0] := ApplyAll(Queue(buf, names[0]), s.tables[names[0]])]
      && Buffers(names[1..], one.1, columns, buf)
    ensures names[0] !in names[1..]
  {
    assert names[0] in names;
    FlushOneInserts(names[0], faults, s, columns, buf);
    forall n | n in names[1..]
      ensures n in names && n != names[0]
    {
      var i :| 0 <= i < |names[1..]| && names[1..][i] == n;
      assert names[i + 1] == n;
    }
  }
}
