/** Inserting into the shared log table and reading back from it. */
module CacheRows {
  import opened Sequences
  import opened Sorting
  import opened LogCache

  // Answers as rows

  /** What a node guarantees of one answer: logs of the chain asked for, in strict order of position,
      with numbers that a signed column can hold. */
  ghost predicate Proper(q: Query, logs: seq<Log>) {
    && (forall l <- logs :: l.chain == q.chain && l.block < 0x8000_0000_0000_0000 && l.index < 0x8000_0000)
    && StrictlySorted(Rows(q, logs), ByPosition())
  }

  lemma StatementsStrict(q: Query, logs: seq<Log>)
    requires Proper(q, logs)
    ensures StrictlySorted(Statements(q, logs), ByPosition())
  {
  }

  // Inserting

  predicate Overlap(rs: seq<Row>, ss: seq<Row>) {
    exists r <- rs :: Taken(ss, r.at)
  }

  predicate Within(rs: seq<Row>, ss: seq<Row>) {
    forall r <- rs :: Taken(ss, r.at)
  }

  lemma {:induction false} InsertTaken(rows: seq<Row>, rs: seq<Row>)
    requires Within(rs, rows)
    ensures InsertedAll(rows, rs) == rows
    decreases |rs|
  {
    if rs != [] {
      assert rs[0] in rs;
      InsertTaken(rows, rs[1..]);
    }
  }

  /** Fresh, pairwise different positions are all inserted, in order. */
  lemma {:induction false} InsertFresh(rows: seq<Row>, rs: seq<Row>)
    requires !Overlap(rs, rows) && Distinct(rs)
    ensures InsertedAll(rows, rs) == rows + rs
    decreases |rs|
  {
    if rs != [] {
      assert rs[0] in rs && !Taken(rows, rs[0].at);
      var more := rows + [rs[0]];
      forall r | r in rs[1..]
        ensures !Taken(more, r.at)
      {
        assert r in rs && !Taken(rows, r.at);
        var i :| 0 <= i < |rs[1..]| && rs[1..][i] == r;
        assert rs[i + 1].at != rs[0].at;
      }
      InsertFresh(more, rs[1..]);
      assert more + rs[1..] == rows + rs;
    } else {
      assert rows + rs == rows;
    }
  }

  /** No two rows share a position. */
  ghost predicate Distinct(rows: seq<Row>) {
    forall i, j :: 0 <= i < j < |rows| ==> rows[i].at != rows[j].at
  }

  lemma {:induction false} InsertKeepsDistinct(rows: seq<Row>, rs: seq<Row>)
    requires Distinct(rows)
    ensures Distinct(InsertedAll(rows, rs))
    decreases |rs|
  {
    if rs != [] {
      InsertKeepsDistinct(Inserted(rows, rs[0]), rs[1..]);
    }
  }

  lemma StrictDistinct(rs: seq<Row>)
    requires StrictlySorted(rs, ByPosition())
    ensures Distinct(rs)
  {
  }

  // Reading back

  lemma ByPositionOrders()
    ensures TotalPreorder(ByPosition())
  {
  }

  lemma DistinctCount(rows: seq<Row>, r: Row)
    requires Distinct(rows)
    ensures multiset(rows)[r] == if r in rows then 1 else 0
  {
    if r in rows {
      var i :| 0 <= i < |rows| && rows[i] == r;
      assert rows == rows[..i] + [r] + rows[i + 1..];
      assert r !in rows[..i] && r !in rows[i + 1..];
    }
  }

  lemma DistinctSame(a: seq<Row>, b: seq<Row>)
    requires Distinct(a) && Distinct(b)
    requires forall r :: r in a <==> r in b
    ensures multiset(a) == multiset(b)
  {
    forall r: Row
      ensures multiset(a)[r] == multiset(b)[r]
    {
      DistinctCount(a, r);
      DistinctCount(b, r);
    }
  }

  lemma FilterDistinct(rows: seq<Row>, p: Row -> bool)
    requires Distinct(rows)
    ensures Distinct(Filter(rows, p))
  {
    forall i, j | 0 <= i < j < |Filter(rows, p)|
      ensures Filter(rows, p)[i].at != Filter(rows, p)[j].at
    {
      var a, b := FilterOrder(rows, p, i, j);
    }
  }

  lemma DistinctSorts(rows: seq<Row>, chain: int)
    requires Distinct(rows) && forall r <- rows :: r.at.chain == chain
    ensures StrictlySorted(Sort(rows, ByPosition()), ByPosition())
  {
    ByPositionOrders();
    forall i, j | 0 <= i < j < |rows|
      ensures !(ByPosition()(rows[i], rows[j]) && ByPosition()(rows[j], rows[i]))
    {
      assert rows[i].at.chain == rows[j].at.chain && rows[i].at != rows[j].at;
    }
    SortStrict(rows, ByPosition());
  }

  /** A table whose rows for a stamp are rs, in any order of insertion, returns them sorted. */
  lemma {:induction false} SelectedIs(rows: seq<Row>, q: Query, rs: seq<Row>)
    requires Distinct(rows) && StrictlySorted(rs, ByPosition())
    requires forall r :: r in rs <==> r in rows && r.stamp == StampOf(q)
    requires forall r <- rs :: r.at.chain == AsI64(q.chain)
    ensures Selected(rows, q) == rs
  {
    var mine := Filter(rows, Bearing(StampOf(q)));
    FilterMembers(rows, Bearing(StampOf(q)));
    FilterDistinct(rows, Bearing(StampOf(q)));
    StrictDistinct(rs);
    DistinctSame(mine, rs);
    DistinctSorts(mine, AsI64(q.chain));
    SortKeeps(mine, ByPosition());
    StrictlySortedUnique(Selected(rows, q), rs, ByPosition());
  }

  lemma NothingSelected(rows: seq<Row>, q: Query)
    requires forall r <- rows :: r.stamp != StampOf(q)
    ensures Selected(rows, q) == []
  {
    FilterMembers(rows, Bearing(StampOf(q)));
  }

  /** The client gets an answer back from the rows it was stored as: the sentinel's index comes back
      as the largest unsigned one and is dropped. */
  lemma AnswerRoundTrip(q: Query, logs: seq<Log>)
    requires Proper(q, logs)
    ensures Filter(Logs(Statements(q, logs), q.chain), Genuine()) == logs
  {
    var back := Logs(Statements(q, logs), q.chain);
    FilterMembers(back, Genuine());
    if logs == [] {
      assert back == [FromRow(Sentinel(q), q.chain)];
      assert forall l <- back :: !Genuine()(l);
    } else {
      RowsRoundTrip(q, logs);
    }
  }
}
