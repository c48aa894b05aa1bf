/** What the log cache is for (crates/forge-index-rpc/src/cached_client.rs:75-93): an answer that is stored is served
    without the node from then on, empty answers included. */
module CacheHits {
  import opened Tables
  import opened Sequences
  import opened Sorting
  import opened LogCache
  import opened CacheRows
  import opened CacheTransparency

  /** A call while the node is down. */
  function Offline(q: Query): Call {
    Call(q, true, false, 0)
  }

  function RowsAfter(node: Node, rows: seq<Row>, calls: seq<Call>): seq<Row>
    decreases |calls|
  {
    if calls == [] then rows else RowsAfter(node, After(node, rows, calls[0]), calls[1..])
  }

  lemma {:induction false} InsertsKeep(rows: seq<Row>, rs: seq<Row>)
    ensures forall r <- rows :: r in InsertedAll(rows, rs)
    decreases |rs|
  {
    if rs != [] {
      InsertsKeep(Inserted(rows, rs[0]), rs[1..]);
    }
  }

  lemma {:induction false} CallsKeep(node: Node, rows: seq<Row>, calls: seq<Call>)
    ensures forall r <- rows :: r in RowsAfter(node, rows, calls)
    decreases |calls|
  {
    if calls != [] {
      var c := calls[0];
      var rs := Statements(c.query, node(c.query));
      InsertsKeep(rows, rs[..if c.stored < |rs| then c.stored else |rs|]);
      CallsKeep(node, After(node, rows, c), calls[1..]);
    }
  }

  lemma OneKeepsConsistent(node: Node, used: iset<Query>, rows: seq<Row>, c: Call)
    requires Sound(node, used) && Separated(node, used) && Consistent(node, used, rows)
    requires c.query in used && Whole(node, c)
    ensures Consistent(node, used, After(node, rows, c))
  {
    var rs := Statements(c.query, node(c.query));
    StoreKeeps(node, used, rows, c.query);
    assert rs[..0] == [] && rs[..|rs|] == rs;
  }

  lemma {:induction false} RunKeepsConsistent(node: Node, used: iset<Query>, rows: seq<Row>, calls: seq<Call>)
    requires Sound(node, used) && Separated(node, used) && Consistent(node, used, rows)
    requires AllUsed(used, calls) && AllWhole(node, calls)
    ensures Consistent(node, used, RowsAfter(node, rows, calls))
    decreases |calls|
  {
    if calls != [] {
      assert calls[0] in calls;
      OneKeepsConsistent(node, used, rows, calls[0]);
      RunKeepsConsistent(node, used, After(node, rows, calls[0]), calls[1..]);
    }
  }

  /** A query is served from the table exactly while the table has a row for it. */
  lemma ServedIff(rows: seq<Row>, q: Query)
    ensures Lookup(rows, q).Some? <==> exists r <- rows :: r.stamp == StampOf(q)
  {
    FilterMembers(rows, Bearing(StampOf(q)));
    SortKeeps(Filter(rows, Bearing(StampOf(q))), ByPosition());
    var mine := Filter(rows, Bearing(StampOf(q)));
    assert |Sort(mine, ByPosition())| == |mine| by {
      SameElements(Sort(mine, ByPosition()), mine);
    }
    if r :| r in rows && r.stamp == StampOf(q) {
      assert r in mine;
    }
    if mine != [] {
      assert mine[0] in mine;
    }
  }

  /** Between filters that the cache keeps apart: once a query is served from the table, it is so for good, with the
      node's answer, whatever calls come in between and whether or not the node can be reached. */
  lemma StaysCached(node: Node, used: iset<Query>, rows: seq<Row>, calls: seq<Call>, q: Query)
    requires Sound(node, used) && Separated(node, used) && Consistent(node, used, rows) && q in used
    requires AllUsed(used, calls) && AllWhole(node, calls) && Lookup(rows, q).Some?
    ensures Reply(node, RowsAfter(node, rows, calls), Offline(q)) == Ok(node(q))
  {
    var later := RowsAfter(node, rows, calls);
    RunKeepsConsistent(node, used, rows, calls);
    CallsKeep(node, rows, calls);
    ServedIff(rows, q);
    ServedIff(later, q);
    assert Proper(q, node(q)) && Answers(node, later, q);
    HitIsRight(node, later, q);
  }

  /** An answer stored in an empty table is served from then on. */
  lemma FirstAnswerCached(node: Node, used: iset<Query>, q: Query, calls: seq<Call>)
    requires Sound(node, used) && Separated(node, used) && q in used
    requires AllUsed(used, calls) && AllWhole(node, calls)
    ensures Reply(node, RowsAfter(node, After(node, [], Plain(node, q)), calls), Offline(q)) == Ok(node(q))
  {
    var rs := Statements(q, node(q));
    assert Proper(q, node(q));
    FirstCall(node, q);
    OneKeepsConsistent(node, used, [], Plain(node, q));
    assert rs[0] in rs;
    StatementsOf(q, node(q), rs[0]);
    ServedIff(rs, q);
    StaysCached(node, used, rs, calls, q);
  }
}
