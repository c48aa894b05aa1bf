/** Exactly when a client cannot tell the log cache from the node. */
module CacheTransparency {
  import opened Sequences
  import opened Sorting
  import opened LogCache
  import opened CacheRows
  import opened CacheStamps

  // Hypotheses about the node

  /** The filters in use get proper answers. */
  ghost predicate Sound(node: Node, used: iset<Query>) {
    forall q <- used :: Proper(q, node(q))
  }

  /** Queries with the same stamp have the same answer, and queries with different stamps share either
      no position or all of them. */
  ghost predicate Compatible(node: Node, f: Query, g: Query) {
    if StampOf(f) == StampOf(g) then node(f) == node(g)
    else
      var rs, ss := Rows(f, node(f)), Rows(g, node(g));
      Overlap(rs, ss) ==> Within(rs, ss) && Within(ss, rs)
  }

  ghost predicate Separated(node: Node, used: iset<Query>) {
    forall f, g :: f in used && g in used ==> Compatible(node, f, g)
  }

  /** A store that fails, fails before its first statement. */
  predicate Whole(node: Node, c: Call) {
    c.stored == 0 || c.stored >= |Statements(c.query, node(c.query))|
  }

  ghost predicate AllUsed(used: iset<Query>, calls: seq<Call>) {
    forall c <- calls :: c.query in used
  }

  predicate AllWhole(node: Node, calls: seq<Call>) {
    forall c <- calls :: Whole(node, c)
  }

  ghost predicate Transparent(node: Node, used: iset<Query>) {
    forall calls :: AllUsed(used, calls) && AllWhole(node, calls) ==> AllRight(node, [], calls)
  }

  /** Transparent even when storing an answer may stop after any statement. */
  ghost predicate AlwaysTransparent(node: Node, used: iset<Query>) {
    forall calls :: AllUsed(used, calls) ==> AllRight(node, [], calls)
  }

  // Separated answers: transparent over every call sequence

  /** The rows under q's stamp, if any, are its whole answer. */
  ghost predicate Answers(node: Node, rows: seq<Row>, q: Query) {
    forall r <- rows :: r.stamp == StampOf(q) ==>
      r in Statements(q, node(q)) && forall s <- Statements(q, node(q)) :: s in rows
  }

  ghost predicate Stamped(r: Row, used: iset<Query>) {
    exists q <- used :: StampOf(q) == r.stamp
  }

  ghost predicate Consistent(node: Node, used: iset<Query>, rows: seq<Row>) {
    && Distinct(rows)
    && (forall r <- rows :: Stamped(r, used))
    && (forall q <- used :: Answers(node, rows, q))
  }

  lemma {:induction false} HitIsRight(node: Node, rows: seq<Row>, q: Query)
    requires Proper(q, node(q)) && Distinct(rows) && Answers(node, rows, q) && Lookup(rows, q).Some?
    ensures Filter(Lookup(rows, q).value, Genuine()) == node(q)
  {
    var rs := Statements(q, node(q));
    if r :| r in rows && r.stamp == StampOf(q) {
      StatementsStrict(q, node(q));
      AnsweredBy(node, rows, q, r);
      SelectedIs(rows, q, rs);
      AnswerRoundTrip(q, node(q));
    } else {
      NothingSelected(rows, q);
      assert false;
    }
  }

  lemma {:induction false} AnsweredBy(node: Node, rows: seq<Row>, q: Query, r: Row)
    requires Answers(node, rows, q) && r in rows && r.stamp == StampOf(q)
    ensures forall s :: s in Statements(q, node(q)) <==> s in rows && s.stamp == StampOf(q)
    ensures forall s <- Statements(q, node(q)) :: s.at.chain == AsI64(q.chain)
  {
    forall s | s in Statements(q, node(q))
      ensures s.stamp == StampOf(q) && s.at.chain == AsI64(q.chain)
    {
      StatementsOf(q, node(q), s);
    }
  }

  /** One taken position means that all are: a store is a no-op or inserts everything. */
  lemma OverlapIsWithin(node: Node, used: iset<Query>, rows: seq<Row>, q: Query)
    requires Sound(node, used) && Separated(node, used) && Consistent(node, used, rows) && q in used
    requires Overlap(Statements(q, node(q)), rows)
    ensures Within(Statements(q, node(q)), rows)
  {
    var rs := Statements(q, node(q));
    var r :| r in rs && Taken(rows, r.at);
    var t :| t in rows && t.at == r.at;
    assert Stamped(t, used);
    var g :| g in used && StampOf(g) == t.stamp;
    assert Answers(node, rows, g) && Compatible(node, q, g);
    assert Proper(q, node(q)) && Proper(g, node(g));
    SharedPosition(node, q, g, r, t);
    WithinHeld(rs, Statements(g, node(g)), rows);
  }

  lemma SharedPosition(node: Node, q: Query, g: Query, r: Row, t: Row)
    requires Proper(q, node(q)) && Proper(g, node(g)) && Compatible(node, q, g)
    requires r in Statements(q, node(q)) && t in Statements(g, node(g)) && t.at == r.at
    ensures Within(Statements(q, node(q)), Statements(g, node(g)))
  {
    if StampOf(q) == StampOf(g) {
      SameStampSameStatements(node, q, g);
    } else if node(q) != [] {
      RowNotSentinel(q, node(q), r);
      assert Taken(Rows(g, node(g)), r.at);
    } else {
      assert Statements(q, node(q)) == [r];
    }
  }

  lemma RowNotSentinel(q: Query, logs: seq<Log>, r: Row)
    requires Proper(q, logs) && r in Rows(q, logs)
    ensures r.at.block >= 0 && r.at.index >= 0
  {
    var i :| 0 <= i < |logs| && Rows(q, logs)[i] == r;
    assert logs[i] in logs;
  }

  lemma WithinHeld(rs: seq<Row>, ss: seq<Row>, rows: seq<Row>)
    requires Within(rs, ss)
    requires forall s <- ss :: s in rows
    ensures Within(rs, rows)
  {
  }

  lemma StoreKeeps(node: Node, used: iset<Query>, rows: seq<Row>, q: Query)
    requires Sound(node, used) && Separated(node, used) && Consistent(node, used, rows) && q in used
    ensures Consistent(node, used, InsertedAll(rows, Statements(q, node(q))))
  {
    var rs := Statements(q, node(q));
    assert Proper(q, node(q));
    StatementsStrict(q, node(q));
    StrictDistinct(rs);
    if Overlap(rs, rows) {
      OverlapIsWithin(node, used, rows, q);
      InsertTaken(rows, rs);
    } else {
      InsertKeepsDistinct(rows, rs);
      InsertFresh(rows, rs);
      forall r | r in rows + rs
        ensures Stamped(r, used)
      {
        if r in rs {
          StatementsOf(q, node(q), r);
        }
      }
      forall g <- used
        ensures Answers(node, rows + rs, g)
      {
        StoredAnswers(node, rows, q, g);
      }
    }
  }

  lemma StoredAnswers(node: Node, rows: seq<Row>, q: Query, g: Query)
    requires Compatible(node, q, g) && Answers(node, rows, g)
    ensures Answers(node, rows + Statements(q, node(q)), g)
  {
    var rs := Statements(q, node(q));
    forall r | r in rows + rs && r.stamp == StampOf(g)
      ensures r in Statements(g, node(g)) && forall s <- Statements(g, node(g)) :: s in rows + rs
    {
      if r !in rows {
        StatementsOf(q, node(q), r);
        SameStampSameStatements(node, q, g);
      }
    }
  }

  lemma {:induction false} SeparatedRuns(node: Node, used: iset<Query>, rows: seq<Row>, calls: seq<Call>)
    requires Sound(node, used) && Separated(node, used) && Consistent(node, used, rows) && AllUsed(used, calls) &&
      AllWhole(node, calls)
    ensures AllRight(node, rows, calls)
    decreases |calls|
  {
    if calls != [] {
      var c := calls[0];
      var q := c.query;
      assert c in calls && Whole(node, c);
      if Hit(rows, c).Some? {
        assert Proper(q, node(q)) && Answers(node, rows, q);
        HitIsRight(node, rows, q);
      } else {
        var rs := Statements(q, node(q));
        StoreKeeps(node, used, rows, q);
        assert rs[..0] == [] && rs[..|rs|] == rs;
        assert Consistent(node, used, After(node, rows, c));
      }
      SeparatedRuns(node, used, After(node, rows, c), calls[1..]);
    }
  }

  // Transparency forces separation

  /** A complete, undisturbed call. */
  function Plain(node: Node, q: Query): Call {
    Call(q, true, true, |Statements(q, node(q))|)
  }

  lemma FirstCall(node: Node, q: Query)
    requires Proper(q, node(q))
    ensures After(node, [], Plain(node, q)) == Statements(q, node(q))
  {
    var rs := Statements(q, node(q));
    StatementsStrict(q, node(q));
    StrictDistinct(rs);
    NothingSelected([], q);
    InsertFresh([], rs);
    assert rs[..|rs|] == rs && [] + rs == rs;
  }

  lemma OwnRows(q: Query, logs: seq<Log>, f: Query)
    requires Proper(q, logs) && StampOf(f) == StampOf(q)
    ensures Selected(Statements(q, logs), f) == Statements(q, logs)
  {
    var rs := Statements(q, logs);
    SameStampSameChain(f, q);
    StatementsStrict(q, logs);
    StrictDistinct(rs);
    forall r
      ensures r in rs <==> r in rs && r.stamp == StampOf(f)
    {
      if r in rs {
        StatementsOf(q, logs, r);
      }
    }
    SelectedIs(rs, f, rs);
  }

  /** Same stamp: the second query is answered with the first one's logs. */
  lemma StampDecides(node: Node, f: Query, g: Query)
    requires Proper(f, node(f)) && Proper(g, node(g)) && StampOf(f) == StampOf(g)
    requires AllRight(node, [], [Plain(node, f), Plain(node, g)])
    ensures node(f) == node(g)
  {
    assert Proper(f, node(f)) && Proper(g, node(g));
    FirstCall(node, f);
    var rows := Statements(f, node(f));
    OwnRows(f, node(f), g);
    SameStampSameChain(f, g);
    AnswerRoundTrip(f, node(f));
    var calls := [Plain(node, f), Plain(node, g)];
    assert calls[1..][0] == Plain(node, g);
    assert AllRight(node, rows, calls[1..]);
    assert Right(node, Plain(node, g), Reply(node, rows, Plain(node, g)));
  }

  function Unclaimed(rows: seq<Row>): Row -> bool {
    (r: Row) => !Taken(rows, r.at)
  }

  /** Inserting keeps just the rows with unclaimed positions. */
  lemma {:induction false} InsertedIs(rows: seq<Row>, rs: seq<Row>)
    requires Distinct(rs)
    ensures InsertedAll(rows, rs) == rows + Filter(rs, Unclaimed(rows))
    decreases |rs|
  {
    if rs == [] {
      assert rows + [] == rows;
    } else {
      assert Distinct(rs[1..]);
      InsertedIs(Inserted(rows, rs[0]), rs[1..]);
      OthersUnclaimed(rows, rs);
      InsertedStep(rows, rs[0], Filter(rs[1..], Unclaimed(rows)));
    }
  }

  lemma InsertedStep(rows: seq<Row>, r: Row, rest: seq<Row>)
    ensures Inserted(rows, r) + rest == rows + ((if Unclaimed(rows)(r) then [r] else []) + rest)
  {
  }

  lemma OthersUnclaimed(rows: seq<Row>, rs: seq<Row>)
    requires rs != [] && Distinct(rs)
    ensures Filter(rs[1..], Unclaimed(Inserted(rows, rs[0]))) == Filter(rs[1..], Unclaimed(rows))
  {
    var more := Inserted(rows, rs[0]);
    var rest := rs[1..];
    forall i | 0 <= i < |rest|
      ensures Unclaimed(more)(rest[i]) <==> Unclaimed(rows)(rest[i])
    {
      assert rest[i].at == rs[i + 1].at != rs[0].at;
    }
    SameFilter(rest, Unclaimed(more), Unclaimed(rows));
  }

  lemma {:induction false} SameFilter<T>(s: seq<T>, p: T -> bool, p': T -> bool)
    requires forall i :: 0 <= i < |s| ==> (p(s[i]) <==> p'(s[i]))
    ensures Filter(s, p) == Filter(s, p')
  {
    if s != [] {
      forall i | 0 <= i < |s[1..]|
        ensures p(s[1..][i]) <==> p'(s[1..][i])
      {
        assert s[1..][i] == s[i + 1];
      }
      SameFilter(s[1..], p, p');
    }
  }

  /** Partly shared positions: the third call of g, f, f loses the shared logs. */
  lemma SharedAreAll(node: Node, f: Query, g: Query)
    requires Proper(f, node(f)) && Proper(g, node(g)) && StampOf(f) != StampOf(g)
    requires Overlap(Rows(f, node(f)), Rows(g, node(g)))
    requires AllRight(node, [], [Plain(node, g), Plain(node, f), Plain(node, f)])
    ensures Within(Rows(f, node(f)), Rows(g, node(g)))
  {
    assert Proper(f, node(f)) && Proper(g, node(g));
    var rs, ss := Rows(f, node(f)), Rows(g, node(g));
    assert node(f) != [] && node(g) != [];
    if !Within(rs, ss) {
      FirstCall(node, g);
      SecondCall(node, f, g);
      SomeLeft(rs, ss);
      StampsDiffer(f, g, node(f), ss, Filter(rs, Unclaimed(ss)), node(g));
      ThirdCall(node, f, ss, Filter(rs, Unclaimed(ss)));
      RunOfThree(node, [], Plain(node, g), Plain(node, f), Plain(node, f));
      assert false;
    }
  }

  lemma SomeLeft(rs: seq<Row>, ss: seq<Row>)
    requires Overlap(rs, ss) && !Within(rs, ss)
    ensures var left := Filter(rs, Unclaimed(ss));
            0 < |left| < |rs| && forall r <- left :: r in rs
  {
    FilterMembers(rs, Unclaimed(ss));
    FilterShorter(rs, Unclaimed(ss));
    var r :| r in rs && !Taken(ss, r.at);
    assert r in Filter(rs, Unclaimed(ss));
    var t :| t in rs && Taken(ss, t.at);
    assert !Unclaimed(ss)(t);
  }

  lemma StampsDiffer(f: Query, g: Query, logs: seq<Log>, ss: seq<Row>, left: seq<Row>, others: seq<Log>)
    requires StampOf(f) != StampOf(g) && ss == Rows(g, others) && forall r <- left :: r in Rows(f, logs)
    ensures forall r <- ss :: r.stamp != StampOf(f)
    ensures forall r <- left :: r.stamp == StampOf(f)
  {
  }

  lemma RunOfThree(node: Node, rows: seq<Row>, a: Call, b: Call, c: Call)
    requires AllRight(node, rows, [a, b, c])
    ensures Right(node, c, Reply(node, After(node, After(node, rows, a), b), c))
  {
    assert [a, b, c][1..] == [b, c] && [b, c][1..] == [c];
    assert AllRight(node, After(node, rows, a), [b, c]);
    assert AllRight(node, After(node, After(node, rows, a), b), [c]);
  }

  lemma SecondCall(node: Node, f: Query, g: Query)
    requires Proper(f, node(f)) && node(f) != [] && StampOf(f) != StampOf(g)
    ensures var ss := Statements(g, node(g));
            After(node, ss, Plain(node, f)) == ss + Filter(Rows(f, node(f)), Unclaimed(ss))
  {
    var rs, ss := Rows(f, node(f)), Statements(g, node(g));
    forall r | r in ss
      ensures r.stamp != StampOf(f)
    {
      StatementsOf(g, node(g), r);
    }
    NothingSelected(ss, f);
    StrictDistinct(rs);
    InsertedIs(ss, rs);
    assert rs[..|rs|] == rs;
  }

  lemma ThirdCall(node: Node, f: Query, ss: seq<Row>, left: seq<Row>)
    requires (forall r <- ss :: r.stamp != StampOf(f)) && (forall r <- left :: r.stamp == StampOf(f))
    requires 0 < |left| < |node(f)|
    ensures !Right(node, Plain(node, f), Reply(node, ss + left, Plain(node, f)))
  {
    var p := Bearing(StampOf(f));
    FilterConcat(ss, left, p);
    FilterMembers(ss, p);
    FilterMembers(left, p);
    assert Filter(ss + left, p) == left;
    SortKeeps(left, ByPosition());
    FilterShorter(Logs(Selected(ss + left, f), f.chain), Genuine());
  }

  lemma PlainWhole(node: Node, used: iset<Query>, calls: seq<Call>)
    requires forall c <- calls :: c == Plain(node, c.query) && c.query in used
    ensures AllWhole(node, calls) && AllUsed(used, calls)
  {
  }

  lemma TransparentSeparates(node: Node, used: iset<Query>, f: Query, g: Query)
    requires Sound(node, used) && Transparent(node, used) && f in used && g in used
    ensures Compatible(node, f, g)
  {
    var cf, cg := Plain(node, f), Plain(node, g);
    PlainWhole(node, used, [cf, cg]);
    PlainWhole(node, used, [cf, cg, cg]);
    PlainWhole(node, used, [cg, cf, cf]);
    var rs, ss := Rows(f, node(f)), Rows(g, node(g));
    if StampOf(f) == StampOf(g) {
      StampDecides(node, f, g);
    } else if Overlap(rs, ss) {
      SharedAreAll(node, f, g);
      OverlapSymmetric(rs, ss);
      SharedAreAll(node, g, f);
    }
  }

  lemma OverlapSymmetric(rs: seq<Row>, ss: seq<Row>)
    requires Overlap(rs, ss)
    ensures Overlap(ss, rs)
  {
    var r :| r in rs && Taken(ss, r.at);
    var s :| s in ss && s.at == r.at;
    assert Taken(rs, s.at);
  }

  /** For any set of filters in use, the cache is transparent over every sequence of calls exactly when
      filters with the same stamp have the same answer and filters with different stamps share no log or
      all of them. Reads of the cache and the node may fail at any call. */
  lemma TransparentIff(node: Node, used: iset<Query>)
    requires Sound(node, used)
    ensures Transparent(node, used) <==> Separated(node, used)
  {
    if Separated(node, used) {
      forall calls | AllUsed(used, calls) && AllWhole(node, calls)
        ensures AllRight(node, [], calls)
      {
        SeparatedRuns(node, used, [], calls);
      }
    }
    if Transparent(node, used) {
      forall f, g | f in used && g in used
        ensures Compatible(node, f, g)
      {
        TransparentSeparates(node, used, f, g);
      }
    }
  }

  // Stores that stop halfway

  /** A store that stops after its first log is later taken for the whole answer. */
  lemma HalfStored(node: Node, q: Query)
    requires Proper(q, node(q)) && |node(q)| > 1
    ensures !AllRight(node, [], [Call(q, true, true, 1), Plain(node, q)])
  {
    assert Proper(q, node(q));
    var c := Call(q, true, true, 1);
    var rs := Statements(q, node(q));
    NothingSelected([], q);
    var rows := After(node, [], c);
    assert rs[..1] == [rs[0]] && rs[..1][1..] == [] && [] + [rs[0]] == [rs[0]];
    assert InsertedAll([rs[0]], []) == [rs[0]];
    assert rows == [] + [rs[0]];
    ThirdCall(node, q, [], [rs[0]]);
    var calls := [c, Plain(node, q)];
    assert calls[1..][0] == Plain(node, q);
  }

  ghost predicate AtMostOneLog(node: Node, used: iset<Query>) {
    forall q <- used :: |node(q)| <= 1
  }

  /** If stores may also stop halfway, then no answer may have more than one log. */
  lemma AlwaysTransparentIff(node: Node, used: iset<Query>)
    requires Sound(node, used)
    ensures AlwaysTransparent(node, used) <==> Separated(node, used) && AtMostOneLog(node, used)
  {
    TransparentIff(node, used);
    if AlwaysTransparent(node, used) {
      assert Transparent(node, used);
      forall q <- used
        ensures |node(q)| <= 1
      {
        if |node(q)| > 1 {
          HalfStored(node, q);
          assert AllUsed(used, [Call(q, true, true, 1), Plain(node, q)]);
          assert false;
        }
      }
    }
    if Separated(node, used) && AtMostOneLog(node, used) {
      forall calls | AllUsed(used, calls)
        ensures AllRight(node, [], calls)
      {
        assert AllWhole(node, calls);
      }
    }
  }

  /** Filters without wildcards whose answers share no log are served transparently. */
  lemma DisjointFilters(node: Node, used: iset<Query>)
    requires Sound(node, used) && forall q <- used :: NoWildcards(q)
    requires forall f, g :: f in used && g in used && f != g ==> !Overlap(Rows(f, node(f)), Rows(g, node(g)))
    ensures Transparent(node, used)
  {
    forall f, g | f in used && g in used
      ensures Compatible(node, f, g)
    {
      if StampOf(f) == StampOf(g) {
        StampsIdentify(f, g);
      }
    }
    TransparentIff(node, used);
  }
}
