/** What a client gets by following end cursors, and exactly when that is every matching row. */
module CursorWalk {
  import opened Tables
  import opened Sequences
  import opened Sorting
  import opened Pagination

  /** The rows a query returns, page limits aside. */
  function Left(rows: seq<Row>, p: Row -> bool, d: Direction, after: CursorArgument): seq<Row> {
    Chosen(rows, Some(p), d, after, Missing)
  }

  /** The pages a client gets, from the given cursor on, until there is no next page or no cursor. A walk
      whose next query fails, or that goes on forever, is not one. */
  predicate IsWalk(rows: seq<Row>, p: Row -> bool, d: Direction, limit: int, w: Wire,
                   after: CursorArgument, pages: seq<seq<Row>>)
    decreases |pages|
  {
    && pages != []
    && Served(w, after)
    && var page := PageOf(Left(rows, p, d, Pasted(w, after)), limit, w, !after.Missing?);
       && pages[0] == page.items
       && if page.hasNext && page.end.Some? then IsWalk(rows, p, d, limit, w, At(page.end.value), pages[1..])
          else |pages| == 1
  }

  function Concat(pages: seq<seq<Row>>): seq<Row> {
    if pages == [] then [] else pages[0] + Concat(pages[1..])
  }

  /** Where the query after a row's cursor starts. */
  function Landing(w: Wire, r: Row): Cursor {
    Landed(w, Carried(w, r))
  }

  function Beyond(c: Cursor): Row -> bool {
    (r: Row) => Exceeds(r.value, r.key, c.value, c.key)
  }

  lemma OrderTotal(d: Direction)
    ensures TotalPreorder(Order(d))
  {
  }

  /** The query after a cursor returns the matching rows that exceed it, in order. */
  lemma LeftAfter(rows: seq<Row>, p: Row -> bool, d: Direction, c: Cursor)
    ensures Left(rows, p, d, At(c)) == Filter(Sort(Filter(rows, p), Order(d)), Beyond(c))
  {
    forall r <- rows
      ensures MeetsAll(Where(Some(p), At(c), Missing))(r) <==> p(r) && Beyond(c)(r)
    {
      var cs := Where(Some(p), At(c), Missing);
      assert cs == [Matches(p), After(c)];
      assert cs[0] == Matches(p) && cs[1] == After(c);
    }
    FilterAgain(rows, p, Beyond(c), MeetsAll(Where(Some(p), At(c), Missing)));
    OrderTotal(d);
    FilterSort(Filter(rows, p), Order(d), Beyond(c));
  }

  lemma LeftAtFirst(rows: seq<Row>, p: Row -> bool, d: Direction)
    ensures Left(rows, p, d, Missing) == Sort(Filter(rows, p), Order(d))
  {
    SameTest(rows, p);
  }

  lemma {:induction false} SameTest(rows: seq<Row>, p: Row -> bool)
    ensures Filter(rows, MeetsAll(Where(Some(p), Missing, Missing))) == Filter(rows, p)
  {
    if rows != [] {
      var cs := Where(Some(p), Missing, Missing);
      assert cs == [Matches(p)] && cs[0] == Matches(p);
      assert MeetsAll(cs)(rows[0]) <==> p(rows[0]);
      SameTest(rows[1..], p);
    }
  }

  // The walk without the table: `all` are the matching rows in order, `left` those of the current query

  predicate WalkOver(all: seq<Row>, left: seq<Row>, limit: int, w: Wire, pages: seq<seq<Row>>)
    requires limit >= 1
    decreases |pages|
  {
    && pages != []
    && pages[0] == Taken(left, limit)
    && if |left| > limit && w.textKeys then
         && w.paste(left[limit - 1].key).Some?
         && WalkOver(all, Filter(all, Beyond(Landing(w, left[limit - 1]))), limit, w, pages[1..])
       else |pages| == 1
  }

  lemma {:induction false} WalkIsOver(rows: seq<Row>, p: Row -> bool, d: Direction, limit: int, w: Wire,
                                      after: CursorArgument, pages: seq<seq<Row>>)
    requires limit >= 1 && Served(w, after)
    ensures IsWalk(rows, p, d, limit, w, after, pages) <==>
            WalkOver(Sort(Filter(rows, p), Order(d)), Left(rows, p, d, Pasted(w, after)), limit, w, pages)
    decreases |pages|
  {
    var left, all := Left(rows, p, d, Pasted(w, after)), Sort(Filter(rows, p), Order(d));
    if pages != [] && |left| > limit && w.textKeys {
      var c := Carried(w, left[limit - 1]);
      var next := Filter(all, Beyond(Landed(w, c)));
      assert IsWalk(rows, p, d, limit, w, At(c), pages[1..]) <==>
             w.paste(c.key).Some? && WalkOver(all, next, limit, w, pages[1..]) by {
        if w.paste(c.key).Some? {
          LeftAfter(rows, p, d, Landed(w, c));
          WalkIsOver(rows, p, d, limit, w, At(c), pages[1..]);
        } else {
          NotServed(rows, p, d, limit, w, c, pages[1..]);
        }
      }
      WalkStep(rows, p, d, limit, w, after, pages);
      OverStep(all, left, limit, w, pages);
    } else {
      LastPage(rows, p, d, limit, w, after, pages);
    }
  }

  lemma {:induction false} OverStep(all: seq<Row>, left: seq<Row>, limit: int, w: Wire, pages: seq<seq<Row>>)
    requires limit >= 1 && pages != [] && |left| > limit && w.textKeys
    ensures WalkOver(all, left, limit, w, pages) <==>
            pages[0] == left[..limit] && w.paste(left[limit - 1].key).Some? &&
            WalkOver(all, Filter(all, Beyond(Landing(w, left[limit - 1]))), limit, w, pages[1..])
  {
  }

  lemma {:induction false} LastPage(rows: seq<Row>, p: Row -> bool, d: Direction, limit: int, w: Wire,
                                    after: CursorArgument, pages: seq<seq<Row>>)
    requires limit >= 1 && Served(w, after)
    requires pages == [] || |Left(rows, p, d, Pasted(w, after))| <= limit || !w.textKeys
    ensures IsWalk(rows, p, d, limit, w, after, pages) <==>
            WalkOver(Sort(Filter(rows, p), Order(d)), Left(rows, p, d, Pasted(w, after)), limit, w, pages)
  {
  }

  lemma {:induction false} WalkStep(rows: seq<Row>, p: Row -> bool, d: Direction, limit: int, w: Wire,
                                    after: CursorArgument, pages: seq<seq<Row>>)
    requires limit >= 1 && Served(w, after) && pages != [] && |Left(rows, p, d, Pasted(w, after))| > limit && w.textKeys
    ensures var left := Left(rows, p, d, Pasted(w, after));
      IsWalk(rows, p, d, limit, w, after, pages) <==>
      pages[0] == left[..limit] && IsWalk(rows, p, d, limit, w, At(Carried(w, left[limit - 1])), pages[1..])
  {
    var left := Left(rows, p, d, Pasted(w, after));
    assert PageOf(left, limit, w, !after.Missing?).end == Some(Carried(w, left[limit - 1]));
  }

  lemma NotServed(rows: seq<Row>, p: Row -> bool, d: Direction, limit: int, w: Wire, c: Cursor, pages: seq<seq<Row>>)
    requires w.paste(c.key).None?
    ensures !IsWalk(rows, p, d, limit, w, At(c), pages)
  {
  }

  /** There is at most one walk. */
  lemma {:induction false} WalkUnique(all: seq<Row>, left: seq<Row>, limit: int, w: Wire,
                                      pages: seq<seq<Row>>, pages': seq<seq<Row>>)
    requires limit >= 1 && WalkOver(all, left, limit, w, pages) && WalkOver(all, left, limit, w, pages')
    ensures pages == pages'
    decreases |pages|
  {
    assert pages == [pages[0]] + pages[1..] && pages' == [pages'[0]] + pages'[1..];
    if |left| > limit && w.textKeys {
      var next := Filter(all, Beyond(Landing(w, left[limit - 1])));
      WalkUnique(all, next, limit, w, pages[1..], pages'[1..]);
    }
  }

  lemma ConcatFirst(pages: seq<seq<Row>>)
    requires pages != []
    ensures Concat(pages) == pages[0] + Concat(pages[1..])
    ensures |pages| == 1 ==> Concat(pages) == pages[0]
  {
    assert |pages| == 1 ==> pages[1..] == [] && pages[0] + [] == pages[0];
  }

  function PageCount(n: nat, limit: int): nat
    requires limit >= 1
  {
    if n <= limit then 1 else 1 + PageCount(n - limit, limit)
  }

  /** The number of pages is the quotient rounded up, and at least one. */
  lemma {:induction false} PageCountIs(n: nat, limit: int)
    requires limit >= 1
    ensures n <= PageCount(n, limit) * limit
    ensures if n == 0 then PageCount(n, limit) == 1 else (PageCount(n, limit) - 1) * limit < n
  {
    if n > limit {
      PageCountIs(n - limit, limit);
      var k := PageCount(n - limit, limit);
      assert (k + 1) * limit == k * limit + limit;
      assert k * limit == (k - 1) * limit + limit;
    }
  }

  predicate NoNulls(rows: seq<Row>) {
    forall r <- rows :: r.value.Some?
  }

  /** The cursor of the last row of a page reads back as a position from that row on and before the next. */
  predicate InGap(w: Wire, r: Row, next: Row) {
    w.paste(r.key).Some? && !Beyond(Landing(w, r))(r) && Beyond(Landing(w, r))(next)
  }

  /** So does the last row of every page but the last. */
  predicate GapsHold(left: seq<Row>, limit: int, w: Wire)
    requires limit >= 1
    decreases |left|
  {
    |left| <= limit || (InGap(w, left[limit - 1], left[limit]) && GapsHold(left[limit..], limit, w))
  }

  /** When following end cursors works: the rows fit on one page, or the order is ascending, no order value is
      null, keys are text, and the cursor of every page end reads back into the gap behind it. */
  predicate Walkable(ordered: seq<Row>, d: Direction, limit: int, w: Wire)
    requires limit >= 1
  {
    |ordered| <= limit || (d.Ascending? && w.textKeys && NoNulls(ordered) && GapsHold(ordered, limit, w))
  }

  // A walkable query

  ghost predicate Climbs(all: seq<Row>) {
    StrictlySorted(all, Order(Ascending)) && NoNulls(all)
  }

  lemma AscendingPasses(all: seq<Row>, c: Cursor, i: nat, j: nat)
    requires Climbs(all) && i <= j < |all|
    ensures Beyond(c)(all[i]) ==> Beyond(c)(all[j])
  {
    assert all[i].value.Some? && all[j].value.Some?;
    assert i < j ==> Order(Ascending)(all[i], all[j]);
  }

  /** A cursor in the gap before row i leaves exactly the rows from i on. */
  lemma GapDivides(all: seq<Row>, c: Cursor, i: nat)
    requires Climbs(all) && 0 < i < |all| && !Beyond(c)(all[i - 1]) && Beyond(c)(all[i])
    ensures Filter(all, Beyond(c)) == all[i..]
  {
    var a, b := all[..i], all[i..];
    forall j | 0 <= j < |a|
      ensures !Beyond(c)(a[j])
    {
      AscendingPasses(all, c, j, i - 1);
    }
    forall j | 0 <= j < |b|
      ensures Beyond(c)(b[j])
    {
      AscendingPasses(all, c, i, i + j);
    }
    assert all == a + b;
    FilterDivided(a, b, Beyond(c));
  }

  lemma FilterDivided<T>(a: seq<T>, b: seq<T>, p: T -> bool)
    requires (forall j :: 0 <= j < |a| ==> !p(a[j])) && (forall j :: 0 <= j < |b| ==> p(b[j]))
    ensures Filter(a + b, p) == b
  {
    FilterConcat(a, b, p);
    FilterMembers(a, p);
    FilterMembers(b, p);
  }

  /** The rows cut into pages. */
  function Chopped(left: seq<Row>, limit: int): seq<seq<Row>>
    requires limit >= 1
    decreases |left|
  {
    if |left| <= limit then [left] else [left[..limit]] + Chopped(left[limit..], limit)
  }

  lemma {:induction false} ChoppedWhole(left: seq<Row>, limit: int)
    requires limit >= 1
    ensures Concat(Chopped(left, limit)) == left && |Chopped(left, limit)| == PageCount(|left|, limit)
    decreases |left|
  {
    var pages := Chopped(left, limit);
    ConcatFirst(pages);
    if |left| > limit {
      ChoppedWhole(left[limit..], limit);
      assert pages[1..] == Chopped(left[limit..], limit);
      assert left == left[..limit] + left[limit..];
    }
  }

  lemma {:induction false} ChoppedIsWalk(all: seq<Row>, k: nat, limit: int, w: Wire)
    requires limit >= 1 && k <= |all| && Climbs(all) && GapsHold(all[k..], limit, w)
    requires w.textKeys || |all[k..]| <= limit
    ensures WalkOver(all, all[k..], limit, w, Chopped(all[k..], limit))
    decreases |all| - k
  {
    var left := all[k..];
    var pages := Chopped(left, limit);
    if |left| > limit {
      var i := k + limit;
      assert left[limit - 1] == all[i - 1] && left[limit] == all[i];
      GapDivides(all, Landing(w, all[i - 1]), i);
      assert left[limit..] == all[i..];
      ChoppedIsWalk(all, i, limit, w);
      assert pages[1..] == Chopped(all[i..], limit);
    } else {
      assert Taken(left, limit) == left;
    }
  }

  // A complete walk

  /** The first row of a filtered sequence, and where it comes from. */
  lemma {:induction false} FilterFirst<T>(s: seq<T>, p: T -> bool) returns (i: nat)
    requires Filter(s, p) != []
    ensures i < |s| && s[i] == Filter(s, p)[0] && p(s[i])
    ensures forall j :: 0 <= j < i ==> !p(s[j])
  {
    if p(s[0]) {
      i := 0;
    } else {
      i := FilterFirst(s[1..], p);
      i := i + 1;
    }
  }

  lemma {:induction false} NullsNeverFollow(all: seq<Row>, left: seq<Row>, limit: int, w: Wire, pages: seq<seq<Row>>)
    requires limit >= 1 && WalkOver(all, left, limit, w, pages) && NoNulls(left)
    ensures NoNulls(Concat(pages))
    decreases |pages|
  {
    ConcatFirst(pages);
    if |left| > limit && w.textKeys {
      var c := Landing(w, left[limit - 1]);
      FilterMembers(all, Beyond(c));
      NullsNeverFollow(all, Filter(all, Beyond(c)), limit, w, pages[1..]);
    }
  }

  /** Pages that give the rows from left on begin with the first of them. */
  lemma StartsRight(all: seq<Row>, next: seq<Row>, limit: int, w: Wire, pages: seq<seq<Row>>, rest: seq<Row>)
    requires limit >= 1 && WalkOver(all, next, limit, w, pages) && Concat(pages) == rest && rest != []
    ensures next != [] && next[0] == rest[0]
  {
    ConcatFirst(pages);
  }

  /** If the second page of a complete walk starts with row i, the cursor of row i - 1 is in the gap before it. */
  lemma CursorPlaced(all: seq<Row>, d: Direction, c: Cursor, i: nat)
    requires StrictlySorted(all, Order(d)) && i < |all|
    requires Filter(all, Beyond(c)) != [] && Filter(all, Beyond(c))[0] == all[i]
    ensures Beyond(c)(all[i]) && forall j :: 0 <= j < i ==> !Beyond(c)(all[j])
  {
    var f := FilterFirst(all, Beyond(c));
    StrictSame(all, Order(d), f, i);
  }

  lemma StrictSame<T>(s: seq<T>, le: (T, T) -> bool, i: nat, j: nat)
    requires StrictlySorted(s, le) && i < |s| && j < |s| && s[i] == s[j]
    ensures i == j
  {
  }

  /** Going down, what exceeds a row's cursor comes before that row. */
  lemma NoGapGoingDown(all: seq<Row>, w: Wire, i: nat)
    requires StrictlySorted(all, Order(Descending)) && 0 < i < |all|
    requires Beyond(Landing(w, all[i - 1]))(all[i])
    ensures Beyond(Landing(w, all[i - 1]))(all[i - 1])
  {
    assert Order(Descending)(all[i - 1], all[i]);
  }

  lemma NullsComeLast(all: seq<Row>, i: nat)
    requires StrictlySorted(all, Order(Ascending)) && i < |all| && NoNulls(all[i..])
    ensures NoNulls(all)
  {
    assert all[i] == all[i..][0] && all[i..][0] in all[i..];
    forall r | r in all
      ensures r.value.Some?
    {
      var j :| 0 <= j < |all| && all[j] == r;
      if j < i {
        assert Order(Ascending)(all[j], all[i]);
      } else {
        assert all[i..][j - i] == r;
      }
    }
  }

  lemma {:induction false} CompleteIsWalkable(all: seq<Row>, d: Direction, k: nat, limit: int, w: Wire,
                                              pages: seq<seq<Row>>)
    requires limit >= 1 && k <= |all| && StrictlySorted(all, Order(d))
    requires WalkOver(all, all[k..], limit, w, pages) && Concat(pages) == all[k..]
    ensures |all| - k <= limit || (d.Ascending? && w.textKeys && NoNulls(all) && GapsHold(all[k..], limit, w))
    decreases |pages|
  {
    var i := k + limit;
    if i < |all| {
      RestOfWalk(all, d, k, limit, w, pages, i);
      CompleteIsWalkable(all, d, i, limit, w, pages[1..]);
      OneMoreGap(all, k, limit, w, i);
    }
  }

  /** The pages behind a first page that ends before row i are a complete walk of the rows from there on. */
  predicate RestWalked(all: seq<Row>, i: nat, limit: int, w: Wire, pages: seq<seq<Row>>)
    requires limit >= 1 && 0 < i < |all|
  {
    var next := Filter(all, Beyond(Landing(w, all[i - 1])));
    WalkOver(all, next, limit, w, pages) && Concat(pages) == all[i..] && next != [] && next[0] == all[i]
  }

  lemma RestOfWalk(all: seq<Row>, d: Direction, k: nat, limit: int, w: Wire, pages: seq<seq<Row>>, i: nat)
    requires limit >= 1 && i == k + limit < |all| && StrictlySorted(all, Order(d))
    requires WalkOver(all, all[k..], limit, w, pages) && Concat(pages) == all[k..]
    ensures d.Ascending? && w.textKeys && NoNulls(all) && InGap(w, all[i - 1], all[i]) && pages != []
    ensures WalkOver(all, all[i..], limit, w, pages[1..]) && Concat(pages[1..]) == all[i..]
  {
    FirstPageRight(all, k, limit, w, pages, i);
    NextPageRight(all, d, i, limit, w, pages[1..]);
  }

  lemma OneMoreGap(all: seq<Row>, k: nat, limit: int, w: Wire, i: nat)
    requires limit >= 1 && i == k + limit < |all| && InGap(w, all[i - 1], all[i])
    requires |all| - i <= limit || GapsHold(all[i..], limit, w)
    ensures GapsHold(all[k..], limit, w)
  {
    var left := all[k..];
    assert left[limit..] == all[i..];
    assert left[limit - 1] == all[i - 1] && left[limit] == all[i];
  }

  /** If the query after row i - 1 is walked to exactly the rows behind it, its cursor is in the gap. */
  lemma NextPageRight(all: seq<Row>, d: Direction, i: nat, limit: int, w: Wire, pages: seq<seq<Row>>)
    requires limit >= 1 && StrictlySorted(all, Order(d)) && 0 < i < |all| && RestWalked(all, i, limit, w, pages)
    ensures d.Ascending? && NoNulls(all)
    ensures !Beyond(Landing(w, all[i - 1]))(all[i - 1]) && Beyond(Landing(w, all[i - 1]))(all[i])
    ensures WalkOver(all, all[i..], limit, w, pages) && Concat(pages) == all[i..]
  {
    var c := Landing(w, all[i - 1]);
    CursorPlaced(all, d, c, i);
    if d.Descending? {
      NoGapGoingDown(all, w, i);
      assert false;
    }
    FilterMembers(all, Beyond(c));
    NullsNeverFollow(all, Filter(all, Beyond(c)), limit, w, pages);
    NullsComeLast(all, i);
    GapDivides(all, c, i);
  }

  lemma FirstPageRight(all: seq<Row>, k: nat, limit: int, w: Wire, pages: seq<seq<Row>>, i: nat)
    requires limit >= 1 && i == k + limit < |all|
    requires WalkOver(all, all[k..], limit, w, pages) && Concat(pages) == all[k..]
    ensures pages != [] && w.textKeys && w.paste(all[i - 1].key).Some?
    ensures RestWalked(all, i, limit, w, pages[1..])
  {
    var left := all[k..];
    ConcatFirst(pages);
    FrontDropped(pages[0], Concat(pages[1..]), left);
    assert |pages[0]| == limit && |pages| != 1;
    assert left[limit..] == all[i..] && left[limit - 1] == all[i - 1];
    StartsRight(all, Filter(all, Beyond(Landing(w, left[limit - 1]))), limit, w, pages[1..], all[i..]);
  }

  lemma FrontDropped<T>(front: seq<T>, rest: seq<T>, s: seq<T>)
    requires front + rest == s
    ensures |front| <= |s| && rest == s[|front|..]
  {
  }

  // Every query

  ghost predicate UniqueKeys(rows: seq<Row>) {
    forall i, j :: 0 <= i < j < |rows| ==> rows[i].key != rows[j].key
  }

  lemma MatchingStrict(rows: seq<Row>, p: Row -> bool, d: Direction)
    requires UniqueKeys(rows)
    ensures StrictlySorted(Sort(Filter(rows, p), Order(d)), Order(d))
  {
    var mine := Filter(rows, p);
    forall i, j | 0 <= i < j < |mine|
      ensures !(Order(d)(mine[i], mine[j]) && Order(d)(mine[j], mine[i]))
    {
      var a, b := FilterOrder(rows, p, i, j);
    }
    OrderTotal(d);
    SortStrict(mine, Order(d));
  }

  /** The walk delivers every matching row exactly once, in order. */
  ghost predicate Complete(rows: seq<Row>, p: Row -> bool, d: Direction, limit: int, w: Wire, pages: seq<seq<Row>>) {
    IsWalk(rows, p, d, limit, w, Missing, pages) && Concat(pages) == Sort(Filter(rows, p), Order(d))
  }

  /** The pages of a walkable query. */
  lemma WalkableWalks(rows: seq<Row>, p: Row -> bool, d: Direction, limit: int, w: Wire)
    requires UniqueKeys(rows) && limit >= 1
    requires Walkable(Sort(Filter(rows, p), Order(d)), d, limit, w)
    ensures var all := Sort(Filter(rows, p), Order(d));
      && Complete(rows, p, d, limit, w, Chopped(all, limit))
      && |Chopped(all, limit)| == PageCount(|Filter(rows, p)|, limit)
  {
    var all := Sort(Filter(rows, p), Order(d));
    SortKeeps(Filter(rows, p), Order(d));
    LeftAtFirst(rows, p, d);
    ChoppedWhole(all, limit);
    WalkIsOver(rows, p, d, limit, w, Missing, Chopped(all, limit));
    assert all[0..] == all;
    if |all| <= limit {
      assert Taken(all, limit) == all;
    } else {
      MatchingStrict(rows, p, d);
      ChoppedIsWalk(all, 0, limit, w);
    }
  }

  /** Following end cursors delivers every matching row exactly once, in order, if and only if the query is
      walkable; then it takes the least number of pages. */
  lemma WalkCompleteIff(rows: seq<Row>, p: Row -> bool, d: Direction, limit: int, w: Wire)
    requires UniqueKeys(rows) && limit >= 1
    ensures (exists pages :: Complete(rows, p, d, limit, w, pages)) <==>
            Walkable(Sort(Filter(rows, p), Order(d)), d, limit, w)
    ensures forall pages :: Complete(rows, p, d, limit, w, pages) ==> |pages| == PageCount(|Filter(rows, p)|, limit)
  {
    var all := Sort(Filter(rows, p), Order(d));
    LeftAtFirst(rows, p, d);
    MatchingStrict(rows, p, d);
    assert all[0..] == all;
    forall pages | Complete(rows, p, d, limit, w, pages)
      ensures Walkable(all, d, limit, w) && |pages| == PageCount(|Filter(rows, p)|, limit)
    {
      WalkIsOver(rows, p, d, limit, w, Missing, pages);
      CompleteIsWalkable(all, d, 0, limit, w, pages);
      WalkableWalks(rows, p, d, limit, w);
      WalkIsOver(rows, p, d, limit, w, Missing, Chopped(all, limit));
      WalkUnique(all, all, limit, w, pages, Chopped(all, limit));
    }
    if Walkable(all, d, limit, w) {
      WalkableWalks(rows, p, d, limit, w);
    }
  }

  // Cursors that read back exactly, and cursors that do not

  /** Keys and order values that survive a cursor. */
  predicate Exact(w: Wire, rows: seq<Row>) {
    && w.textKeys
    && forall r <- rows :: w.paste(r.key) == Some(r.key) && (r.value.Some? ==> w.carry(r.value.value) == r.value)
  }

  lemma {:induction false} ExactGaps(left: seq<Row>, limit: int, w: Wire)
    requires limit >= 1 && Climbs(left) && Exact(w, left)
    ensures GapsHold(left, limit, w)
    decreases |left|
  {
    if |left| > limit {
      var r, next := left[limit - 1], left[limit];
      assert r in left && next in left;
      assert Order(Ascending)(r, next) && !Order(Ascending)(next, r);
      TailClimbs(left, limit);
      ExactGaps(left[limit..], limit, w);
    }
  }

  lemma TailClimbs(left: seq<Row>, i: nat)
    requires Climbs(left) && i <= |left|
    ensures Climbs(left[i..])
  {
  }

  /** With plain text keys and order values that JSON holds exactly, every ascending query without null order
      values is walked completely. */
  lemma ExactCursorsSuffice(rows: seq<Row>, p: Row -> bool, limit: int, w: Wire)
    requires UniqueKeys(rows) && limit >= 1 && NoNulls(Filter(rows, p)) && Exact(w, Filter(rows, p))
    ensures Walkable(Sort(Filter(rows, p), Order(Ascending)), Ascending, limit, w)
  {
    MatchingStrict(rows, p, Ascending);
    SortKeeps(Filter(rows, p), Order(Ascending));
    ExactGaps(Sort(Filter(rows, p), Order(Ascending)), limit, w);
  }

  /** If the cursor of the first page reads back before the first row, the client gets that page forever. */
  lemma {:induction false} Endless(all: seq<Row>, limit: int, w: Wire, pages: seq<seq<Row>>)
    requires limit >= 1 && |all| > limit && w.textKeys
    requires Filter(all, Beyond(Landing(w, all[limit - 1]))) == all
    ensures !WalkOver(all, all, limit, w, pages)
    decreases |pages|
  {
    if pages != [] {
      Endless(all, limit, w, pages[1..]);
    }
  }

  // Numbers in JSON

  /** The distance between neighbouring doubles around a number. */
  function Spacing(x: nat): (u: nat)
    ensures u >= 1
  {
    if x < 0x20_0000_0000_0000 then 1 else 2 * Spacing(x / 2)
  }

  /** The nearest double, ties to even. */
  function Rounded(x: nat): nat {
    var u := Spacing(x);
    var q, r := x / u, x % u;
    if 2 * r < u || (2 * r == u && q % 2 == 0) then q * u else (q + 1) * u
  }

  /** An integer as a JSON number is read: exactly if it fits 64 bits, else as a double. */
  function ReadNumber(x: int): Option<int> {
    if -0x8000_0000_0000_0000 <= x < 0x1_0000_0000_0000_0000 then Some(x)
    else Some(if x > 0 then Rounded(x) else 0 - Rounded(0 - x))
  }

  const BigNumber: int := 100_000_000_000_000_000_001

  lemma BigNumberRounded()
    ensures ReadNumber(BigNumber) == Some(BigNumber - 1)
  {
    assert Spacing(BigNumber) == 0x4000;
  }

  function Everything(): Row -> bool {
    (r: Row) => true
  }

  /** Two rows, one per page: if the first row's cursor reads back before it, its page comes again and again. */
  lemma FirstRepeats(r: Row, next: Row, w: Wire, pages: seq<seq<Row>>)
    requires w.textKeys && Order(Ascending)(r, next) && !Order(Ascending)(next, r)
    requires Beyond(Landing(w, r))(r) && Beyond(Landing(w, r))(next)
    ensures !IsWalk([r, next], Everything(), Ascending, 1, w, Missing, pages)
  {
    var rows := [r, next];
    FilterMembers(rows, Everything());
    assert rows[1..] == [next] && Sort([next], Order(Ascending)) == [next];
    assert Sort(rows, Order(Ascending)) == rows;
    FilterMembers(rows, Beyond(Landing(w, r)));
    Endless(rows, 1, w, pages);
    LeftAtFirst(rows, Everything(), Ascending);
    WalkIsOver(rows, Everything(), Ascending, 1, w, Missing, pages);
  }

  /** Two amounts above 2 to the 64, one row per page. */
  lemma BigNumberRepeats(w: Wire, pages: seq<seq<Row>>)
    requires w.textKeys && w.carry(BigNumber) == ReadNumber(BigNumber)
    ensures var rows := [Row(1, Some(BigNumber)), Row(2, Some(BigNumber + 1))];
      !IsWalk(rows, Everything(), Ascending, 1, w, Missing, pages)
  {
    BigNumberRounded();
    FirstRepeats(Row(1, Some(BigNumber)), Row(2, Some(BigNumber + 1)), w, pages);
  }

  /** Two rows with the same order value, one per page, where the first key reads back as an earlier one. */
  lemma PairedKeyRepeats(k: int, next: int, v: int, w: Wire, pages: seq<seq<Row>>)
    requires w.textKeys && w.carry(v) == Some(v) && k < next
    requires w.paste(k).Some? && w.paste(k).value < k
    ensures !IsWalk([Row(k, Some(v)), Row(next, Some(v))], Everything(), Ascending, 1, w, Missing, pages)
  {
    FirstRepeats(Row(k, Some(v)), Row(next, Some(v)), w, pages);
  }

  /** A key that cannot be pasted into the next query ends every walk at its page. */
  lemma QuotedKeyStops(rows: seq<Row>, p: Row -> bool, d: Direction, limit: int, w: Wire, pages: seq<seq<Row>>)
    requires limit >= 1 && w.textKeys && |Left(rows, p, d, Missing)| > limit
    requires w.paste(Left(rows, p, d, Missing)[limit - 1].key).None?
    ensures !IsWalk(rows, p, d, limit, w, Missing, pages)
  {
    WalkIsOver(rows, p, d, limit, w, Missing, pages);
  }
}
