/** Keyset pagination of list queries (crates/forge-index-api/src/graphql/resolver.rs).
    Keys and order values are given by their rank in the order of their column, since a list query
    only compares them. */
module Pagination {
  import opened Tables
  import opened Sequences
  import opened Sorting

  /** A row: its primary key and its value in the order column, if not null. */
  datatype Row = Row(key: int, value: Option<int>)

  datatype Direction = Ascending | Descending

  /** The position a cursor encodes. */
  datatype Cursor = Cursor(key: int, value: Option<int>)

  /** A cursor argument; one that does not decode is ignored. */
  datatype CursorArgument = Missing | Undecodable | At(cursor: Cursor)

  datatype Page = Page(
    items: seq<Row>, hasNext: bool, hasPrevious: bool,
    start: Option<Cursor>, end: Option<Cursor>, total: nat)

  datatype QueryError = NegativeLimit | CursorRefused

  /** What becomes of a row's position on its way through a cursor. The order value turns into a JSON value
      and back into SQL: a number above 2 to the 64 is rounded to a double, and what is neither text, number
      nor boolean becomes NULL. The key has to be text to get into a cursor, and is pasted between apostrophes
      into the next query as it is: a key whose apostrophes come in pairs reads back as another key, and
      one with a single apostrophe makes that query fail. */
  datatype Wire = Wire(textKeys: bool, carry: int -> Option<int>, paste: int -> Option<int>)

  /** The conditions joined by AND in the WHERE clause. */
  datatype Condition = Matches(filter: Row -> bool) | After(cursor: Cursor) | Before(cursor: Cursor)

  /** A SQL row comparison holds only if neither order value is null. */
  predicate Exceeds(value: Option<int>, key: int, value': Option<int>, key': int) {
    value.Some? && value'.Some? && (value.value > value'.value || (value.value == value'.value && key > key'))
  }

  predicate Meets(r: Row, c: Condition) {
    match c
    case Matches(p) => p(r)
    case After(c) => Exceeds(r.value, r.key, c.value, c.key)
    case Before(c) => Exceeds(c.value, c.key, r.value, r.key)
  }

  function MeetsAll(cs: seq<Condition>): Row -> bool {
    (r: Row) => forall i :: 0 <= i < |cs| ==> Meets(r, cs[i])
  }

  /** ORDER BY value, key: nulls come last when ascending and first when descending. */
  predicate RankedAtMost(r: Row, s: Row) {
    if r.value.None? then s.value.None? && r.key <= s.key
    else s.value.None? || r.value.value < s.value.value || (r.value == s.value && r.key <= s.key)
  }

  function Order(d: Direction): (Row, Row) -> bool {
    match d
    case Ascending => (r: Row, s: Row) => RankedAtMost(r, s)
    case Descending => (r: Row, s: Row) => RankedAtMost(s, r)
  }

  function EffectiveLimit(limit: Option<int>): int {
    var l := if limit.Some? then limit.value else 100;
    if l <= 1000 then l else 1000
  }

  function Taken<T>(s: seq<T>, n: int): seq<T> {
    if n <= 0 then [] else if n <= |s| then s[..n] else s
  }

  function Where(filter: Option<Row -> bool>, after: CursorArgument, before: CursorArgument): seq<Condition> {
    (if filter.Some? then [Matches(filter.value)] else [])
    + (if after.At? then [After(after.cursor)] else [])
    + (if before.At? then [Before(before.cursor)] else [])
  }

  /** The position that a row's cursor reads back as. */
  function Carried(w: Wire, r: Row): Cursor {
    Cursor(r.key, if r.value.Some? then w.carry(r.value.value) else None)
  }

  /** A cursor can be built from a row only if its key is text. */
  function CursorOf(items: seq<Row>, i: int, w: Wire): Option<Cursor> {
    if 0 <= i < |items| && w.textKeys then Some(Carried(w, items[i])) else None
  }

  /** The query with this cursor is valid SQL. */
  predicate Served(w: Wire, cursor: CursorArgument) {
    cursor.At? ==> w.paste(cursor.cursor.key).Some?
  }

  /** The position that the query reads out of a cursor. */
  function Landed(w: Wire, c: Cursor): Cursor {
    Cursor(if w.paste(c.key).Some? then w.paste(c.key).value else c.key, c.value)
  }

  function Pasted(w: Wire, cursor: CursorArgument): CursorArgument {
    if cursor.At? then At(Landed(w, cursor.cursor)) else cursor
  }

  /** The page over the rows that are left by the WHERE clause, in order. */
  function PageOf(left: seq<Row>, limit: int, w: Wire, hasPrevious: bool): Page {
    var items := Taken(left, limit);
    Page(items, |left| > limit, hasPrevious,
         CursorOf(items, 0, w), CursorOf(items, |items| - 1, w), |left|)
  }

  /** The rows that the WHERE clause leaves, in order. */
  function Chosen(rows: seq<Row>, filter: Option<Row -> bool>, d: Direction,
                  after: CursorArgument, before: CursorArgument): seq<Row>
  {
    Sort(Filter(rows, MeetsAll(Where(filter, after, before))), Order(d))
  }

  method BuildWhere(filter: Option<Row -> bool>, after: CursorArgument, before: CursorArgument)
    returns (parts: seq<Condition>)
    ensures parts == Where(filter, after, before)
  {
    parts := [];
    if filter.Some? {
      parts := parts + [Matches(filter.value)];
    }
    if after.At? {
      parts := parts + [After(after.cursor)];
    }
    if before.At? {
      parts := parts + [Before(before.cursor)];
    }
  }

  /** The list query. The database refuses a negative LIMIT and a cursor key that ends its own literal. */
  method ResolveList(rows: seq<Row>, filter: Option<Row -> bool>, d: Direction, limit: Option<int>,
                     after: CursorArgument, before: CursorArgument, w: Wire)
    returns (page: Result<Page, QueryError>)
    ensures page.Err? <==> EffectiveLimit(limit) < -1 || !Served(w, after) || !Served(w, before)
    ensures page.Ok? ==>
      page.value == PageOf(Chosen(rows, filter, d, Pasted(w, after), Pasted(w, before)),
                           EffectiveLimit(limit), w, !after.Missing?)
  {
    if !Served(w, after) || !Served(w, before) {
      return Err(CursorRefused);
    }
    var parts := BuildWhere(filter, Pasted(w, after), Pasted(w, before));
    var matching := Filter(rows, MeetsAll(parts));
    var most := EffectiveLimit(limit);
    if most + 1 < 0 {
      return Err(NegativeLimit);
    }
    var ordered := Sort(matching, Order(d));
    var fetched := Taken(ordered, most + 1);
    var items := Taken(fetched, most);
    SortKeeps(matching, Order(d));
    OneMoreTells(ordered, most);
    return Ok(Page(items, |fetched| > most, !after.Missing?,
                   CursorOf(items, 0, w), CursorOf(items, |items| - 1, w), |matching|));
  }

  /** Fetching one row more than the limit tells whether there are more. */
  lemma OneMoreTells<T>(s: seq<T>, limit: int)
    requires limit >= -1
    ensures Taken(Taken(s, limit + 1), limit) == Taken(s, limit)
    ensures |Taken(s, limit + 1)| > limit <==> |s| > limit
  {
  }

  // What a page is, from the query's arguments

  /** The row meets the filter, comes behind the `after` cursor and ahead of the `before` cursor; a cursor or row
      without an order value meets nothing. */
  ghost predicate Meant(r: Row, filter: Option<Row -> bool>, after: CursorArgument, before: CursorArgument) {
    && (filter.Some? ==> filter.value(r))
    && (after.At? ==>
          var c := after.cursor;
          r.value.Some? && c.value.Some? &&
          (c.value.value < r.value.value || (c.value.value == r.value.value && c.key < r.key)))
    && (before.At? ==>
          var c := before.cursor;
          r.value.Some? && c.value.Some? &&
          (r.value.value < c.value.value || (r.value.value == c.value.value && r.key < c.key)))
  }

  /** r comes no later than s: lower values first and then lower keys, or the other way round; null counts as the
      highest value. */
  ghost predicate NoLater(d: Direction, r: Row, s: Row) {
    if d.Ascending? then
      if r.value == s.value then r.key <= s.key else r.value.Some? && (s.value.None? || r.value.value < s.value.value)
    else
      if r.value == s.value then r.key >= s.key else s.value.Some? && (r.value.None? || r.value.value > s.value.value)
  }

  lemma WhereMeans(r: Row, filter: Option<Row -> bool>, after: CursorArgument, before: CursorArgument)
    ensures MeetsAll(Where(filter, after, before))(r) <==> Meant(r, filter, after, before)
  {
    var f := if filter.Some? then [Matches(filter.value)] else [];
    var a := if after.At? then [After(after.cursor)] else [];
    var b := if before.At? then [Before(before.cursor)] else [];
    MeetsConcat(f + a, b, r);
    MeetsConcat(f, a, r);
    assert filter.Some? ==> f[0] == Matches(filter.value);
    assert after.At? ==> a[0] == After(after.cursor);
    assert before.At? ==> b[0] == Before(before.cursor);
  }

  lemma MeetsConcat(a: seq<Condition>, b: seq<Condition>, r: Row)
    ensures MeetsAll(a + b)(r) <==> MeetsAll(a)(r) && MeetsAll(b)(r)
  {
    assert forall i :: 0 <= i < |a| ==> (a + b)[i] == a[i];
    assert forall i :: 0 <= i < |b| ==> (a + b)[|a| + i] == b[i];
    if MeetsAll(a)(r) && MeetsAll(b)(r) {
      forall i | 0 <= i < |a + b|
        ensures Meets(r, (a + b)[i])
      {
        if i >= |a| {
          assert (a + b)[i] == b[i - |a|];
        }
      }
    }
  }

  lemma {:induction false} FilterMeant(rows: seq<Row>, filter: Option<Row -> bool>, after: CursorArgument,
                                       before: CursorArgument)
    ensures var kept := Filter(rows, MeetsAll(Where(filter, after, before)));
      forall r :: multiset(kept)[r] == if Meant(r, filter, after, before) then multiset(rows)[r] else 0
  {
    if rows != [] {
      assert rows == [rows[0]] + rows[1..];
      WhereMeans(rows[0], filter, after, before);
      FilterMeant(rows[1..], filter, after, before);
    }
  }

  /** The rows behind a page are the ones meant, each as often as the table has it, in order. */
  lemma ChosenExact(rows: seq<Row>, filter: Option<Row -> bool>, d: Direction, after: CursorArgument,
                    before: CursorArgument)
    ensures var left := Chosen(rows, filter, d, after, before);
      && (forall r :: multiset(left)[r] == if Meant(r, filter, after, before) then multiset(rows)[r] else 0)
      && (forall i, j :: 0 <= i < j < |left| ==> NoLater(d, left[i], left[j]))
  {
    var kept := Filter(rows, MeetsAll(Where(filter, after, before)));
    FilterMeant(rows, filter, after, before);
    SortKeeps(kept, Order(d));
    assert TotalPreorder(Order(d));
    SortSorts(kept, Order(d));
    var left := Chosen(rows, filter, d, after, before);
    forall i, j | 0 <= i < j < |left|
      ensures NoLater(d, left[i], left[j])
    {
      assert Order(d)(left[i], left[j]);
    }
  }

  /** A page has the first of the rows left, at most as many as asked for and at most 1000; 100 are asked for by
      default. There is a next page if and only if more are left, and the cursors are those of its first and last
      row. */
  lemma PageExact(left: seq<Row>, limit: Option<int>, w: Wire, hasPrevious: bool)
    requires limit.Some? ==> limit.value >= 0
    ensures var asked := if limit.None? then 100 else limit.value;
      var n := if asked > 1000 then 1000 else asked;
      var page := PageOf(left, EffectiveLimit(limit), w, hasPrevious);
      && |page.items| == (if |left| <= n then |left| else n) && page.items <= left
      && (page.hasNext <==> |page.items| < |left|) && page.total == |left| && page.hasPrevious == hasPrevious
      && (page.items == [] || !w.textKeys ==> page.start == None && page.end == None)
      && (page.items != [] && w.textKeys ==>
            && page.start == Some(Carried(w, left[0]))
            && page.end == Some(Carried(w, left[|page.items| - 1])))
  {
  }
}
