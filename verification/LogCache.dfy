/** The durable log cache and the client in front of it
    (crates/forge-index-rpc/src/cache/store.rs, crates/forge-index-rpc/src/cached_client.rs).
    Cached logs share one table whose primary key is the position of the log on its chain, so a log
    can be cached for one filter only. */
module LogCache {
  import opened Tables
  import opened Sequences
  import opened Sorting
  import opened Naturals

  type u32 = x: int | 0 <= x < 0x1_0000_0000

  type u64 = x: int | 0 <= x < 0x1_0000_0000_0000_0000

  // The casts between the node's unsigned integers and the table's signed ones.

  function AsI32(x: u32): int {
    if x < 0x8000_0000 then x else x - 0x1_0000_0000
  }

  function AsU32(x: int): u32 {
    x % 0x1_0000_0000
  }

  function AsI64(x: u64): int {
    if x < 0x8000_0000_0000_0000 then x else x - 0x1_0000_0000_0000_0000
  }

  function AsU64(x: int): u64 {
    x % 0x1_0000_0000_0000_0000
  }

  /** A log; hashes and addresses are their text. */
  datatype Log = Log(
    chain: u64, address: string, topics: seq<string>, data: seq<bv8>, block: u64,
    blockHash: string, txHash: string, index: u32, txIndex: u32, removed: bool)

  /** A log filter on a chain; a topic position is a wildcard or a list of alternatives. */
  datatype Query = Query(
    chain: u64, from: u64, to: u64, addresses: seq<string>, topics: seq<Option<seq<string>>>)

  /** The primary key. */
  datatype Position = Position(chain: int, block: int, index: int)

  /** The columns that say which query a row answers. */
  datatype Stamp = Stamp(chain: int, from: int, to: int, addresses: seq<string>, topics: seq<string>)

  datatype Row = Row(
    at: Position, stamp: Stamp, blockHash: string, txHash: string, txIndex: int,
    address: string, topics: seq<string>, data: seq<bv8>, removed: bool)

  datatype RpcError = NodeFailed

  function Joined(parts: seq<string>): string {
    if parts == [] then "" else if |parts| == 1 then parts[0] else parts[0] + "," + Joined(parts[1..])
  }

  /** Wildcard positions leave no trace in the stamp. */
  function TopicTexts(topics: seq<Option<seq<string>>>): seq<string> {
    if topics == [] then []
    else (if topics[0].Some? then [Joined(topics[0].value)] else []) + TopicTexts(topics[1..])
  }

  function StampOf(q: Query): Stamp {
    Stamp(AsI64(q.chain), AsI64(q.from), AsI64(q.to), q.addresses, TopicTexts(q.topics))
  }

  function ToRow(q: Query, l: Log): Row {
    Row(Position(AsI64(q.chain), AsI64(l.block), AsI32(l.index)), StampOf(q), l.blockHash, l.txHash,
        AsI32(l.txIndex), l.address, l.topics, l.data, l.removed)
  }

  function Sentinel(q: Query): Row {
    Row(Position(AsI64(q.chain), -1, -1), StampOf(q), "", "", -1, "", [], [], false)
  }

  function FromRow(r: Row, chain: u64): Log {
    Log(chain, r.address, r.topics, r.data, AsU64(r.at.block), r.blockHash, r.txHash,
        AsU32(r.at.index), AsU32(r.txIndex), r.removed)
  }

  // Table operations. Rows are listed in insertion order.

  predicate Taken(rows: seq<Row>, at: Position) {
    exists r <- rows :: r.at == at
  }

  /** INSERT … ON CONFLICT DO NOTHING. */
  function Inserted(rows: seq<Row>, r: Row): seq<Row> {
    if Taken(rows, r.at) then rows else rows + [r]
  }

  function InsertedAll(rows: seq<Row>, rs: seq<Row>): seq<Row>
    decreases |rs|
  {
    if rs == [] then rows else InsertedAll(Inserted(rows, rs[0]), rs[1..])
  }

  function Rows(q: Query, logs: seq<Log>): seq<Row> {
    seq(|logs|, i requires 0 <= i < |logs| => ToRow(q, logs[i]))
  }

  /** The rows that storing an answer tries to insert, one statement each. */
  function Statements(q: Query, logs: seq<Log>): seq<Row> {
    if logs == [] then [Sentinel(q)] else Rows(q, logs)
  }

  function Bearing(stamp: Stamp): Row -> bool {
    (r: Row) => r.stamp == stamp
  }

  function ByPosition(): (Row, Row) -> bool {
    (r: Row, s: Row) => r.at.block < s.at.block || (r.at.block == s.at.block && r.at.index <= s.at.index)
  }

  function Selected(rows: seq<Row>, q: Query): seq<Row> {
    Sort(Filter(rows, Bearing(StampOf(q))), ByPosition())
  }

  function Logs(rows: seq<Row>, chain: u64): seq<Log> {
    seq(|rows|, i requires 0 <= i < |rows| => FromRow(rows[i], chain))
  }

  function Lookup(rows: seq<Row>, q: Query): Option<seq<Log>> {
    var found := Selected(rows, q);
    if found == [] then None else Some(Logs(found, q.chain))
  }

  function Genuine(): Log -> bool {
    (l: Log) => l.index != 0xFFFF_FFFF
  }

  // One call of the client

  /** A call and what befalls it: whether the cache can be read, whether the node answers, and how
      many of the insert statements complete. */
  datatype Call = Call(query: Query, readable: bool, answered: bool, stored: nat)

  type Node = Query -> seq<Log>

  function Hit(rows: seq<Row>, c: Call): Option<seq<Log>> {
    if c.readable then Lookup(rows, c.query) else None
  }

  function Reply(node: Node, rows: seq<Row>, c: Call): Result<seq<Log>, RpcError> {
    match Hit(rows, c)
    case Some(logs) => Ok(Filter(logs, Genuine()))
    case None => if c.answered then Ok(node(c.query)) else Err(NodeFailed)
  }

  function Stored(rows: seq<Row>, q: Query, logs: seq<Log>, statements: nat): seq<Row> {
    var rs := Statements(q, logs);
    InsertedAll(rows, rs[..Min(statements, |rs|)])
  }

  function After(node: Node, rows: seq<Row>, c: Call): seq<Row> {
    if Hit(rows, c).None? && c.answered then Stored(rows, c.query, node(c.query), c.stored) else rows
  }

  /** A right reply is the node's answer, or its failure on a miss. */
  predicate Right(node: Node, c: Call, reply: Result<seq<Log>, RpcError>) {
    reply == Ok(node(c.query)) || (reply.Err? && !c.answered)
  }

  predicate AllRight(node: Node, rows: seq<Row>, calls: seq<Call>)
    decreases |calls|
  {
    calls == [] ||
    (Right(node, calls[0], Reply(node, rows, calls[0])) &&
     AllRight(node, After(node, rows, calls[0]), calls[1..]))
  }

  // Conversions

  lemma CastsInvert(x: u32, y: u64)
    ensures AsU32(AsI32(x)) == x && AsU64(AsI64(y)) == y
  {
  }

  /** A log survives the table's signed columns. */
  lemma RowRoundTrip(q: Query, l: Log)
    requires l.chain == q.chain
    ensures FromRow(ToRow(q, l), q.chain) == l
  {
    CastsInvert(l.index, l.block);
    CastsInvert(l.txIndex, l.block);
  }

  lemma RowsRoundTrip(q: Query, logs: seq<Log>)
    requires forall l <- logs :: l.chain == q.chain
    ensures Logs(Rows(q, logs), q.chain) == logs
  {
    forall i | 0 <= i < |logs|
      ensures Logs(Rows(q, logs), q.chain)[i] == logs[i]
    {
      RowRoundTrip(q, logs[i]);
    }
  }

  lemma SameStampSameChain(f: Query, g: Query)
    requires StampOf(f) == StampOf(g)
    ensures f.chain == g.chain
  {
    CastsInvert(0, f.chain);
    CastsInvert(0, g.chain);
  }

  lemma SameStampSameStatements(node: Node, f: Query, g: Query)
    requires StampOf(f) == StampOf(g) && node(f) == node(g)
    ensures Statements(f, node(f)) == Statements(g, node(g))
  {
    SameStampSameChain(f, g);
  }

  lemma StatementsOf(q: Query, logs: seq<Log>, r: Row)
    requires r in Statements(q, logs)
    ensures r.stamp == StampOf(q) && r.at.chain == AsI64(q.chain)
  {
  }

  // The store and the client

  class RpcCacheStore {
    var rows: seq<Row>

    constructor ()
      ensures rows == []
    {
      rows := [];
    }

    /** Logs cached for a query; None if the table has no row for it or could not be read. */
    method GetLogs(q: Query, readable: bool) returns (found: Option<seq<Log>>)
      ensures found == if readable then Lookup(rows, q) else None
    {
      if !readable {
        return None;
      }
      var selected := Selected(rows, q);
      if |selected| == 0 {
        return None;
      }
      return Some(Logs(selected, q.chain));
    }

    /** Stores an answer; after `statements` statements the connection is lost. */
    method PutLogs(q: Query, logs: seq<Log>, statements: nat) returns (done: bool)
      modifies this
      ensures rows == Stored(old(rows), q, logs, statements)
      ensures done <==> statements >= |Statements(q, logs)|
    {
      var todo := Statements(q, logs);
      ghost var limit := Min(statements, |todo|);
      for i := 0 to |logs|
        invariant i <= statements
        invariant InsertedAll(rows, todo[i..limit]) == InsertedAll(old(rows), todo[..limit])
      {
        if i == statements {
          return false;
        }
        assert todo[i..limit][0] == ToRow(q, logs[i]) && todo[i..limit][1..] == todo[i + 1..limit];
        rows := Inserted(rows, ToRow(q, logs[i]));
      }
      if logs == [] {
        if statements == 0 {
          return false;
        }
        assert todo[..limit][0] == Sentinel(q) && todo[..limit][1..] == [];
        rows := Inserted(rows, Sentinel(q));
      }
      return true;
    }
  }

  class CachedRpcClient {
    const node: Node
    const cache: RpcCacheStore
    var hits: u64
    var misses: u64

    constructor (node: Node, cache: RpcCacheStore)
      ensures this.node == node && this.cache == cache && hits == 0 && misses == 0
    {
      this.node, this.cache := node, cache;
      hits, misses := 0, 0;
    }

    /** One call; the counters wrap around. */
    method GetLogs(c: Call) returns (reply: Result<seq<Log>, RpcError>)
      modifies this, cache
      ensures reply == Reply(node, old(cache.rows), c)
      ensures cache.rows == After(node, old(cache.rows), c)
      ensures Hit(old(cache.rows), c).Some? ==> hits == AsU64(old(hits) + 1) && misses == old(misses)
      ensures Hit(old(cache.rows), c).None? ==> hits == old(hits) && misses == AsU64(old(misses) + 1)
    {
      var found := cache.GetLogs(c.query, c.readable);
      if found.Some? {
        hits := AsU64(hits + 1);
        return Ok(Filter(found.value, Genuine()));
      }
      misses := AsU64(misses + 1);
      if !c.answered {
        return Err(NodeFailed);
      }
      var logs := node(c.query);
      var stored := cache.PutLogs(c.query, logs, c.stored);
      return Ok(logs);
    }
  }
}
