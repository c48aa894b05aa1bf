/** Reorg detection as pure functions over the stored (number, hash) pairs of one chain:
    crates/forge-index-sync/src/reorg/chain_state.rs and detector.rs. */
module Chain {
  import opened Tables
  import opened Sequences

  /** A 32-byte hash; only equality of hashes is used. */
  datatype Hash32 = Hash32(word: nat)

  datatype Block = Block(number: nat, hash: Hash32, parentHash: Hash32)

  datatype Entry = Entry(number: nat, hash: Hash32)

  /** The node's answer for a block number: the hash of its block, or an RPC error. */
  type Node = nat -> Option<Hash32>

  datatype Decision = Normal | Reorg(chainId: nat, forkBlock: nat, newTip: nat)

  datatype SyncError =
    | ChainNotFound(chainId: nat)
    | Rpc(chainId: nat)
    | DeepReorg(chainId: nat, depth: nat)
    | Database(error: DbError)
    | Overflow(newTip: nat, forkBlock: nat)

  const DEFAULT_CAPACITY: nat := 128

  function SaturatingSub(a: nat, b: nat): nat {
    if a < b then 0 else a - b
  }

  function Pushed(s: seq<Entry>, capacity: nat, e: Entry): seq<Entry> {
    (if |s| >= capacity && s != [] then s[1..] else s) + [e]
  }

  /** The first stored hash for a block number. */
  function FindHash(s: seq<Entry>, n: nat): Option<Hash32> {
    if s == [] then None
    else if s[0].number == n then Some(s[0].hash)
    else FindHash(s[1..], n)
  }

  function Pruned(s: seq<Entry>, k: nat): seq<Entry> {
    if s != [] && s[|s| - 1].number > k then Pruned(s[..|s| - 1], k) else s
  }

  /** Walking down from block n to block lo in search of the common ancestor. */
  function Walk(s: seq<Entry>, node: Node, id: nat, n: nat, lo: nat): Result<nat, SyncError> {
    if n < lo then Err(DeepReorg(id, DEFAULT_CAPACITY))
    else match node(n)
      case None => Err(Rpc(id))
      case Some(canonical) =>
        match FindHash(s, n)
        case None => Ok(n + 1)
        case Some(stored) =>
          if stored == canonical then Ok(n + 1)
          else if n == 0 then Err(DeepReorg(id, DEFAULT_CAPACITY))
          else Walk(s, node, id, n - 1, lo)
  }

  function ForkPoint(s: seq<Entry>, client: Option<Node>, id: nat, tip: nat): Result<nat, SyncError> {
    match client
    case None => Err(ChainNotFound(id))
    case Some(node) => Walk(s, node, id, SaturatingSub(tip, 1), SaturatingSub(tip, DEFAULT_CAPACITY))
  }

  /** What processing a block answers and the state it leaves. */
  function Decide(s: seq<Entry>, client: Option<Node>, id: nat, b: Block)
    : (Result<Decision, SyncError>, seq<Entry>)
  {
    var accepted := (Ok(Normal), Pushed(s, DEFAULT_CAPACITY, Entry(b.number, b.hash)));
    if s == [] || b.number == 0 then accepted
    else match FindHash(s, b.number - 1)
      case None => accepted
      case Some(stored) =>
        if stored == b.parentHash then accepted
        else match ForkPoint(s, client, id, b.number)
          case Err(e) => (Err(e), s)
          case Ok(fork) => (Ok(Reorg(id, fork, b.number)), Pruned(s, SaturatingSub(fork, 1)))
  }

  // The chain-state invariant

  predicate Ascending(s: seq<Entry>) {
    forall i, j :: 0 <= i < j < |s| ==> s[i].number < s[j].number
  }

  /** Stored neighbours n and n + 1 are parent and child; parentOf reads the parent hash out of
      the header that a block hash stands for. */
  ghost predicate Linked(s: seq<Entry>, parentOf: Hash32 -> Hash32) {
    forall i, j :: 0 <= i < |s| && 0 <= j < |s| && s[j].number == s[i].number + 1 ==> parentOf(s[j].hash) == s[i].hash
  }

  ghost predicate ChainInvariant(s: seq<Entry>, parentOf: Hash32 -> Hash32) {
    Ascending(s) && |s| <= DEFAULT_CAPACITY && Linked(s, parentOf)
  }

  /** The block number exceeds the latest stored one. */
  predicate Advances(s: seq<Entry>, n: nat) {
    s == [] || s[|s| - 1].number < n
  }

  lemma {:induction false} FindHashFinds(s: seq<Entry>, n: nat)
    ensures FindHash(s, n).None? <==> forall e <- s :: e.number != n
    ensures FindHash(s, n).Some? ==> Entry(n, FindHash(s, n).value) in s
    ensures Ascending(s) ==> forall e <- s :: e.number == n ==> FindHash(s, n) == Some(e.hash)
  {
    if s != [] {
      FindHashFinds(s[1..], n);
      assert s == [s[0]] + s[1..];
    }
  }

  function AtMost(k: nat): Entry -> bool {
    (e: Entry) => e.number <= k
  }

  /** Pruning an ascending state keeps exactly the entries numbered at most k. */
  lemma {:induction false} PrunedExact(s: seq<Entry>, k: nat)
    requires Ascending(s)
    ensures Pruned(s, k) == Filter(s, AtMost(k))
    ensures Pruned(s, k) <= s
  {
    if s != [] {
      var front, last := s[..|s| - 1], s[|s| - 1];
      assert s == front + [last];
      FilterConcat(front, [last], AtMost(k));
      if last.number > k {
        PrunedExact(front, k);
      } else {
        FilterMembers(s, AtMost(k));
      }
    }
  }

  lemma PrunedBelow(s: seq<Entry>, f: nat)
    requires Ascending(s) && f > 0
    ensures Pruned(s, f - 1) <= s
    ensures forall e :: e in Pruned(s, f - 1) <==> e in s && e.number < f
  {
    PrunedExact(s, f - 1);
    FilterMembers(s, AtMost(f - 1));
  }

  /** A prefix of an invariant state satisfies the invariant. */
  lemma PrefixKeepsInvariant(s: seq<Entry>, p: seq<Entry>, parentOf: Hash32 -> Hash32)
    requires ChainInvariant(s, parentOf) && p <= s
    ensures ChainInvariant(p, parentOf)
  {
    assert forall i :: 0 <= i < |p| ==> p[i] == s[i];
  }

  lemma PushKeepsInvariant(s: seq<Entry>, parentOf: Hash32 -> Hash32, e: Entry)
    requires ChainInvariant(s, parentOf) && Advances(s, e.number)
    requires s != [] && s[|s| - 1].number + 1 == e.number ==> parentOf(e.hash) == s[|s| - 1].hash
    ensures ChainInvariant(Pushed(s, DEFAULT_CAPACITY, e), parentOf)
  {
  }

  /** One delivered block keeps the invariant if its number exceeds the latest stored one. */
  lemma DecideKeepsInvariant(s: seq<Entry>, parentOf: Hash32 -> Hash32, client: Option<Node>, id: nat, b: Block)
    requires ChainInvariant(s, parentOf) && Advances(s, b.number) && b.parentHash == parentOf(b.hash)
    ensures ChainInvariant(Decide(s, client, id, b).1, parentOf)
  {
    var e := Entry(b.number, b.hash);
    var r := Decide(s, client, id, b);
    if r.1 == s {
    } else if r.0.Ok? && r.0.value.Reorg? {
      PrunedExact(s, SaturatingSub(r.0.value.forkBlock, 1));
      PrefixKeepsInvariant(s, r.1, parentOf);
    } else {
      if s != [] && s[|s| - 1].number + 1 == b.number {
        FindHashFinds(s, b.number - 1);
      }
      PushKeepsInvariant(s, parentOf, e);
    }
  }

  /** A state that stays ascending after a block is accepted is one the block advanced; accepting
      any other number (a block at or below the stored tip whose parent is known) breaks the order. */
  lemma AscendingIff(s: seq<Entry>, client: Option<Node>, id: nat, b: Block)
    requires Ascending(s)
    ensures var r := Decide(s, client, id, b);
      Ascending(r.1) <==> (r.0 != Ok(Normal) || Advances(s, b.number))
  {
    var r := Decide(s, client, id, b);
    var e := Entry(b.number, b.hash);
    if r.0 == Ok(Normal) {
      if Advances(s, b.number) {
      } else {
        var n := |r.1|;
        assert r.1[n - 1] == e && r.1[n - 2] == s[|s| - 1];
      }
    } else if r.0.Ok? {
      PrunedExact(s, SaturatingSub(r.0.value.forkBlock, 1));
    }
  }

  // Whole runs of one chain

  /** A delivered block with the node as it answers at that time, or a block seeded after backfill. */
  datatype Input = Deliver(block: Block, client: Option<Node>) | Seed(number: nat, hash: Hash32)

  function StepInput(s: seq<Entry>, id: nat, i: Input): seq<Entry> {
    match i
    case Deliver(b, client) => Decide(s, client, id, b).1
    case Seed(n, h) => Pushed(s, DEFAULT_CAPACITY, Entry(n, h))
  }

  function Run(s: seq<Entry>, id: nat, inputs: seq<Input>): seq<Entry>
    decreases |inputs|
  {
    if inputs == [] then s else Run(StepInput(s, id, inputs[0]), id, inputs[1..])
  }

  /** Every input advances the state it meets, carries its true parent hash, and a seed that
      touches the stored tip is its child. */
  ghost predicate Proper(s: seq<Entry>, id: nat, parentOf: Hash32 -> Hash32, inputs: seq<Input>)
    decreases |inputs|
  {
    inputs == [] ||
    (&& (match inputs[0]
         case Deliver(b, _) => Advances(s, b.number) && b.parentHash == parentOf(b.hash)
         case Seed(n, h) =>
           && Advances(s, n)
           && (s != [] && s[|s| - 1].number + 1 == n ==> parentOf(h) == s[|s| - 1].hash))
     && Proper(StepInput(s, id, inputs[0]), id, parentOf, inputs[1..]))
  }

  /** The invariant holds after every run. */
  lemma {:induction false} RunKeepsInvariant(s: seq<Entry>, id: nat, parentOf: Hash32 -> Hash32, inputs: seq<Input>)
    requires ChainInvariant(s, parentOf) && Proper(s, id, parentOf, inputs)
    ensures ChainInvariant(Run(s, id, inputs), parentOf)
    decreases |inputs|
  {
    if inputs != [] {
      match inputs[0] {
        case Deliver(b, client) => DecideKeepsInvariant(s, parentOf, client, id, b);
        case Seed(n, h) => PushKeepsInvariant(s, parentOf, Entry(n, h));
      }
      RunKeepsInvariant(StepInput(s, id, inputs[0]), id, parentOf, inputs[1..]);
    }
  }

  // The fork point

  predicate Agrees(e: Entry, node: Node) {
    node(e.number) == Some(e.hash)
  }

  /** Block n is stored under a hash that is not the canonical one. */
  predicate Orphaned(s: seq<Entry>, node: Node, n: nat) {
    FindHash(s, n).Some? && node(n).Some? && FindHash(s, n) != node(n)
  }

  /** What the walk's answer says of any stored state. */
  lemma {:induction false} WalkFacts(s: seq<Entry>, node: Node, id: nat, n: nat, lo: nat)
    ensures match Walk(s, node, id, n, lo)
      case Ok(f) =>
        && lo < f <= n + 1
        && (forall k :: f <= k <= n ==> Orphaned(s, node, k))
        && (FindHash(s, f - 1).None? || FindHash(s, f - 1) == node(f - 1))
      case Err(e) =>
        if e.DeepReorg?
        then e == DeepReorg(id, DEFAULT_CAPACITY) && forall k :: lo <= k <= n ==> Orphaned(s, node, k)
        else e == Rpc(id) && exists k :: lo <= k <= n && node(k).None?
    decreases n
  {
    if n >= lo && n > 0 && Orphaned(s, node, n) {
      WalkFacts(s, node, id, n - 1, lo);
    }
  }

  /** Consecutive numbers up to tip - 1. */
  predicate GapFree(s: seq<Entry>, tip: nat) {
    forall i :: 0 <= i < |s| ==> s[i].number + (|s| - i) == tip
  }

  /** The node's chain below tip is hash-linked. */
  ghost predicate Canonical(node: Node, parentOf: Hash32 -> Hash32, tip: nat) {
    && (forall n :: 0 <= n < tip ==> node(n).Some?)
    && (forall n {:trigger node(n + 1)} :: 0 <= n && n + 1 < tip ==> parentOf(node(n + 1).value) == node(n).value)
  }

  /** Agreement propagates to every stored ancestor. */
  lemma {:induction false} AgreementBelow(s: seq<Entry>, node: Node, parentOf: Hash32 -> Hash32, tip: nat, i: nat,
                                          j: nat)
    requires GapFree(s, tip) && Linked(s, parentOf) && Canonical(node, parentOf, tip)
    requires j <= i < |s| && Agrees(s[i], node)
    ensures Agrees(s[j], node)
    decreases i
  {
    if j < i {
      var n := s[i - 1].number;
      assert s[i].number == n + 1;
      assert node(n + 1) == Some(s[i].hash);
      AgreementBelow(s, node, parentOf, tip, i - 1, j);
    }
  }

  /** The fork point is exact: stored blocks below it are canonical and stored blocks from it on
      are not; the search gives up exactly when the whole window is stored and none of it agrees. */
  lemma ForkPointExact(s: seq<Entry>, node: Node, parentOf: Hash32 -> Hash32, id: nat, tip: nat)
    requires tip > 0 && GapFree(s, tip) && Linked(s, parentOf) && Canonical(node, parentOf, tip)
    ensures var r := ForkPoint(s, Some(node), id, tip);
      && (r.Ok? ==> 0 < r.value <= tip && forall e <- s :: Agrees(e, node) <==> e.number < r.value)
      && (r.Err? <==> forall n :: SaturatingSub(tip, DEFAULT_CAPACITY) <= n < tip ==> Orphaned(s, node, n))
      && (r.Err? ==> r.error == DeepReorg(id, DEFAULT_CAPACITY))
  {
    var r := ForkPoint(s, Some(node), id, tip);
    var lo := SaturatingSub(tip, DEFAULT_CAPACITY);
    WalkFacts(s, node, id, tip - 1, lo);
    if r.Ok? {
      var f := r.value;
      assert !Orphaned(s, node, f - 1);
      forall e | e in s
        ensures Agrees(e, node) <==> e.number < f
      {
        var i :| 0 <= i < |s| && s[i] == e;
        FindHashFinds(s, e.number);
        if e.number < f {
          BelowForkAgrees(s, node, parentOf, tip, f, i);
        } else {
          assert Orphaned(s, node, e.number);
        }
      }
    }
  }

  lemma BelowForkAgrees(s: seq<Entry>, node: Node, parentOf: Hash32 -> Hash32, tip: nat, f: nat, i: nat)
    requires GapFree(s, tip) && Linked(s, parentOf) && Canonical(node, parentOf, tip)
    requires 0 < f <= tip && i < |s| && s[i].number < f
    requires FindHash(s, f - 1).None? || FindHash(s, f - 1) == node(f - 1)
    ensures Agrees(s[i], node)
  {
    var k := f - 1 - s[i].number + i;
    assert s[k].number == f - 1;
    FindHashFinds(s, f - 1);
    AgreementBelow(s, node, parentOf, tip, k, i);
  }

  /** A stored block below the fork's parent whose successor is not stored. */
  predicate BelowGap(s: seq<Entry>, e: Entry, fork: nat) {
    e.number + 1 < fork && FindHash(s, e.number + 1).None?
  }

  /** Agreement comes down from the fork, or from the block below a gap. */
  lemma {:induction false} IslandAgrees(s: seq<Entry>, node: Node, parentOf: Hash32 -> Hash32, tip: nat, f: nat,
                                        e: Entry)
    requires Ascending(s) && Linked(s, parentOf) && Canonical(node, parentOf, tip)
    requires 0 < f <= tip && (FindHash(s, f - 1).None? || FindHash(s, f - 1) == node(f - 1))
    requires forall x <- s :: x.number < f && BelowGap(s, x, f) ==> Agrees(x, node)
    requires e in s && e.number < f
    ensures Agrees(e, node)
    decreases f - e.number
  {
    var n := e.number;
    if n == f - 1 {
      FindHashFinds(s, n);
    } else if FindHash(s, n + 1).Some? {
      FindHashFinds(s, n + 1);
      var above := Entry(n + 1, FindHash(s, n + 1).value);
      IslandAgrees(s, node, parentOf, tip, f, above);
      var i :| 0 <= i < |s| && s[i] == e;
      var j :| 0 <= j < |s| && s[j] == above;
      assert parentOf(s[j].hash) == s[i].hash && node(n + 1) == Some(above.hash);
    }
  }

  /** After a detected reorg: the fork is at or below the new tip, the state is a prefix below the fork,
      and every canonical block was kept. What is left is canonical if and only if the blocks below its
      gaps are: the walk stops at the first gap. */
  lemma ReorgLeavesCanonical(s: seq<Entry>, node: Node, parentOf: Hash32 -> Hash32, id: nat, b: Block)
    requires Ascending(s) && Linked(s, parentOf) && Canonical(node, parentOf, b.number)
    requires Decide(s, Some(node), id, b).0.Ok? && Decide(s, Some(node), id, b).0.value.Reorg?
    ensures var (r, left) := Decide(s, Some(node), id, b);
      var fork := r.value.forkBlock;
      && 0 < fork <= r.value.newTip == b.number
      && left <= s
      && (forall e <- s :: e in left <==> e.number < fork)
      && (forall e <- s :: e.number < b.number && Agrees(e, node) ==> e in left)
      && ((forall e <- left :: Agrees(e, node)) <==> (forall e <- left :: BelowGap(s, e, fork) ==> Agrees(e, node)))
  {
    ReorgKeepsBelow(s, node, id, b);
    var (r, left) := Decide(s, Some(node), id, b);
    var f := r.value.forkBlock;
    if forall e <- left :: BelowGap(s, e, f) ==> Agrees(e, node) {
      forall e | e in left
        ensures Agrees(e, node)
      {
        IslandAgrees(s, node, parentOf, b.number, f, e);
      }
    }
  }

  /** The state after a reorg is the part below the fork, the entry under the fork, if any, agrees with the node,
      and no entry above it does. */
  lemma ReorgKeepsBelow(s: seq<Entry>, node: Node, id: nat, b: Block)
    requires Ascending(s) && Decide(s, Some(node), id, b).0.Ok? && Decide(s, Some(node), id, b).0.value.Reorg?
    ensures var (r, left) := Decide(s, Some(node), id, b);
      var fork := r.value.forkBlock;
      && 0 < fork <= r.value.newTip == b.number
      && left <= s
      && (forall e <- s :: e in left <==> e.number < fork)
      && (FindHash(s, fork - 1).None? || FindHash(s, fork - 1) == node(fork - 1))
      && (forall e <- s :: e.number < b.number && Agrees(e, node) ==> e in left)
  {
    ReorgComesFrom(s, Some(node), id, b);
    var f := Decide(s, Some(node), id, b).0.value.forkBlock;
    WalkFacts(s, node, id, b.number - 1, SaturatingSub(b.number, DEFAULT_CAPACITY));
    PrunedBelow(s, f);
    forall e | e in s && f <= e.number < b.number
      ensures !Agrees(e, node)
    {
      FindHashFinds(s, e.number);
      assert Orphaned(s, node, e.number);
    }
  }

  /** Without gaps exactly the canonical blocks are left. */
  lemma GapFreeReorg(s: seq<Entry>, node: Node, parentOf: Hash32 -> Hash32, id: nat, b: Block)
    requires GapFree(s, b.number) && Linked(s, parentOf) && Canonical(node, parentOf, b.number)
    requires Decide(s, Some(node), id, b).0.Ok? && Decide(s, Some(node), id, b).0.value.Reorg?
    ensures forall e <- s :: e in Decide(s, Some(node), id, b).1 <==> Agrees(e, node)
  {
    ReorgLeavesCanonical(s, node, parentOf, id, b);
    var (r, left) := Decide(s, Some(node), id, b);
    forall e | e in left
      ensures !BelowGap(s, e, r.value.forkBlock)
    {
      var i :| 0 <= i < |s| && s[i] == e;
      FindHashFinds(s, e.number + 1);
      if i + 1 < |s| {
        assert s[i + 1].number == e.number + 1 && s[i + 1] in s;
      }
    }
  }

  /** What a reorg decision comes from. */
  lemma ReorgComesFrom(s: seq<Entry>, client: Option<Node>, id: nat, b: Block)
    requires Decide(s, client, id, b).0.Ok? && Decide(s, client, id, b).0.value.Reorg?
    ensures client.Some? && b.number > 0
    ensures var (r, left) := Decide(s, client, id, b);
      && r.value.newTip == b.number
      && ForkPoint(s, client, id, b.number) == Ok(r.value.forkBlock)
      && left == Pruned(s, SaturatingSub(r.value.forkBlock, 1))
  {
  }

  /** What a reorg leaves is a prefix of the state, all of it below the fork. */
  lemma ReorgPrunes(s: seq<Entry>, client: Option<Node>, id: nat, b: Block)
    requires Ascending(s)
    requires Decide(s, client, id, b).0.Ok? && Decide(s, client, id, b).0.value.Reorg?
    ensures var (r, left) := Decide(s, client, id, b);
      && 0 < r.value.forkBlock <= b.number == r.value.newTip
      && left <= s
      && forall e <- left :: e.number < r.value.forkBlock
  {
    ReorgComesFrom(s, client, id, b);
    var f := Decide(s, client, id, b).0.value.forkBlock;
    WalkFacts(s, client.value, id, b.number - 1, SaturatingSub(b.number, DEFAULT_CAPACITY));
    PrunedBelow(s, f);
  }

  lemma PushedMembers(s: seq<Entry>, capacity: nat, e: Entry)
    ensures forall x <- Pushed(s, capacity, e) :: x in s || x == e
  {
  }

  /** The block that triggers a reorg is not stored, so the next block of the same chain finds no
      parent and is accepted, and the blocks from the fork to the new tip are missing from then on. */
  lemma ReorgLeavesHole(s: seq<Entry>, client: Option<Node>, id: nat, b: Block, next: Block)
    requires Ascending(s) && next.number == b.number + 1
    requires Decide(s, client, id, b).0.Ok? && Decide(s, client, id, b).0.value.Reorg?
    ensures var (r, left) := Decide(s, client, id, b);
      var (r', left') := Decide(left, client, id, next);
      && r' == Ok(Normal)
      && left' == Pushed(left, DEFAULT_CAPACITY, Entry(next.number, next.hash))
      && forall n :: r.value.forkBlock <= n <= b.number ==> FindHash(left', n).None?
  {
    var (r, left) := Decide(s, client, id, b);
    ReorgPrunes(s, client, id, b);
    HoleAccepted(left, client, id, next, r.value.forkBlock);
  }

  lemma HoleAccepted(left: seq<Entry>, client: Option<Node>, id: nat, next: Block, f: nat)
    requires next.number > 0 && f <= next.number - 1 && forall e <- left :: e.number < f
    ensures Decide(left, client, id, next) ==
            (Ok(Normal), Pushed(left, DEFAULT_CAPACITY, Entry(next.number, next.hash)))
    ensures forall n :: f <= n < next.number ==>
              FindHash(Pushed(left, DEFAULT_CAPACITY, Entry(next.number, next.hash)), n).None?
  {
    FindHashFinds(left, next.number - 1);
    var left' := Pushed(left, DEFAULT_CAPACITY, Entry(next.number, next.hash));
    PushedMembers(left, DEFAULT_CAPACITY, Entry(next.number, next.hash));
    forall n | f <= n < next.number
      ensures FindHash(left', n).None?
    {
      FindHashFinds(left', n);
    }
  }

  /** Blocks 2 and 4 are stored and orphaned, block 3 is not stored. */
  const Gapped: seq<Entry> := [Entry(2, Hash32(20)), Entry(4, Hash32(40))]

  function Counting(): Node {
    (n: nat) => Some(Hash32(n))
  }

  /** The walk from block 5 stops at the gap at 3, and the orphaned block 2 below it survives. */
  lemma GapHidesOrphan()
    ensures Decide(Gapped, Some(Counting()), 1, Block(5, Hash32(5), Hash32(4))) ==
            (Ok(Reorg(1, 4, 5)), [Entry(2, Hash32(20))])
    ensures BelowGap(Gapped, Entry(2, Hash32(20)), 4) && !Agrees(Entry(2, Hash32(20)), Counting())
  {
    FindHashFinds(Gapped, 4);
    FindHashFinds(Gapped, 3);
    assert Gapped[1] in Gapped;
    assert Walk(Gapped, Counting(), 1, 3, 0) == Ok(4);
    assert Walk(Gapped, Counting(), 1, 4, 0) == Ok(4);
    assert Gapped[..1] == [Gapped[0]];
    assert Pruned(Gapped, 3) == [Gapped[0]];
  }
}
