/** What the reorg detector answers to a block (crates/forge-index-sync/src/reorg/detector.rs:56-155), on every
    ascending state, from the stored entries and the node's answers alone. */
module Decisions {
  import opened Tables
  import opened Chain

  /** The walk goes on below block k: it is stored, and the node has another block there. */
  predicate Walked(s: seq<Entry>, node: Node, k: nat) {
    node(k).Some? && exists e <- s :: e.number == k && e.hash != node(k).value
  }

  /** The walk finds the common ancestor at block k: it is not stored, or it is the node's. */
  predicate Settles(s: seq<Entry>, node: Node, k: nat) {
    node(k).Some? && forall e <- s :: e.number == k ==> e.hash == node(k).value
  }

  /** The parent is stored under another hash than the block names. */
  predicate Contradicts(s: seq<Entry>, b: Block) {
    exists e <- s :: e.number + 1 == b.number && e.hash != b.parentHash
  }

  /** The lowest block that a walk from block n looks at. */
  function Lowest(n: nat): nat {
    if n < 128 then 0 else n - 128
  }

  predicate WalkedFrom(s: seq<Entry>, node: Node, k: nat, n: nat) {
    forall j :: k <= j < n ==> Walked(s, node, j)
  }

  /** The fork is one past the highest block, from `lo` on, at which a walk down from below block n settles. */
  predicate ForkIs(s: seq<Entry>, node: Node, lo: nat, n: nat, f: nat) {
    lo < f <= n && Settles(s, node, f - 1) && WalkedFrom(s, node, f, n)
  }

  /** The node does not answer for block k, which the walk gets to. */
  predicate FailsAt(s: seq<Entry>, node: Node, n: nat, k: nat) {
    k < n && node(k).None? && WalkedFrom(s, node, k + 1, n)
  }

  predicate NodeFails(s: seq<Entry>, node: Node, lo: nat, n: nat) {
    exists k :: lo <= k < n && FailsAt(s, node, n, k)
  }

  /** The right answer to a walk from below block n down to block lo. */
  ghost predicate Answers(r: Result<nat, SyncError>, s: seq<Entry>, node: Node, id: nat, lo: nat, n: nat) {
    && (forall f: nat :: r == Ok(f) <==> ForkIs(s, node, lo, n, f))
    && (r == Err(Rpc(id)) <==> NodeFails(s, node, lo, n))
    && (r == Err(DeepReorg(id, 128)) <==> WalkedFrom(s, node, lo, n))
    && (r.Ok? || r == Err(Rpc(id)) || r == Err(DeepReorg(id, 128)))
  }

  lemma StoredOnce(s: seq<Entry>, k: nat)
    requires Ascending(s)
    ensures forall e <- s, x <- s :: e.number == k && x.number == k ==> e == x
  {
  }

  /** At each block the walk goes on, settles, or finds no answer. */
  lemma WalkStep(s: seq<Entry>, node: Node, k: nat)
    requires Ascending(s)
    ensures Walked(s, node, k) <==> Orphaned(s, node, k)
    ensures Settles(s, node, k) <==> node(k).Some? && (FindHash(s, k).None? || FindHash(s, k) == node(k))
  {
    FindHashFinds(s, k);
    StoredOnce(s, k);
  }

  /** Walking past a block changes nothing in the answer to the walk below it. */
  lemma AnswersBelow(r: Result<nat, SyncError>, s: seq<Entry>, node: Node, id: nat, lo: nat, n: nat)
    requires n > lo && Walked(s, node, n - 1) && Answers(r, s, node, id, lo, n - 1)
    ensures Answers(r, s, node, id, lo, n)
  {
    forall k | 0 <= k < n
      ensures WalkedFrom(s, node, k, n) <==> WalkedFrom(s, node, k, n - 1)
    {
    }
    assert WalkedFrom(s, node, n, n) && !Settles(s, node, n - 1);
    if NodeFails(s, node, lo, n) {
      var k :| lo <= k < n && FailsAt(s, node, n, k);
      assert k < n - 1 && FailsAt(s, node, n - 1, k);
    }
    if NodeFails(s, node, lo, n - 1) {
      var k :| lo <= k < n - 1 && FailsAt(s, node, n - 1, k);
      assert WalkedFrom(s, node, k + 1, n) && FailsAt(s, node, n, k);
    }
    forall f: nat
      ensures ForkIs(s, node, lo, n, f) <==> ForkIs(s, node, lo, n - 1, f)
    {
      assert f < n ==> (WalkedFrom(s, node, f, n) <==> WalkedFrom(s, node, f, n - 1));
    }
  }

  lemma NotFrom(s: seq<Entry>, node: Node, k: nat, n: nat)
    requires k < n && !Walked(s, node, n - 1)
    ensures !WalkedFrom(s, node, k, n)
  {
  }

  /** A walk that stops at once. */
  lemma AnswersHere(s: seq<Entry>, node: Node, id: nat, lo: nat, n: nat)
    requires n > lo && !Walked(s, node, n - 1)
    ensures Answers(if node(n - 1).None? then Err(Rpc(id)) else Ok(n), s, node, id, lo, n)
  {
    assert WalkedFrom(s, node, n, n);
    forall k: nat | k < n
      ensures !WalkedFrom(s, node, k, n)
    {
      NotFrom(s, node, k, n);
    }
    assert node(n - 1).None? ==> FailsAt(s, node, n, n - 1);
    assert node(n - 1).Some? ==> ForkIs(s, node, lo, n, n);
  }

  lemma {:induction false} WalkExact(s: seq<Entry>, node: Node, id: nat, n: nat, lo: nat)
    requires Ascending(s) && lo <= n + 1
    ensures Answers(Walk(s, node, id, n, lo), s, node, id, lo, n + 1)
    decreases n
  {
    if n >= lo {
      WalkStep(s, node, n);
      if Walked(s, node, n) {
        if n > 0 {
          WalkExact(s, node, id, n - 1, lo);
        }
        AnswersBelow(Walk(s, node, id, n, lo), s, node, id, lo, n + 1);
      } else {
        AnswersHere(s, node, id, lo, n + 1);
      }
    }
  }

  /** The state with one more block: the oldest entry goes if there are 128 already. */
  function WithBlock(s: seq<Entry>, b: Block): seq<Entry> {
    s[if |s| < 128 then 0 else 1..] + [Entry(b.number, b.hash)]
  }

  /** The right answer to a block that contradicts its stored parent: a reorg at the fork, and the state left is
      the entries below it, in order; or, if the walk finds no fork, an error, and the state stays. */
  ghost predicate ReorgRight(r: Result<Decision, SyncError>, left: seq<Entry>, s: seq<Entry>, node: Node, id: nat,
                             n: nat)
  {
    && (forall f: nat :: r == Ok(Reorg(id, f, n)) <==> ForkIs(s, node, Lowest(n), n, f))
    && (r == Err(Rpc(id)) <==> NodeFails(s, node, Lowest(n), n))
    && (r == Err(DeepReorg(id, 128)) <==> WalkedFrom(s, node, Lowest(n), n))
    && (r.Ok? || r == Err(Rpc(id)) || r == Err(DeepReorg(id, 128)))
    && if r.Ok? then r.value.Reorg? && left <= s && forall e <- s :: e in left <==> e.number < r.value.forkBlock
       else left == s
  }

  /** A block is accepted and stored unless its parent is stored under another hash. */
  lemma DecideExact(s: seq<Entry>, node: Node, id: nat, b: Block)
    requires Ascending(s)
    ensures var (r, left) := Decide(s, Some(node), id, b);
      if !Contradicts(s, b) then r == Ok(Normal) && left == WithBlock(s, b)
      else ReorgRight(r, left, s, node, id, b.number)
  {
    Contradicted(s, b);
    if Contradicts(s, b) {
      var w := Walk(s, node, id, b.number - 1, Lowest(b.number));
      WalkExact(s, node, id, b.number - 1, Lowest(b.number));
      if w.Ok? {
        ForkedRight(s, node, id, b.number, w.value);
      } else {
        FailedRight(s, node, id, b.number, w.error);
      }
    }
  }

  lemma ForkedRight(s: seq<Entry>, node: Node, id: nat, n: nat, f: nat)
    requires Ascending(s) && Answers(Ok(f), s, node, id, Lowest(n), n)
    ensures ReorgRight(Ok(Reorg(id, f, n)), Pruned(s, SaturatingSub(f, 1)), s, node, id, n)
  {
    assert Result<nat, SyncError>.Ok(f) == Ok(f) && ForkIs(s, node, Lowest(n), n, f);
    PrunedBelow(s, f);
  }

  lemma FailedRight(s: seq<Entry>, node: Node, id: nat, n: nat, e: SyncError)
    requires Answers(Err(e), s, node, id, Lowest(n), n)
    ensures ReorgRight(Err(e), s, s, node, id, n)
  {
  }

  lemma Contradicted(s: seq<Entry>, b: Block)
    requires Ascending(s)
    ensures Contradicts(s, b) <==>
      s != [] && b.number > 0 && FindHash(s, b.number - 1).Some? && FindHash(s, b.number - 1) != Some(b.parentHash)
  {
    if b.number > 0 {
      FindHashFinds(s, b.number - 1);
      StoredOnce(s, b.number - 1);
    }
  }

  /** Without a client for the chain such a block is an error. */
  lemma DecideAlone(s: seq<Entry>, id: nat, b: Block)
    requires Ascending(s)
    ensures Decide(s, None, id, b) ==
            if Contradicts(s, b) then (Err(ChainNotFound(id)), s) else (Ok(Normal), WithBlock(s, b))
  {
    Contradicted(s, b);
  }

  /** If the node answers, a block that contradicts its stored parent is a reorg if and only if some block within 128
      below it is not stored or is the node's; otherwise the reorg is too deep. */
  lemma AnsweringNode(s: seq<Entry>, node: Node, id: nat, b: Block)
    requires Ascending(s) && Contradicts(s, b) && forall k :: Lowest(b.number) <= k < b.number ==> node(k).Some?
    ensures var r := Decide(s, Some(node), id, b).0;
      && (r.Ok? <==> exists k :: Lowest(b.number) <= k < b.number && Settles(s, node, k))
      && (r.Err? <==> r == Err(DeepReorg(id, 128)))
  {
    DecideExact(s, node, id, b);
    var r := Decide(s, Some(node), id, b).0;
    forall k | Lowest(b.number) <= k < b.number
      ensures Settles(s, node, k) <==> !Walked(s, node, k)
    {
      WalkStep(s, node, k);
    }
    if r.Ok? {
      assert Settles(s, node, r.value.forkBlock - 1);
    }
  }

  const Three: seq<Entry> := [Entry(1, Hash32(1)), Entry(2, Hash32(20)), Entry(3, Hash32(30))]

  /** A reorg two blocks deep: with blocks 2 and 3 orphaned, block 4 forks at 2 and block 1 is left. */
  lemma TwoBlocksDeep()
    ensures Decide(Three, Some(Counting()), 1, Block(4, Hash32(4), Hash32(3))) ==
            (Ok(Reorg(1, 2, 4)), [Entry(1, Hash32(1))])
  {
    var node := Counting();
    assert Walk(Three, node, 1, 1, 0) == Ok(2);
    assert Walk(Three, node, 1, 2, 0) == Ok(2);
    assert Walk(Three, node, 1, 3, 0) == Ok(2);
    var two := Three[..2];
    assert two[..1] == [Three[0]] && Pruned(two[..1], 1) == two[..1];
    assert Pruned(two, 1) == two[..1];
    assert Pruned(Three, 1) == two[..1];
  }
}
