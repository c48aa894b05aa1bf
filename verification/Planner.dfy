/** The backfill planner of crates/forge-index-sync/src/backfill/planner.rs. */
module Planner {
  import opened Tables
  import opened Naturals

  const U64_MAX: nat := 0xFFFF_FFFF_FFFF_FFFF

  /** Blocks from..to, both inclusive. */
  datatype BlockRange = BlockRange(from: nat, to: nat) {
    function Len(): nat {
      if to >= from then to - from + 1 else 0
    }

    predicate Holds(n: nat) {
      from <= n <= to
    }
  }

  datatype Plan = Plan(contractName: string, chainId: nat, ranges: seq<BlockRange>, totalBlocks: nat)

  /** The ranges cut from block `from` up to the current block. */
  function Chunks(from: nat, current: nat, chunk: nat): seq<BlockRange>
    requires chunk >= 1
    decreases current + 1 - from
  {
    if from > current then []
    else
      var to := Min(from + chunk - 1, current);
      [BlockRange(from, to)] + Chunks(to + 1, current, chunk)
  }

  method MakePlan(name: string, startBlock: nat, chainId: nat, currentBlock: nat, checkpoint: Option<nat>,
                  chunkSize: nat)
    returns (p: Plan)
    requires 1 <= chunkSize && currentBlock + chunkSize <= U64_MAX
    ensures p.contractName == name && p.chainId == chainId
    ensures var start := if checkpoint.Some? then checkpoint.value else startBlock;
      && p.ranges == Chunks(start, currentBlock, chunkSize)
      && p.totalBlocks == if start > currentBlock then 0 else currentBlock - start + 1
  {
    var start := if checkpoint.Some? then checkpoint.value else startBlock;
    if start > currentBlock {
      return Plan(name, chainId, [], 0);
    }
    var ranges, from := [], start;
    while from <= currentBlock
      invariant start <= from <= currentBlock + 1
      invariant ranges + Chunks(from, currentBlock, chunkSize) == Chunks(start, currentBlock, chunkSize)
      decreases currentBlock + 1 - from
    {
      assert from + chunkSize <= U64_MAX;
      var to := Min(from + chunkSize - 1, currentBlock);
      ranges := ranges + [BlockRange(from, to)];
      from := to + 1;
    }
    return Plan(name, chainId, ranges, currentBlock - start + 1);
  }

  function TotalLen(rs: seq<BlockRange>): nat {
    if rs == [] then 0 else rs[0].Len() + TotalLen(rs[1..])
  }

  /** The ranges divide [from, current] in order: each is nonempty and at most a chunk long, starts
      where its predecessor ends, and the last ends at the current block. */
  predicate Partitions(rs: seq<BlockRange>, from: nat, current: nat, chunk: nat)
    decreases |rs|
  {
    if from > current then rs == []
    else
      && rs != []
      && rs[0].from == from <= rs[0].to <= current
      && rs[0].Len() <= chunk
      && Partitions(rs[1..], rs[0].to + 1, current, chunk)
  }

  lemma {:induction false} ChunksPartition(from: nat, current: nat, chunk: nat)
    requires chunk >= 1
    ensures Partitions(Chunks(from, current, chunk), from, current, chunk)
    ensures TotalLen(Chunks(from, current, chunk)) == if from > current then 0 else current - from + 1
    decreases current + 1 - from
  {
    if from <= current {
      var to := Min(from + chunk - 1, current);
      ChunksPartition(to + 1, current, chunk);
      assert Chunks(from, current, chunk)[1..] == Chunks(to + 1, current, chunk);
    }
  }

  /** As many ranges as chunks are needed, and no more. */
  lemma {:induction false} ChunksCount(from: nat, current: nat, chunk: nat)
    requires chunk >= 1 && from <= current
    ensures var n := |Chunks(from, current, chunk)|;
      n >= 1 && chunk * (n - 1) <= current - from < chunk * n
    decreases current + 1 - from
  {
    if from + chunk - 1 < current {
      ChunksCount(from + chunk, current, chunk);
      var m := |Chunks(from + chunk, current, chunk)|;
      assert |Chunks(from, current, chunk)| == m + 1;
      assert chunk * (m + 1) == chunk * m + chunk && chunk * m == chunk * (m - 1) + chunk;
    } else {
      assert Chunks(current + 1, current, chunk) == [];
      assert |Chunks(from, current, chunk)| == 1;
    }
  }

  /** Every block from `from` to the current one lies in exactly one range. */
  lemma {:induction false} PartitionCovers(rs: seq<BlockRange>, from: nat, current: nat, chunk: nat, n: nat)
    returns (i: nat)
    requires Partitions(rs, from, current, chunk) && from <= n <= current
    ensures i < |rs| && rs[i].Holds(n)
    ensures forall j :: 0 <= j < |rs| && j != i ==> !rs[j].Holds(n)
    decreases |rs|
  {
    if n <= rs[0].to {
      StartsAfter(rs[1..], rs[0].to + 1, current, chunk);
      assert forall j :: 0 < j < |rs| ==> rs[j] == rs[1..][j - 1];
      i := 0;
    } else {
      i := PartitionCovers(rs[1..], rs[0].to + 1, current, chunk, n);
      assert forall j :: 0 < j < |rs| ==> rs[j] == rs[1..][j - 1];
      i := i + 1;
    }
  }

  lemma {:induction false} StartsAfter(rs: seq<BlockRange>, from: nat, current: nat, chunk: nat)
    requires Partitions(rs, from, current, chunk)
    ensures forall r <- rs :: r.from >= from
    decreases |rs|
  {
    if from <= current {
      StartsAfter(rs[1..], rs[0].to + 1, current, chunk);
    }
  }
}
