/** The reorg detector and its per-chain state as the source runs them: a bounded deque updated in
    place, and a loop that walks back from the new block. */
module Detector {
  import opened Tables
  import opened Chain

  class ChainState {
    var recentBlocks: seq<Entry>
    const capacity: nat

    constructor (capacity: nat)
      ensures recentBlocks == [] && this.capacity == capacity
    {
      this.recentBlocks := [];
      this.capacity := capacity;
    }

    method Push(number: nat, hash: Hash32)
      modifies this
      ensures recentBlocks == Pushed(old(recentBlocks), capacity, Entry(number, hash))
    {
      if |recentBlocks| >= capacity && recentBlocks != [] {
        recentBlocks := recentBlocks[1..];
      }
      recentBlocks := recentBlocks + [Entry(number, hash)];
    }

    method PruneAbove(blockNumber: nat)
      modifies this
      ensures recentBlocks == Pruned(old(recentBlocks), blockNumber)
    {
      while recentBlocks != [] && recentBlocks[|recentBlocks| - 1].number > blockNumber
        invariant Pruned(recentBlocks, blockNumber) == Pruned(old(recentBlocks), blockNumber)
        decreases |recentBlocks|
      {
        recentBlocks := recentBlocks[..|recentBlocks| - 1];
      }
    }

    method LatestBlock() returns (r: Option<Entry>)
      ensures r == if recentBlocks == [] then None else Some(recentBlocks[|recentBlocks| - 1])
    {
      r := if recentBlocks == [] then None else Some(recentBlocks[|recentBlocks| - 1]);
    }
  }

  class ReorgDetector {
    var chainStates: map<nat, ChainState>
    var clients: map<nat, Node>

    constructor ()
      ensures Valid() && chainStates == map[] && clients == map[]
    {
      chainStates, clients := map[], map[];
    }

    /** Chains do not share state objects. */
    ghost predicate Valid()
      reads this, chainStates.Values
    {
      && (forall c :: c in chainStates ==> chainStates[c].capacity == DEFAULT_CAPACITY)
      && (forall c, d :: c in chainStates && d in chainStates && c != d ==> chainStates[c] != chainStates[d])
    }

    ghost function StateOf(c: nat): seq<Entry>
      reads this, chainStates.Values
    {
      if c in chainStates then chainStates[c].recentBlocks else []
    }

    function ClientOf(c: nat): Option<Node>
      reads this
    {
      if c in clients then Some(clients[c]) else None
    }

    method RegisterClient(chainId: nat, client: Node)
      requires Valid()
      modifies this`clients
      ensures Valid() && clients == old(clients)[chainId := client]
    {
      clients := clients[chainId := client];
    }

    /** The chain's state, created empty on first use. */
    method StateFor(chainId: nat) returns (state: ChainState)
      requires Valid()
      modifies this`chainStates
      ensures Valid() && chainId in chainStates && chainStates[chainId] == state
      ensures chainStates.Keys == old(chainStates.Keys) + {chainId}
      ensures forall c :: c in old(chainStates) ==> c in chainStates && chainStates[c] == old(chainStates[c])
      ensures chainId !in old(chainStates) ==> fresh(state)
      ensures state.recentBlocks == old(StateOf(chainId))
    {
      if chainId !in chainStates {
        state := new ChainState(DEFAULT_CAPACITY);
        chainStates := chainStates[chainId := state];
      }
      state := chainStates[chainId];
    }

    method SeedBlock(chainId: nat, number: nat, hash: Hash32)
      requires Valid()
      modifies this`chainStates, chainStates.Values
      ensures Valid()
      ensures StateOf(chainId) == Pushed(old(StateOf(chainId)), DEFAULT_CAPACITY, Entry(number, hash))
      ensures forall c :: c != chainId ==> StateOf(c) == old(StateOf(c))
    {
      var state := StateFor(chainId);
      state.Push(number, hash);
    }

    method FindForkPoint(chainId: nat, newBlock: Block) returns (r: Result<nat, SyncError>)
      ensures r == if chainId !in chainStates then Err(ChainNotFound(chainId))
                   else ForkPoint(chainStates[chainId].recentBlocks, ClientOf(chainId), chainId, newBlock.number)
    {
      if chainId !in clients || chainId !in chainStates {
        return Err(ChainNotFound(chainId));
      }
      var client, state := clients[chainId], chainStates[chainId].recentBlocks;
      var minBlock := SaturatingSub(newBlock.number, DEFAULT_CAPACITY);
      var currentNumber := SaturatingSub(newBlock.number, 1);
      while currentNumber >= minBlock
        invariant Walk(state, client, chainId, currentNumber, minBlock) ==
                  ForkPoint(state, Some(client), chainId, newBlock.number)
        decreases currentNumber
      {
        var answer := client(currentNumber);
        if answer.None? {
          return Err(Rpc(chainId));
        }
        var stored := FindHash(state, currentNumber);
        if stored.None? || stored == answer {
          return Ok(currentNumber + 1);
        }
        if currentNumber == 0 {
          break;
        }
        currentNumber := currentNumber - 1;
      }
      return Err(DeepReorg(chainId, DEFAULT_CAPACITY));
    }

    method ProcessBlock(chainId: nat, block: Block) returns (r: Result<Decision, SyncError>)
      requires Valid()
      modifies this`chainStates, chainStates.Values
      ensures Valid()
      ensures (r, StateOf(chainId)) == Decide(old(StateOf(chainId)), old(ClientOf(chainId)), chainId, block)
      ensures forall c :: c != chainId ==> StateOf(c) == old(StateOf(c))
    {
      var state := StateFor(chainId);
      if state.recentBlocks == [] || block.number == 0 {
        state.Push(block.number, block.hash);
        return Ok(Normal);
      }
      var stored := FindHash(state.recentBlocks, block.number - 1);
      if stored.None? || stored.value == block.parentHash {
        state.Push(block.number, block.hash);
        return Ok(Normal);
      }
      var fork := FindForkPoint(chainId, block);
      if fork.Err? {
        return Err(fork.error);
      }
      state.PruneAbove(SaturatingSub(fork.value, 1));
      return Ok(Reorg(chainId, fork.value, block.number));
    }
  }
}
