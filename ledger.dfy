/**
 * The Blockchain ledger object: the chain, the pending pool current_transactions
 * and the peer set nodes, with mining, transaction intake, peer registration and
 * the longest-chain replacement of resolve_conflicts.
 */
module Ledger {
  import opened Wrappers
  import opened Library
  import opened Proof
  import opened Blocks

  /** What a peer's /chain/ endpoint reports: a length and a snapshot, taken to be blocks already. */
  datatype PeerChain = PeerChain(length: int, chain: seq<Block>)

  /** Python's truthiness of new_block's previous_hash argument: None, 0 and "" are false. */
  predicate Truthy(h: Option<PrevHash>) {
    match h
    case None => false
    case Some(Number(n)) => n != 0
    case Some(Digest(hex)) => hex != ""
  }

  /** The peer set after register_node(address): the address's network location joins it unless it is empty. */
  function WithNode(nodes: set<string>, location: string): (r: set<string>)
    ensures nodes <= r && r - nodes <= {location}
    ensures location in r <==> location in nodes || location != ""
  {
    if location != "" then nodes + {location} else nodes
  }

  /** A reply resolve_conflicts may adopt: it arrived, reports more than the local length and passes valid_chain. */
  predicate Eligible(lib: Primitives, localLength: int, reply: Option<PeerChain>) {
    reply.Some? && reply.value.length > localLength && ChainValid(lib, reply.value.chain)
  }

  /**
   * Reply w is the candidate held after the first n replies: it is eligible, reports strictly
   * more than every eligible reply before it and at least as much as every eligible reply after it.
   */
  predicate Leads(lib: Primitives, localLength: int, replies: seq<Option<PeerChain>>, n: int, w: int) {
    && 0 <= w < n <= |replies|
    && Eligible(lib, localLength, replies[w])
    && (forall j :: 0 <= j < w && Eligible(lib, localLength, replies[j]) ==> replies[j].value.length < replies[w].value.length)
    && (forall j :: w < j < n && Eligible(lib, localLength, replies[j]) ==> replies[j].value.length <= replies[w].value.length)
  }

  class Blockchain {
    const lib: Primitives
    var chain: seq<Block>
    var currentTransactions: seq<Transaction>
    var nodes: set<string>

    /** The chain is never empty: it starts with a genesis block and is only replaced by a non-empty snapshot. */
    ghost predicate Valid()
      reads this
    {
      |chain| >= 1
    }

    /** What construction, new_transaction, register_node and mine keep: consecutive 1-based indices and a valid chain. */
    ghost predicate WellFormed()
      reads this
    {
      Valid() && Indexed(chain) && ChainValid(lib, chain)
    }

    /** The length property. */
    function Length(): nat
      reads this
    {
      |chain|
    }

    /** The last_block property, chain[-1]. */
    function LastBlock(): Block
      reads this
      requires Valid()
    {
      chain[|chain| - 1]
    }

    /** __init__: empty chain, pool and peer set, then the genesis block with placeholder hash 1 and proof 100. */
    constructor (lib: Primitives, now: Timestamp)
      ensures this.lib == lib
      ensures chain == [Block(1, 100, Number(1), [], now)]
      ensures currentTransactions == [] && nodes == {}
      ensures WellFormed()
    {
      this.lib := lib;
      chain := [];
      currentTransactions := [];
      nodes := {};
      new;
      var genesis := NewBlock(100, Some(Number(1)), now);
    }

    /** register_node: add urlparse(address).netloc to the peers when it is non-empty. */
    method RegisterNode(address: string)
      modifies this`nodes
      ensures nodes == WithNode(old(nodes), lib.urlNetloc(address))
      ensures chain == old(chain) && currentTransactions == old(currentTransactions)
    {
      var location := lib.urlNetloc(address);
      if location != "" {
        nodes := nodes + {location};
      }
    }

    /** mine, without the broadcast to peers that follows it. */
    method Mine(nodeIdentifier: string, now: Timestamp) returns (block: Block)
      requires Valid()
      requires Solvable(lib, LastBlock().proof)
      modifies this`chain, this`currentTransactions
      ensures chain == old(chain) + [block]
      ensures block.index == old(|chain|) + 1
      ensures block.transactions == old(currentTransactions) + [Transaction("0", nodeIdentifier, 1)]
      ensures block.previousHash == Digest(BlockHash(lib, old(LastBlock())))
      ensures block.proof >= 0 && ValidProof(lib, old(LastBlock()).proof, block.proof)
      ensures forall q :: 0 <= q < block.proof ==> !ValidProof(lib, old(LastBlock()).proof, q)
      ensures block.timestamp == now
      ensures Check(lib, block, old(LastBlock()))
      ensures currentTransactions == [] && nodes == old(nodes)
      ensures Valid() && (old(WellFormed()) ==> WellFormed())
    {
      var lastBlock := LastBlock();
      var proof := ProofOfWork(lastBlock.proof);
      var _ := NewTransaction("0", nodeIdentifier, 1);
      block := NewBlock(proof, Some(Digest(BlockHash(lib, lastBlock))), now);
      if old(WellFormed()) {
        ChainValidAppend(lib, old(chain), block);
      }
    }

    /** resolve_conflicts, with the replies fetched from the peers, in some order, passed in; None is a response that was not ok. */
    method ResolveConflicts(replies: seq<Option<PeerChain>>) returns (replaced: bool)
      requires Valid()
      modifies this`chain
      ensures Valid()
      ensures replaced <==> exists w :: Leads(lib, old(|chain|), replies, |replies|, w) && replies[w].value.chain != []
      ensures replaced ==> exists w :: Leads(lib, old(|chain|), replies, |replies|, w) && chain == replies[w].value.chain
      ensures !replaced ==> chain == old(chain)
      ensures ChainValid(lib, old(chain)) ==> ChainValid(lib, chain)
      ensures currentTransactions == old(currentTransactions) && nodes == old(nodes)
    {
      var newChain := LongestCandidate(lib, |chain|, replies);
      if newChain.Some? && newChain.value != [] {
        chain := newChain.value;
        replaced := true;
      } else {
        replaced := false;
        if newChain.Some? {
          var w :| Leads(lib, |chain|, replies, |replies|, w) && newChain.value == replies[w].value.chain;
          forall v | Leads(lib, |chain|, replies, |replies|, v) ensures v == w {
            LeaderUnique(lib, |chain|, replies, |replies|, v, w);
          }
        }
      }
    }

    /**
     * The loop of resolve_conflicts: starting from the local length, keep the snapshot of each reply
     * that passes valid_chain and reports more than the best length so far.
     */
    static method LongestCandidate(lib: Primitives, localLength: int, replies: seq<Option<PeerChain>>) returns (newChain: Option<seq<Block>>)
      ensures newChain.None? <==> NoneEligible(lib, localLength, replies, |replies|)
      ensures newChain.Some? ==> exists w :: Leads(lib, localLength, replies, |replies|, w) && newChain.value == replies[w].value.chain
    {
      var maxLength := localLength;
      newChain := None;
      ghost var w := 0;
      for i := 0 to |replies|
        invariant Holding(lib, localLength, replies, i, newChain, w, maxLength)
      {
        Advance(lib, localLength, replies, i, newChain, w, maxLength);
        if replies[i].Some? {
          var reply := replies[i].value;
          var valid := ValidChain(lib, reply.chain);
          if reply.length > maxLength && valid {
            maxLength := reply.length;
            newChain := Some(reply.chain);
            w := i;
          }
        }
      }
    }

    /** proof_of_work: the ascending search from 0 for the first proof that solves the puzzle. */
    method ProofOfWork(lastProof: int) returns (proof: int)
      requires Solvable(lib, lastProof)
      ensures proof >= 0 && ValidProof(lib, lastProof, proof)
      ensures forall q :: 0 <= q < proof ==> !ValidProof(lib, lastProof, q)
    {
      ghost var solution :| solution >= 0 && ValidProof(lib, lastProof, solution);
      proof := 0;
      while !ValidProof(lib, lastProof, proof)
        invariant 0 <= proof <= solution
        invariant forall q :: 0 <= q < proof ==> !ValidProof(lib, lastProof, q)
        decreases solution - proof
      {
        proof := proof + 1;
      }
    }

    /** new_block: forge the next block from the pending pool, which starts afresh, and append it. */
    method NewBlock(proof: int, previousHash: Option<PrevHash>, now: Timestamp) returns (block: Block)
      requires Truthy(previousHash) || |chain| >= 1
      modifies this`chain, this`currentTransactions
      ensures block.index == old(|chain|) + 1
      ensures block.proof == proof
      ensures block.previousHash == if Truthy(previousHash) then previousHash.value else Digest(BlockHash(lib, old(chain[|chain| - 1])))
      ensures block.transactions == old(currentTransactions)
      ensures block.timestamp == now
      ensures chain == old(chain) + [block]
      ensures currentTransactions == [] && nodes == old(nodes)
      ensures old(Indexed(chain)) ==> Indexed(chain)
    {
      var hash := if Truthy(previousHash) then previousHash.value else Digest(BlockHash(lib, LastBlock()));
      block := Block(Length() + 1, proof, hash, currentTransactions, now);
      currentTransactions := [];
      chain := chain + [block];
    }

    /** new_transaction: queue a transfer for the next block and report that block's index. */
    method NewTransaction(sender: string, recipient: string, amount: int) returns (index: int)
      requires Valid()
      modifies this`currentTransactions
      ensures currentTransactions == old(currentTransactions) + [Transaction(sender, recipient, amount)]
      ensures chain == old(chain) && nodes == old(nodes)
      ensures index == LastBlock().index + 1
      ensures Indexed(chain) ==> index == |chain| + 1
    {
      currentTransactions := currentTransactions + [Transaction(sender, recipient, amount)];
      index := LastBlock().index + 1;
    }

    /** valid_chain: walk the chain carrying the previous block and fail at the first block that does not check. */
    static method ValidChain(lib: Primitives, chain: seq<Block>) returns (valid: bool)
      ensures valid == ChainValid(lib, chain)
    {
      var lastBlock: Option<Block> := None;
      for i := 0 to |chain|
        invariant lastBlock == if i == 0 then None else Some(chain[i - 1])
        invariant forall k :: 1 <= k < i ==> Check(lib, chain[k], chain[k - 1])
      {
        var block := chain[i];
        if lastBlock.Some? {
          if !Check(lib, block, lastBlock.value) {
            ChainValidIffLinked(lib, chain);
            return false;
          }
        }
        lastBlock := Some(block);
      }
      ChainValidIffLinked(lib, chain);
      return true;
    }
  }

  /** No reply among the first n is eligible. */
  predicate NoneEligible(lib: Primitives, localLength: int, replies: seq<Option<PeerChain>>, n: int) {
    forall j :: 0 <= j < n && j < |replies| ==> !Eligible(lib, localLength, replies[j])
  }

  /** The state of the loop of resolve_conflicts after n replies: the candidate, the index it came from and max_length. */
  predicate Holding(lib: Primitives, localLength: int, replies: seq<Option<PeerChain>>, n: int,
                    candidate: Option<seq<Block>>, w: int, maxLength: int) {
    && 0 <= n <= |replies|
    && (candidate.None? ==> maxLength == localLength && NoneEligible(lib, localLength, replies, n))
    && (candidate.Some? ==> Leads(lib, localLength, replies, n, w) && candidate.value == replies[w].value.chain
                            && maxLength == replies[w].value.length)
  }

  /**
   * One turn of the loop: a reply eligible against max_length (it arrived, reports more and passes
   * valid_chain) leads from then on; any other reply, a tie included, changes nothing.
   */
  lemma Advance(lib: Primitives, localLength: int, replies: seq<Option<PeerChain>>, i: int,
                candidate: Option<seq<Block>>, w: int, maxLength: int)
    requires i < |replies| && Holding(lib, localLength, replies, i, candidate, w, maxLength)
    ensures Eligible(lib, maxLength, replies[i]) ==>
              Holding(lib, localLength, replies, i + 1, Some(replies[i].value.chain), i, replies[i].value.length)
    ensures !Eligible(lib, maxLength, replies[i]) ==> Holding(lib, localLength, replies, i + 1, candidate, w, maxLength)
  {
  }

  /** At most one reply leads, so the outcome of resolve_conflicts is determined by the replies and their order. */
  lemma LeaderUnique(lib: Primitives, localLength: int, replies: seq<Option<PeerChain>>, n: int, v: int, w: int)
    requires Leads(lib, localLength, replies, n, v) && Leads(lib, localLength, replies, n, w)
    ensures v == w
  {
  }
}
