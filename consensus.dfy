/** Facts about peer registration and the longest-chain decision, stated on the predicates of module Ledger (WithNode, Eligible, Leads). */
module Consensus {
  import opened Wrappers
  import opened Library
  import opened Blocks
  import opened Ledger

  /** Registering the same address twice leaves the peers as registering it once. */
  lemma RegisterIdempotent(nodes: set<string>, location: string)
    ensures WithNode(WithNode(nodes, location), location) == WithNode(nodes, location)
  {
  }

  /** The peer set does not depend on the order in which addresses are registered. */
  lemma RegisterCommutes(nodes: set<string>, a: string, b: string)
    ensures WithNode(WithNode(nodes, a), b) == WithNode(WithNode(nodes, b), a)
  {
  }

  /** A later reply that only ties the candidate's reported length never takes its place. */
  lemma TieKeepsEarlier(lib: Primitives, localLength: int, replies: seq<Option<PeerChain>>, n: int, i: int, j: int)
    requires 0 <= i < j < n <= |replies|
    requires Eligible(lib, localLength, replies[i]) && Eligible(lib, localLength, replies[j])
    requires replies[i].value.length == replies[j].value.length
    ensures !Leads(lib, localLength, replies, n, j)
  {
  }

  /** Replies that were not ok, and ineligible ones, are skipped: when only one reply is eligible, it leads, whatever the others did. */
  lemma OnlyEligibleLeads(lib: Primitives, localLength: int, replies: seq<Option<PeerChain>>, k: int)
    requires 0 <= k < |replies| && Eligible(lib, localLength, replies[k])
    requires forall j :: 0 <= j < |replies| && j != k ==> !Eligible(lib, localLength, replies[j])
    ensures Leads(lib, localLength, replies, |replies|, k)
    ensures forall v :: Leads(lib, localLength, replies, |replies|, v) ==> v == k
  {
  }

  /** A response that was not ok, followed by a valid longer chain: the valid chain is the one adopted. */
  lemma NotOkReplySkipped(lib: Primitives, snapshot: seq<Block>, localLength: int, reported: int)
    requires ChainValid(lib, snapshot) && reported > localLength
    ensures Leads(lib, localLength, [None, Some(PeerChain(reported, snapshot))], 2, 1)
  {
  }

  /**
   * The reported length, not the snapshot's own, is compared: a peer reporting 5 with a
   * one-block snapshot leads against a local chain of 3 blocks, which would then shrink to one.
   */
  lemma ReportedLengthTrusted(lib: Primitives, g: Block)
    ensures Leads(lib, 3, [Some(PeerChain(5, [g]))], 1, 0)
    ensures |[Some(PeerChain(5, [g]))][0].value.chain| < 3
  {
  }

  /**
   * An empty snapshot passes valid_chain, so with a large reported length it leads and then fails
   * the truthiness test: a valid longer chain from a later peer is not adopted.
   */
  lemma EmptySnapshotShadows(lib: Primitives, snapshot: seq<Block>)
    requires ChainValid(lib, snapshot)
    ensures Eligible(lib, 1, Some(PeerChain(5, snapshot)))
    ensures Leads(lib, 1, [Some(PeerChain(9, [])), Some(PeerChain(5, snapshot))], 2, 0)
  {
  }
}
