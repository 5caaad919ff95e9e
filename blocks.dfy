/**
 * Transactions and blocks, the dictionary a block is hashed from, the successor
 * check Block.check and the validity of a whole chain.
 */
module Blocks {
  import opened Library
  import opened Proof

  /** A value transfer; the amount's sign is not checked anywhere. */
  datatype Transaction = Transaction(sender: string, recipient: string, amount: int)

  /** previous_hash holds the int placeholder 1 in the genesis block and a hex digest everywhere else. */
  datatype PrevHash = Number(n: int) | Digest(hex: string)

  /** time.time() at construction, in seconds. */
  type Timestamp = real

  datatype Block = Block(
    index: int,
    proof: int,
    previousHash: PrevHash,
    transactions: seq<Transaction>,
    timestamp: Timestamp)

  function TransactionData(t: Transaction): Json {
    JObject(map["sender" := JString(t.sender), "recipient" := JString(t.recipient), "amount" := JInt(t.amount)])
  }

  function PrevHashData(h: PrevHash): Json {
    match h
    case Number(n) => JInt(n)
    case Digest(hex) => JString(hex)
  }

  /** The dictionary Block.hash serialises: every field of the block, the transactions as a list in order. */
  function BlockData(b: Block): Json {
    JObject(map[
      "index" := JInt(b.index),
      "proof" := JInt(b.proof),
      "previous_hash" := PrevHashData(b.previousHash),
      "timestamp" := JFloat(b.timestamp),
      "transactions" := JArray(seq(|b.transactions|, i requires 0 <= i < |b.transactions| => TransactionData(b.transactions[i])))
    ])
  }

  /** Block.hash: the hex SHA-256 digest of the sorted-keys JSON text of BlockData. */
  function BlockHash(lib: Primitives, b: Block): string {
    lib.sha256Hex(lib.jsonDumps(BlockData(b)))
  }

  /** Block.check: b may follow last when the proofs solve the puzzle and b records last's hash. */
  predicate Check(lib: Primitives, b: Block, last: Block) {
    ValidProof(lib, last.proof, b.proof) && b.previousHash == Digest(BlockHash(lib, last))
  }

  /** The reference definition of a valid chain: every block but the first checks against its predecessor. */
  predicate Linked(lib: Primitives, chain: seq<Block>) {
    forall k :: 1 <= k < |chain| ==> Check(lib, chain[k], chain[k - 1])
  }

  /** Chain validity, pair by pair from the front, as valid_chain walks it. */
  predicate ChainValid(lib: Primitives, chain: seq<Block>)
    ensures |chain| <= 1 ==> ChainValid(lib, chain)
  {
    |chain| <= 1 || (Check(lib, chain[1], chain[0]) && ChainValid(lib, chain[1..]))
  }

  /** Block i carries the 1-based index i + 1. */
  predicate Indexed(chain: seq<Block>) {
    forall i :: 0 <= i < |chain| ==> chain[i].index == i + 1
  }

  /** The dictionary keeps every field: blocks with equal data are equal, so the hash input covers the whole block. */
  lemma BlockDataInjective(b1: Block, b2: Block)
    requires BlockData(b1) == BlockData(b2)
    ensures b1 == b2
  {
    var m1, m2 := BlockData(b1).members, BlockData(b2).members;
    assert m1["index"] == m2["index"] && m1["proof"] == m2["proof"] && m1["timestamp"] == m2["timestamp"];
    assert m1["previous_hash"] == m2["previous_hash"];
    assert b1.previousHash == b2.previousHash by {
      if b1.previousHash.Number? { assert b2.previousHash.Number?; } else { assert b2.previousHash.Digest?; }
    }
    var ts1, ts2 := m1["transactions"].items, m2["transactions"].items;
    assert ts1 == ts2;
    assert |b1.transactions| == |b2.transactions| by { assert |ts1| == |b1.transactions| && |ts2| == |b2.transactions|; }
    forall i | 0 <= i < |b1.transactions| ensures b1.transactions[i] == b2.transactions[i] {
      assert ts1[i] == TransactionData(b1.transactions[i]) && ts2[i] == TransactionData(b2.transactions[i]);
      TransactionDataInjective(b1.transactions[i], b2.transactions[i]);
    }
  }

  lemma TransactionDataInjective(t1: Transaction, t2: Transaction)
    requires TransactionData(t1) == TransactionData(t2)
    ensures t1 == t2
  {
    var m1, m2 := TransactionData(t1).members, TransactionData(t2).members;
    assert m1["sender"] == m2["sender"] && m1["recipient"] == m2["recipient"] && m1["amount"] == m2["amount"];
  }

  /** valid_chain's pairwise walk accepts exactly the chains in which every block checks against its predecessor. */
  lemma {:induction false} ChainValidIffLinked(lib: Primitives, chain: seq<Block>)
    ensures ChainValid(lib, chain) <==> Linked(lib, chain)
  {
    if |chain| > 1 {
      ChainValidIffLinked(lib, chain[1..]);
      if Linked(lib, chain) {
        assert Linked(lib, chain[1..]) by {
          forall k | 1 <= k < |chain| - 1 ensures Check(lib, chain[1..][k], chain[1..][k - 1]) {
            assert chain[1..][k] == chain[k + 1] && chain[1..][k - 1] == chain[k];
          }
        }
      }
      if ChainValid(lib, chain) {
        forall k | 1 <= k < |chain| ensures Check(lib, chain[k], chain[k - 1]) {
          if k > 1 {
            assert chain[1..][k - 1] == chain[k] && chain[1..][k - 2] == chain[k - 1];
          }
        }
      }
    }
  }

  /** A block that checks against the last block of a valid chain extends it to a valid chain. */
  lemma ChainValidAppend(lib: Primitives, chain: seq<Block>, b: Block)
    requires ChainValid(lib, chain)
    requires |chain| >= 1 && Check(lib, b, chain[|chain| - 1])
    ensures ChainValid(lib, chain + [b])
  {
    ChainValidIffLinked(lib, chain);
    var longer := chain + [b];
    forall k | 1 <= k < |longer| ensures Check(lib, longer[k], longer[k - 1]) {
      if k < |chain| {
        assert longer[k] == chain[k] && longer[k - 1] == chain[k - 1];
      }
    }
    ChainValidIffLinked(lib, longer);
  }
}
