# A single-node proof-of-work ledger, modelled in Dafny

This project models the core of `blockchain.py`, a teaching blockchain node. The node holds one
ledger. The ledger has three parts: a chain of blocks, a pool of pending transactions and a set of
peer addresses. It mines a block by searching for a proof that solves a hash puzzle, and it pays
the miner one unit in that block. It also replaces its chain with the longest valid snapshot that a
peer reports.

Modules, in dependency order:

- `Wrappers` (wrappers.dfy): `Option`, standing for Python's `None`.
- `Decimal` (decimal.dfy): the decimal numerals that `f'{n}'` prints. It includes a reader, and
  lemmas showing that printing and reading are inverse bijections between the naturals and the
  canonical numerals.
- `Library` (library.dfy): the library calls, kept uninterpreted. These are SHA-256 as a hex
  digest, `json.dumps(sort_keys=True)` and `urlparse(...).netloc`. Each one is a function value in
  `Primitives`, which the ledger holds as a constant. A JSON value type and Python's `s[:n]` are
  here too.
- `Proof` (proof.dfy): the puzzle `valid_proof`, and the fact that it sees only the concatenated
  numerals.
- `Blocks` (blocks.dfy): `Transaction`, `Block`, and the dictionary a block is hashed from. It also
  holds `Block.hash`, `Block.check`, and chain validity in two forms: the pairwise recursion and
  the "every block checks against its predecessor" reference definition.
- `Ledger` (ledger.dfy): the `Blockchain` class, with fields `chain`, `currentTransactions` and
  `nodes`. Its methods are `__init__`, `register_node`, `mine` (without its broadcast),
  `resolve_conflicts` (with the peer replies passed in), `proof_of_work`, `new_block`,
  `new_transaction` and `valid_chain`. The properties `length` and `last_block` are the functions
  `Length` and `LastBlock`.
- `Consensus` (consensus.dfy): lemmas about the longest-chain decision and peer registration.

Modelling choices:

- Hashing is deterministic by construction, because every hash is the same function value applied
  to the block's data.
- `BlockData` builds the same dictionary that `Block.hash` builds. It is a map, so key order plays
  no part, just as it plays none under `sort_keys=True`.
- The genesis block's `previous_hash` is the int `1`. Every other block's is a hex string. Hence
  `PrevHash = Number | Digest`, and `Block.check` compares with `Digest(...)`, so an int never
  equals a digest. `new_block` tests its argument for Python truthiness: `None`, `0` and `""` fall
  back to the last block's hash.
- Timestamps (`time.time()`) are a `real` passed in by the caller.
- The peer replies that `resolve_conflicts` would fetch are a sequence of
  `Option<PeerChain(length, chain)>` in any order. `None` is a peer whose response was not ok (blockchain.py:131-133). Each
  snapshot is taken to be a sequence of `Block` values already.

The model follows the code, including where it does less than its docstrings suggest:

- `resolve_conflicts` promises the longest chain in the network (blockchain.py:119-121). A snapshot
  is compared by the length the peer *reports* (blockchain.py:135-137), not by its own length.
  `Consensus.ReportedLengthTrusted` shows a one-block snapshot winning against a local chain of three.
- The winner is adopted only if it is non-empty (`if new_chain:`, blockchain.py:141). An empty
  snapshot passes `valid_chain`, so if it reports a large length it becomes the candidate. It then
  blocks a later valid chain, and the call returns false (`Consensus.EmptySnapshotShadows`).
- Genesis `previous_hash` is an int, not a hex string (blockchain.py:81).

## Model

| member | source | states |
|---|---|---|
| `Library.Head` | blockchain.py:216 | Python's `s[:4]` keeps the first four characters, or the whole string when it is shorter; the result is a prefix of `s`. |
| `Decimal.DigitsCanonical` | blockchain.py:214 | The numeral `f'{n}'` of a natural number is non-empty, is all digits, has no leading zero unless it is "0", and reads back as `n`. |
| `Decimal.CanonicalDigits` | blockchain.py:214 | Every canonical numeral is printed by exactly the number it denotes, so printing is onto the canonical numerals. |
| `Decimal.DigitsInjective` | blockchain.py:214 | Distinct natural numbers print as distinct numerals. |
| `Decimal.LeadingDigit` | blockchain.py:214 | For a digit 1-9 `d` and `b` with `k` digits, `d*10^k + b` prints as `d` followed by the digits of `b`. |
| `Decimal.TrailingDigit` | blockchain.py:214 | For `a >= 1` and a digit `d`, `10a + d` prints as the digits of `a` followed by `d`. |
| `Proof.VerdictFollowsGuess` | blockchain.py:214-216 | Two proof pairs whose concatenated numerals are equal get the same `valid_proof` verdict. |
| `Proof.ShiftedDigitSameVerdict` | blockchain.py:214-216 | For a `last_proof` of two or more digits whose last digit is not 0, moving that digit to the front of a non-negative `proof` leaves the hashed text, and so the verdict, unchanged, whatever the hash function. |
| `Proof.TwelveThreeIsOneTwentyThree` | blockchain.py:214-216 | `(12, 3)` and `(1, 23)` both hash "123" and always get the same verdict. |
| `Blocks.BlockDataInjective` | blockchain.py:42-57 | The hashed dictionary determines the block: two blocks with equal data agree in index, proof, previous hash, timestamp and every transaction, in order. |
| `Blocks.TransactionDataInjective` | blockchain.py:47-53 | A transaction's dictionary determines its sender, recipient and amount. |
| `Blocks.ChainValid` | blockchain.py:227-241 | A chain of length 0 or 1 is always valid. |
| `Blocks.ChainValidIffLinked` | blockchain.py:219-241 | The pairwise walk accepts a chain exactly when `chain[k].check(chain[k-1])` holds for every `k >= 1` (both directions). |
| `Blocks.ChainValidAppend` | blockchain.py:59-69 | Appending a block that checks against the last block of a valid chain gives a valid chain. |
| `Ledger.WithNode` | blockchain.py:90-92 | Registration only adds: nothing but the location is new, and the location is present afterwards exactly when it was present before or is non-empty. |
| `Ledger.Advance` | blockchain.py:136-139 | One turn of the loop: a reply that arrived, reports more than `max_length` and passes `valid_chain` becomes the candidate; any other reply, a tie included, leaves candidate and `max_length` as they were. |
| `Ledger.LeaderUnique` | blockchain.py:137-139 | At most one reply can be the candidate the loop ends with, so the outcome is determined by the replies and their order. |
| `Ledger.Blockchain.constructor` | blockchain.py:74-81 | A new ledger has one block, with index 1, proof 100, placeholder hash `1`, no transactions and the given time. The pool and the peer set are empty. The ledger is well formed. Genesis never reads `last_block`. |
| `Ledger.Blockchain.RegisterNode` | blockchain.py:83-92 | The peer set becomes `WithNode(old peers, netloc(address))`: the location is added iff it is non-empty. Chain and pool are untouched. |
| `Ledger.Blockchain.Mine` | blockchain.py:94-111 | Exactly one block is appended. Its index is the old length + 1. Its transactions are the old pool followed by the reward `("0", id, 1)`. Its previous hash is the previous last block's hash. Its proof is the least non-negative solution for the previous proof, so it checks against that block. The pool is empty afterwards. Consecutive indices and chain validity are preserved. |
| `Ledger.Blockchain.ResolveConflicts` | blockchain.py:118-144 | Returns true iff the reply that leads (first strictly longest reported length above the local length, among valid snapshots) exists and is non-empty; then the chain becomes that snapshot. Otherwise the chain is unchanged. Validity of the chain is preserved. Pool and peers are untouched. |
| `Ledger.Blockchain.LongestCandidate` | blockchain.py:126-140 | The loop finds no candidate iff no reply is eligible. Otherwise it ends holding the snapshot of the reply that leads: eligible, reporting strictly more than every earlier eligible reply and no less than every later one. |
| `Ledger.Blockchain.ProofOfWork` | blockchain.py:146-159 | Returns `p >= 0` with `valid_proof(last, p)`, and `valid_proof(last, q)` is false for every `0 <= q < p`. |
| `Ledger.Blockchain.NewBlock` | blockchain.py:165-184 | Exactly one block is appended, with earlier blocks unchanged. Its index is the old length + 1. Its transactions are the old pool, in order. Its previous hash is the argument when truthy, else the hash of the current last block. The pool is then empty and consecutive indices are preserved. |
| `Ledger.Blockchain.NewTransaction` | blockchain.py:186-197 | Appends one transaction at the end of the pool. Chain and peers are untouched. Returns `last_block.index + 1`, which is the index the next block gets when indices are consecutive. |
| `Ledger.Blockchain.ValidChain` | blockchain.py:218-241 | The loop that carries the previous block returns exactly `ChainValid(chain)`. |
| `Consensus.RegisterIdempotent` | blockchain.py:90-92 | Registering an address twice equals registering it once. |
| `Consensus.RegisterCommutes` | blockchain.py:90-92 | The peer set does not depend on the order of registrations. |
| `Consensus.TieKeepsEarlier` | blockchain.py:137 | A later eligible reply with the same reported length never becomes the candidate. |
| `Consensus.OnlyEligibleLeads` | blockchain.py:129-139 | Failed and ineligible replies are skipped: a single eligible reply leads, and is the only one that does. |
| `Consensus.NotOkReplySkipped` | blockchain.py:130-133 | A response that was not ok, followed by one with a valid longer chain: the not-ok one is skipped and the valid chain leads. |
| `Consensus.ReportedLengthTrusted` | blockchain.py:135-137 | A reported length of 5 with a one-block snapshot leads against a local chain of 3. |
| `Consensus.EmptySnapshotShadows` | blockchain.py:137-143 | An empty snapshot reporting 9 leads over a valid snapshot reporting 5, so the valid one is not adopted. |

## Left out

- The broadcast after mining (blockchain.py:113-115) and the HTTP fetch in `resolve_conflicts` (blockchain.py:130-134) are network I/O. The replies are a parameter, with `None` for a response that was not ok.
- Exceptions from the network and decoding calls have no counterpart in the model. An unreachable peer makes `requests.get` raise (blockchain.py:130), and a malformed body makes `response.json()` or `payload['length']`/`payload['chain']` raise (blockchain.py:134-136); nothing catches these, so `resolve_conflicts` aborts without replacing the chain. A failing broadcast (blockchain.py:114-115) makes `mine` raise after its block has been appended. The model has no such outcome: `ResolveConflicts` always returns a verdict and `Mine` always returns its block.
- The order of `for node in self.nodes` is not modelled: Python leaves set iteration order unspecified. The replies come in any order, and the results are stated for the order given.
- `payload['chain']` is decoded JSON, not `Block` objects. The model assumes the snapshots are already sequences of blocks with integer fields, and that `payload['length']` is an int.
- SHA-256, `json.dumps` and `urlparse` are library code, so they stay uninterpreted functions. In particular the model proves nothing about hash collisions.
- `time.time()` is wall-clock input: a float, represented here by a `real` argument.
- `print` calls (blockchain.py:132, 233-235) are logging only.
- server.py (HTTP routes, argument parsing, the uuid node identifier) is not part of this model. Nor is schema.py, which serialises `proof` as a string on the wire; the model keeps `proof` an int.
- `Block.__init__`'s `transactions or []` and the hand-over of the pool list to the new block are modelled as values. The list handed over is never mutated afterwards, so aliasing has no observable effect.
- `Ledger.Blockchain.ProofOfWork`: requires that some non-negative proof solves the puzzle. With an abstract hash, termination cannot be shown otherwise. Where no solution exists, the source loops forever, and the model does not represent that.
- `Ledger.Blockchain.Mine`: requires the same solvability for the last block's proof, for the same reason.
- Concurrency is not modelled: each operation is assumed to run to completion before the next starts; server.py shares one ledger between requests and takes no lock.
