# Blockchain ledger core, modelled in Dafny

This project models the ledger of the Go program `blockchain.go`, a small
educational blockchain. A `Blockchain` holds three things:

- `chain`, an append-only list of blocks whose first entry is the genesis block;
- `transactionPool`, the transactions waiting for the next block;
- `blockchainAddress`, the miner's address, which receives mining rewards.

Mining works in three steps. It puts a reward transaction into the pool. It
then searches nonces 0, 1, 2, ... for one whose candidate block digest, as
lowercase hex, starts with `MINING_DIFFICULTY` (3) zeros. The candidate block
has timestamp 0, the tip's digest and a copy of the pool. Finally it commits
the whole pool as a new block linked to the tip. A balance is the sum over
every committed transaction: `+value` when the address is the recipient and
`-value` when it is the sender.

Files and modules:

- `hex.dfy` (`HexEncoding`): Go's `%x` rendering of a digest, its inverse,
  and `strings.Repeat`.
- `ledger.dfy` (`Ledger`): the `Transaction` and `Block` values, the 32-byte
  `Digest`, the three mining constants, and the balance specification.
  Balance lemmas cover concatenation, mining rewards, self-transfers and
  conservation.
- `pow.dfy` (`Proof`): `ValidProof` and its meaning in terms of digest
  nibbles and bytes.
- `blockchain.dfy` (`Chain`): the `Blockchain` class. Its methods mutate
  `chain` and `transactionPool` in place. `CopyTransactionPool`,
  `ProofOfWork` and `CalculateTotalAmount` keep the source's loops and are
  proved against the specification functions.
- `demo.dfy` (`Demo`): a client that runs the program's demonstration
  sequence. It derives the three balances the program reports from the
  contracts alone.

Modelling decisions:

- **Block digest.** SHA-256 over the block's JSON encoding is foreign code.
  It is a parameter, `Proof.Hasher = Block -> Digest`, given to the
  constructor and stored in the constant field `hash`. Its contract promises
  only determinism and the 32-byte length. One further assumption enters
  through preconditions: `ProofOfWork` and `Mining` require `Mineable`, which
  says some non-negative nonce passes `ValidProof` for the candidate being
  searched. `Demo.MiningDemo` requires this for the two rounds it mines.
  Nothing in the model proves that SHA-256 meets these preconditions.
- **Hex rendering.** `%x` is modelled exactly: two lowercase digits per byte,
  high nibble first.
- **Clock reading.** `NewBlock` reads the clock. The constructor,
  `CreateBlock` and `Mining` take that reading as the parameter `now`.
- **Constructors.** `NewTransaction` and `NewBlock` are the datatype
  constructors `Transaction(...)` and `Block(now, ...)`.
- **Amounts.** `float32` amounts are `real`.
- **Reward and the miner's balance.** Mining raises the miner's balance by
  `MINING_REWARD` plus the pool's net effect on the miner, but only when the
  miner's address differs from `MINING_SENDER` ("THE BLOCKCHAIN"). If the two
  are equal, the reward is a self-transfer and nets to zero. `Mining` states
  both cases.
- **Proof of work and the committed block.** The nonce is proved valid and
  least for the candidate block with timestamp 0, built from the committed
  block's own nonce, previous hash and transactions. The model does not claim
  that the committed block's own digest meets the difficulty, because that
  block carries the live timestamp.
- **Chain linkage.** `CreateBlock` accepts any previous hash, so linkage
  (`blocks[i].previousHash == hash(blocks[i-1])`) is not an invariant of the
  class. `CreateBlock` states exactly when linkage survives. `Mining` and the
  constructor always keep it.

## Model

| member | source | states |
|---|---|---|
| `HexEncoding.HexDigit` | blockchain.go:107 | the digit rendered for a nibble is '0' exactly when the nibble is zero |
| `HexEncoding.Hex` | blockchain.go:107 | `%x` text has two characters per byte (64 for a digest); character i is the lowercase digit of nibble i, high nibble first |
| `HexEncoding.UnhexHex` | blockchain.go:107 | reading the hex text back yields the original bytes (hex rendering loses nothing) |
| `HexEncoding.HexInjective` | blockchain.go:107 | two byte strings with the same hex text are equal |
| `HexEncoding.Repeat` | blockchain.go:105 | `strings.Repeat("0", d)` has length d and every character is '0' |
| `HexEncoding.HexZeroPrefix` | blockchain.go:105-109 | the first k hex characters equal k zeros exactly when the first k nibbles are zero (both directions) |
| `Proof.ValidProofNibbles` | blockchain.go:104-110 | `ValidProof` builds `Block(0, nonce, previousHash, transactions)` and compares the first `difficulty` characters of its hex digest with `difficulty` zeros. It is defined for 0 <= difficulty <= 64, the bounds of `strings.Repeat` and the slice. It holds exactly when the first `difficulty` nibbles of the digest are zero (both directions) |
| `Proof.ValidProofAtMiningDifficulty` | blockchain.go:104-110 | at difficulty 3 a proof is valid exactly when the digest's first byte is 0 and its second byte is below 16 |
| `Ledger.Delta` | blockchain.go:138-145 | one transaction credits its recipient by `value`, debits its sender by `value`, is 0 for a self-transfer and 0 for an uninvolved address |
| `Ledger.AllTransactions` | blockchain.go:136-137 | every transaction of every committed block is in the flattened list, and nothing else is |
| `Ledger.TxsBalanceSnoc` | blockchain.go:137-146 | appending one transaction adds its effect to the balance |
| `Ledger.TxsBalanceAppend` | blockchain.go:137-146 | the balance over a concatenation is the sum of the balances of the parts |
| `Ledger.ChainBalanceSnoc` | blockchain.go:136-147 | committing a block adds the net effect of its transactions to every balance |
| `Ledger.ChainBalanceFlat` | blockchain.go:134-149 | the block-by-block balance equals the balance of all committed transactions taken as one list |
| `Ledger.SelfTransfersNeutral` | blockchain.go:139-145 | transactions whose sender is their recipient leave every balance at 0 |
| `Ledger.EmptyBlocksBalance` | blockchain.go:134-149 | a chain whose blocks have no transactions (a genesis-only chain) gives 0 for every address |
| `Ledger.MiningBalance` | blockchain.go:124-131 | a block holding the pool and then the miner's reward raises the miner's balance by the pool's effect plus `MINING_REWARD`, or plus 0 if the miner is `MINING_SENDER` |
| `Ledger.SumDeltaDistinct` | blockchain.go:139-145 | summed over distinct addresses, one transaction adds `value` if its recipient is listed and subtracts `value` if its sender is listed |
| `Ledger.TxsConservation` | blockchain.go:134-149 | over distinct addresses that include every sender and recipient, the balances of a transaction list sum to 0 |
| `Ledger.ChainConservation` | blockchain.go:134-149 | the balances of all parties of a chain, the reward sender included, sum to 0 |
| `Chain.Blockchain.constructor` | blockchain.go:44-50 | NewBlockchain: exactly one block `Block(now, 0, hash(Block{}), [])`, an empty pool, the given address, a linked chain, and balance 0 for every address |
| `Chain.Blockchain.CreateBlock` | blockchain.go:53-58 | returns the block of `now`, `nonce`, `previousHash` and the pool at call time, in order. The chain becomes the old chain plus that block, and the pool becomes empty. The chain stays linked exactly when it was linked and `previousHash` is the old tip's digest |
| `Chain.Blockchain.LastBlock` | blockchain.go:61-63 | the last block of the chain, defined on every constructed chain (the chain is never empty: the constructor establishes it and every mutator keeps it) |
| `Chain.Blockchain.AddTransaction` | blockchain.go:85-88 | the pool becomes the old pool followed by `(sender, recipient, value)`; the frame leaves the chain unchanged |
| `Chain.Blockchain.CopyTransactionPool` | blockchain.go:91-101 | returns as many transactions as the pool holds, field-for-field equal and in the same order; changes nothing |
| `Chain.Blockchain.ProofOfWork` | blockchain.go:113-121 | the returned nonce is non-negative and valid against the tip's digest and the pool at the mining difficulty; no smaller non-negative nonce is valid; changes nothing |
| `Chain.Blockchain.Mining` | blockchain.go:124-131 | returns true. It adds exactly one block, stamped `now`, linked to the old tip's digest, holding the old pool then the miner's reward, and carrying the least valid nonce for those contents at timestamp 0. It empties the pool, keeps linkage, and changes every balance by the pool's and the reward's effect |
| `Chain.Blockchain.CalculateTotalAmount` | blockchain.go:134-149 | the nested-loop total equals `ChainBalance`, the sum over all committed transactions of `+value` as recipient and `-value` as sender |
| `Demo.MiningDemo` | blockchain.go:233-248 | after the demonstration sequence (genesis, Dika to Bejo 1.0, mining, Batman to Superman 2.0, Tukimin to Tukiplus 3.0, mining), "my_address" holds 2.0, Batman -2.0 and Superman 2.0. This holds provided both rounds' nonce searches end (the two `Mineable` requires) |

## Left out

- `Block.Print`, `Blockchain.Print`, `Transaction.Print`, the printing in `main`, `init`, the log line in `Mining` and the debug prints in `Hash` and `ValidProof`: console output with no behaviour to verify.
- SHA-256 and `encoding/json` (`Block.Hash` and both `MarshalJSON` methods): foreign library code, modelled by the `Hasher` parameter. JSON encodes a nil transaction slice as `null` but an empty one as `[]`. The model does not distinguish the two: both are the empty sequence.
- `time.Now().UnixNano()` in `NewBlock`: the clock is the `now` parameter.
- `float32` rounding in `AddTransaction`, `Mining` and `CalculateTotalAmount`: amounts are exact reals.
- Chain.Blockchain.ProofOfWork: requires that some non-negative nonce is valid (`Mineable`). Without one, the Go loop finds no non-negative nonce: its 64-bit `nonce += 1` wraps around into negative nonces, and the search either goes on there or never ends. Under `Mineable` the model proves that the loop ends. The 64-bit wrap-around itself is not modelled.
- Chain.Blockchain.Mining: requires `Mineable` for the pool plus the reward, for the same reason as ProofOfWork.
- Demo.MiningDemo: requires that the first round's search ends, and that the second round's search ends on top of the block the first round commits (two `Mineable` preconditions). The balances 2.0, -2.0 and 2.0 are proved only under these assumptions about the hasher.
- Pointer identity: transactions and blocks are values. The fresh `Transaction` objects that `CopyTransactionPool` allocates, and the sharing of the pool's backing array with the committed block, are not modelled. No code writes to a `Transaction` or a `Block` after creating it, so no behaviour depends on them.
- Integer widths: the `int64` timestamp and the `int` nonce are unbounded integers.
