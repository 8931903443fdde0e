/** Values of the ledger: transactions, blocks, digests, the mining constants,
    and the balance an address holds over a sequence of committed blocks. */
module Ledger {

  /** A SHA-256 digest: 32 bytes. */
  type Digest = d: seq<bv8> | |d| == 32 witness seq(32, _ => 0 as bv8)

  /** The all-zero digest, the `previousHash` of a zero-valued block. */
  const ZeroDigest: Digest := seq(32, _ => 0 as bv8)

  /** Required number of leading '0' hex digits in a proof of work. */
  const MiningDifficulty: nat := 3
  /** Sender of every mining reward. */
  const MiningSender: string := "THE BLOCKCHAIN"
  /** Amount of every mining reward. */
  const MiningReward: real := 1.0

  /** A transfer of `value` from `sender` to `recipient` (NewTransaction). */
  datatype Transaction = Transaction(sender: string, recipient: string, value: real)

  /** A block (NewBlock, with the clock reading passed in as `timestamp`). */
  datatype Block = Block(timestamp: int, nonce: int, previousHash: Digest, transactions: seq<Transaction>)

  /** The zero-valued block `Block{}` whose digest the genesis block links to. */
  const EmptyBlock: Block := Block(0, 0, ZeroDigest, [])

  /** The reward transaction Mining adds for the miner at `address`. */
  function Reward(address: string): Transaction
  {
    Transaction(MiningSender, address, MiningReward)
  }

  /** What one transaction does to the balance of `a`: credited as recipient,
      debited as sender. */
  function Delta(t: Transaction, a: string): (d: real)
    ensures a != t.sender && a != t.recipient ==> d == 0.0
    ensures t.sender == t.recipient ==> d == 0.0
    ensures a == t.recipient && a != t.sender ==> d == t.value
    ensures a == t.sender && a != t.recipient ==> d == -t.value
  {
    (if a == t.recipient then t.value else 0.0) - (if a == t.sender then t.value else 0.0)
  }

  /** Net effect of a transaction list on `a`, accumulated front to back. */
  function TxsBalance(txs: seq<Transaction>, a: string): real
  {
    if txs == [] then 0.0 else TxsBalance(txs[..|txs| - 1], a) + Delta(txs[|txs| - 1], a)
  }

  /** Net effect of a sequence of blocks on `a`, block by block. */
  function ChainBalance(blocks: seq<Block>, a: string): real
  {
    if blocks == [] then 0.0
    else ChainBalance(blocks[..|blocks| - 1], a) + TxsBalance(blocks[|blocks| - 1].transactions, a)
  }

  /** Every committed transaction, in chain order. */
  function AllTransactions(blocks: seq<Block>): (txs: seq<Transaction>)
    ensures forall b, t :: b in blocks && t in b.transactions ==> t in txs
    ensures forall t :: t in txs ==> exists b :: b in blocks && t in b.transactions
  {
    if blocks == [] then []
    else
      var init := blocks[..|blocks| - 1];
      assert forall b :: b in init ==> b in blocks;
      AllTransactions(init) + blocks[|blocks| - 1].transactions
  }

  /** Appending one transaction adds its effect. */
  lemma TxsBalanceSnoc(txs: seq<Transaction>, t: Transaction, a: string)
    ensures TxsBalance(txs + [t], a) == TxsBalance(txs, a) + Delta(t, a)
  {
    assert (txs + [t])[..|txs|] == txs;
  }

  /** The balance over a concatenation is the sum of the balances of the parts. */
  lemma {:induction false} TxsBalanceAppend(x: seq<Transaction>, y: seq<Transaction>, a: string)
    ensures TxsBalance(x + y, a) == TxsBalance(x, a) + TxsBalance(y, a)
  {
    if y != [] {
      var y' := y[..|y| - 1];
      assert (x + y)[..|x + y| - 1] == x + y';
      TxsBalanceAppend(x, y', a);
    } else {
      assert x + y == x;
    }
  }

  /** Appending a block adds the net effect of its transactions. */
  lemma ChainBalanceSnoc(blocks: seq<Block>, b: Block, a: string)
    ensures ChainBalance(blocks + [b], a) == ChainBalance(blocks, a) + TxsBalance(b.transactions, a)
  {
    assert (blocks + [b])[..|blocks|] == blocks;
  }

  /** The block-by-block balance equals the balance of the flattened
      transaction list. */
  lemma {:induction false} ChainBalanceFlat(blocks: seq<Block>, a: string)
    ensures ChainBalance(blocks, a) == TxsBalance(AllTransactions(blocks), a)
  {
    if blocks != [] {
      var init := blocks[..|blocks| - 1];
      ChainBalanceFlat(init, a);
      TxsBalanceAppend(AllTransactions(init), blocks[|blocks| - 1].transactions, a);
    }
  }

  /** Self-transfers never change a balance. */
  lemma {:induction false} SelfTransfersNeutral(txs: seq<Transaction>, a: string)
    requires forall t :: t in txs ==> t.sender == t.recipient
    ensures TxsBalance(txs, a) == 0.0
  {
    if txs != [] {
      var init := txs[..|txs| - 1];
      assert forall t :: t in init ==> t in txs;
      SelfTransfersNeutral(init, a);
    }
  }

  /** Blocks without transactions (a genesis-only chain) leave every balance at 0. */
  lemma {:induction false} EmptyBlocksBalance(blocks: seq<Block>, a: string)
    requires forall i :: 0 <= i < |blocks| ==> blocks[i].transactions == []
    ensures ChainBalance(blocks, a) == 0.0
  {
    if blocks != [] {
      EmptyBlocksBalance(blocks[..|blocks| - 1], a);
    }
  }

  /** Committing a block that holds `pool` followed by the reward for `miner`
      raises the miner's balance by the reward plus what `pool` does to it,
      unless the miner's address is the reward's own sender. */
  lemma MiningBalance(blocks: seq<Block>, b: Block, pool: seq<Transaction>, miner: string)
    requires b.transactions == pool + [Reward(miner)]
    ensures ChainBalance(blocks + [b], miner)
         == ChainBalance(blocks, miner) + TxsBalance(pool, miner)
            + (if miner == MiningSender then 0.0 else MiningReward)
  {
    ChainBalanceSnoc(blocks, b, miner);
    TxsBalanceAppend(pool, [Reward(miner)], miner);
    assert TxsBalance([Reward(miner)], miner) == Delta(Reward(miner), miner) by {
      assert [Reward(miner)][..0] == [];
    }
  }

  // ---- Conservation: balances over all parties sum to zero ----

  /** Pairwise distinct addresses. */
  ghost predicate Distinct(addrs: seq<string>)
  {
    forall i, j :: 0 <= i < j < |addrs| ==> addrs[i] != addrs[j]
  }

  /** Every sender and recipient of `txs` is listed in `addrs`. */
  ghost predicate PartiesIn(txs: seq<Transaction>, addrs: seq<string>)
  {
    forall t :: t in txs ==> t.sender in addrs && t.recipient in addrs
  }

  function SumDelta(addrs: seq<string>, t: Transaction): real
  {
    if addrs == [] then 0.0 else Delta(t, addrs[0]) + SumDelta(addrs[1..], t)
  }

  function SumTxsBalance(addrs: seq<string>, txs: seq<Transaction>): real
  {
    if addrs == [] then 0.0 else TxsBalance(txs, addrs[0]) + SumTxsBalance(addrs[1..], txs)
  }

  function SumChainBalance(addrs: seq<string>, blocks: seq<Block>): real
  {
    if addrs == [] then 0.0 else ChainBalance(blocks, addrs[0]) + SumChainBalance(addrs[1..], blocks)
  }

  /** Over distinct addresses, one transaction credits its recipient once and
      debits its sender once. */
  lemma {:induction false} SumDeltaDistinct(addrs: seq<string>, t: Transaction)
    requires Distinct(addrs)
    ensures SumDelta(addrs, t)
         == (if t.recipient in addrs then t.value else 0.0) - (if t.sender in addrs then t.value else 0.0)
  {
    if addrs != [] {
      var rest := addrs[1..];
      assert Distinct(rest) by {
        forall i, j | 0 <= i < j < |rest| ensures rest[i] != rest[j] {
          assert rest[i] == addrs[i + 1] && rest[j] == addrs[j + 1];
        }
      }
      assert addrs[0] !in rest by {
        forall j | 0 <= j < |rest| ensures rest[j] != addrs[0] {
          assert rest[j] == addrs[j + 1];
        }
      }
      assert forall x :: x in addrs <==> x == addrs[0] || x in rest;
      SumDeltaDistinct(rest, t);
    }
  }

  lemma {:induction false} SumTxsBalanceSnoc(addrs: seq<string>, txs: seq<Transaction>, t: Transaction)
    ensures SumTxsBalance(addrs, txs + [t]) == SumTxsBalance(addrs, txs) + SumDelta(addrs, t)
  {
    if addrs != [] {
      assert (txs + [t])[..|txs|] == txs;
      SumTxsBalanceSnoc(addrs[1..], txs, t);
    }
  }

  /** Transfers only move value: over any distinct list of addresses that
      contains every party, the balances of a transaction list sum to zero. */
  lemma {:induction false} TxsConservation(addrs: seq<string>, txs: seq<Transaction>)
    requires Distinct(addrs) && PartiesIn(txs, addrs)
    ensures SumTxsBalance(addrs, txs) == 0.0
  {
    if txs == [] {
      ZeroSum(addrs, txs);
    } else {
      var init, t := txs[..|txs| - 1], txs[|txs| - 1];
      assert txs == init + [t];
      assert forall u :: u in init ==> u in txs;
      TxsConservation(addrs, init);
      SumTxsBalanceSnoc(addrs, init, t);
      SumDeltaDistinct(addrs, t);
    }
  }

  lemma {:induction false} ZeroSum(addrs: seq<string>, txs: seq<Transaction>)
    requires txs == []
    ensures SumTxsBalance(addrs, txs) == 0.0
  {
    if addrs != [] {
      ZeroSum(addrs[1..], txs);
    }
  }

  lemma {:induction false} SumChainFlat(addrs: seq<string>, blocks: seq<Block>)
    ensures SumChainBalance(addrs, blocks) == SumTxsBalance(addrs, AllTransactions(blocks))
  {
    if addrs != [] {
      ChainBalanceFlat(blocks, addrs[0]);
      SumChainFlat(addrs[1..], blocks);
    }
  }

  /** Balance conservation over a whole chain: the balances of all parties
      (the reward sender included) sum to zero. */
  lemma ChainConservation(addrs: seq<string>, blocks: seq<Block>)
    requires Distinct(addrs) && PartiesIn(AllTransactions(blocks), addrs)
    ensures SumChainBalance(addrs, blocks) == 0.0
  {
    SumChainFlat(addrs, blocks);
    TxsConservation(addrs, AllTransactions(blocks));
  }
}
