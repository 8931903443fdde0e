/** The Blockchain ledger state machine: an append-only chain of blocks, a
    pool of pending transactions, and the miner's address. */
module Chain {
  import opened Ledger
  import opened Proof

  class Blockchain {
    /** Transactions waiting for the next block, in arrival order. */
    var transactionPool: seq<Transaction>
    /** Committed blocks; index 0 is the genesis block. */
    var chain: seq<Block>
    /** Address credited with mining rewards. */
    const blockchainAddress: string
    /** Block digest, supplied at construction (see Proof.Hasher). */
    const hash: Hasher

    /** The chain is never empty once constructed. */
    ghost predicate Valid()
      reads this
    {
      |chain| > 0
    }

    /** Every block after the first carries the digest of its predecessor. */
    ghost predicate Linked(blocks: seq<Block>)
    {
      forall i :: 0 < i < |blocks| ==> blocks[i].previousHash == hash(blocks[i - 1])
    }

    /** NewBlockchain: commits the genesis block, which links to the digest
        of the zero-valued block. */
    constructor (address: string, h: Hasher, now: int)
      ensures Valid() && Linked(chain)
      ensures chain == [Block(now, 0, h(EmptyBlock), [])]
      ensures transactionPool == []
      ensures blockchainAddress == address && hash == h
      ensures forall a :: ChainBalance(chain, a) == 0.0
    {
      blockchainAddress := address;
      hash := h;
      transactionPool := [];
      chain := [];
      new;
      var _ := CreateBlock(0, h(EmptyBlock), now);
      assert chain == [chain[0]];
      forall a ensures ChainBalance(chain, a) == 0.0 {
        EmptyBlocksBalance(chain, a);
      }
    }

    /** Commits the whole pool as a new block stamped `now` and empties the pool. */
    method CreateBlock(nonce: int, previousHash: Digest, now: int) returns (b: Block)
      modifies this
      ensures b == Block(now, nonce, previousHash, old(transactionPool))
      ensures chain == old(chain) + [b]
      ensures transactionPool == []
      ensures Valid()
      ensures Linked(chain) <==>
                Linked(old(chain)) && (old(chain) != [] ==> previousHash == hash(old(chain)[|old(chain)| - 1]))
    {
      b := Block(now, nonce, previousHash, transactionPool);
      chain := chain + [b];
      transactionPool := [];
      if Linked(old(chain)) && (old(chain) != [] ==> previousHash == hash(old(chain)[|old(chain)| - 1])) {
        forall i | 0 < i < |chain| ensures chain[i].previousHash == hash(chain[i - 1]) {
          if i < |old(chain)| {
            assert chain[i] == old(chain)[i] && chain[i - 1] == old(chain)[i - 1];
          }
        }
      }
      if Linked(chain) {
        forall i | 0 < i < |old(chain)| ensures old(chain)[i].previousHash == hash(old(chain)[i - 1]) {
          assert chain[i] == old(chain)[i] && chain[i - 1] == old(chain)[i - 1];
        }
        if old(chain) != [] {
          var n := |old(chain)|;
          assert chain[n] == b && chain[n - 1] == old(chain)[n - 1];
          assert b.previousHash == hash(chain[n - 1]);
        }
      }
    }

    /** The most recently committed block. */
    function LastBlock(): (b: Block)
      reads this
      requires Valid()
      ensures b == chain[|chain| - 1]
    {
      chain[|chain| - 1]
    }

    /** Appends the transaction `(sender, recipient, value)` to the pool. */
    method AddTransaction(sender: string, recipient: string, value: real)
      modifies this`transactionPool
      ensures transactionPool == old(transactionPool) + [Transaction(sender, recipient, value)]
    {
      var t := Transaction(sender, recipient, value);
      transactionPool := transactionPool + [t];
    }

    /** A copy of the pool, transaction by transaction; nothing changes. */
    method CopyTransactionPool() returns (transactions: seq<Transaction>)
      ensures |transactions| == |transactionPool|
      ensures forall i :: 0 <= i < |transactions| ==>
                transactions[i].sender == transactionPool[i].sender &&
                transactions[i].recipient == transactionPool[i].recipient &&
                transactions[i].value == transactionPool[i].value
    {
      transactions := [];
      for i := 0 to |transactionPool|
        invariant transactions == transactionPool[..i]
      {
        var t := transactionPool[i];
        transactions := transactions + [Transaction(t.sender, t.recipient, t.value)];
      }
    }

    /** Searches nonces 0, 1, 2, ... against the tip's digest and a copy of
        the pool until one passes ValidProof. */
    method ProofOfWork() returns (nonce: int)
      requires Valid()
      requires Mineable(hash, hash(LastBlock()), transactionPool)
      ensures 0 <= nonce
      ensures ValidProof(hash, nonce, hash(LastBlock()), transactionPool, MiningDifficulty)
      ensures forall k :: 0 <= k < nonce ==> !ValidProof(hash, k, hash(LastBlock()), transactionPool, MiningDifficulty)
    {
      var transactions := CopyTransactionPool();
      assert transactions == transactionPool;
      var previousHash := hash(LastBlock());
      ghost var bound :| 0 <= bound && ValidProof(hash, bound, previousHash, transactions, MiningDifficulty);
      nonce := 0;
      while !ValidProof(hash, nonce, previousHash, transactions, MiningDifficulty)
        invariant 0 <= nonce <= bound
        invariant forall k :: 0 <= k < nonce ==> !ValidProof(hash, k, previousHash, transactions, MiningDifficulty)
        decreases bound - nonce
      {
        assert nonce != bound;
        nonce := nonce + 1;
      }
    }

    /** Adds the reward for this chain's miner to the pool, finds the least
        valid nonce and commits the pool as a block linked to the tip. */
    method Mining(now: int) returns (ok: bool)
      requires Valid()
      requires Mineable(hash, hash(LastBlock()), transactionPool + [Reward(blockchainAddress)])
      modifies this
      ensures ok
      ensures Valid()
      ensures |chain| == |old(chain)| + 1 && chain[..|old(chain)|] == old(chain)
      ensures LastBlock().timestamp == now
      ensures LastBlock().previousHash == hash(old(LastBlock()))
      ensures LastBlock().transactions == old(transactionPool) + [Reward(blockchainAddress)]
      ensures LeastValidNonce(hash, LastBlock().nonce, LastBlock().previousHash, LastBlock().transactions)
      ensures transactionPool == []
      ensures Linked(old(chain)) ==> Linked(chain)
      ensures forall a :: ChainBalance(chain, a)
                == old(ChainBalance(chain, a)) + old(TxsBalance(transactionPool, a)) + Delta(Reward(blockchainAddress), a)
      ensures ChainBalance(chain, blockchainAddress)
                == old(ChainBalance(chain, blockchainAddress)) + old(TxsBalance(transactionPool, blockchainAddress))
                   + (if blockchainAddress == MiningSender then 0.0 else MiningReward)
    {
      ghost var pool := transactionPool;
      AddTransaction(MiningSender, blockchainAddress, MiningReward);
      var nonce := ProofOfWork();
      var previousHash := hash(LastBlock());
      var b := CreateBlock(nonce, previousHash, now);
      assert chain[..|old(chain)|] == old(chain);
      forall a ensures ChainBalance(chain, a) == old(ChainBalance(chain, a)) + TxsBalance(pool, a) + Delta(Reward(blockchainAddress), a) {
        ChainBalanceSnoc(old(chain), b, a);
        TxsBalanceAppend(pool, [Reward(blockchainAddress)], a);
        assert [Reward(blockchainAddress)][..0] == [];
      }
      MiningBalance(old(chain), b, pool, blockchainAddress);
      ok := true;
    }

    /** Net amount received minus sent by `address` over every
        committed transaction. */
    method CalculateTotalAmount(address: string) returns (totalAmount: real)
      ensures totalAmount == ChainBalance(chain, address)
    {
      totalAmount := 0.0;
      for i := 0 to |chain|
        invariant totalAmount == ChainBalance(chain[..i], address)
      {
        var transactions := chain[i].transactions;
        for j := 0 to |transactions|
          invariant totalAmount == ChainBalance(chain[..i], address) + TxsBalance(transactions[..j], address)
        {
          var t := transactions[j];
          assert transactions[..j + 1][..j] == transactions[..j];
          if address == t.recipient {
            totalAmount := totalAmount + t.value;
          }
          if address == t.sender {
            totalAmount := totalAmount - t.value;
          }
        }
        assert transactions[..|transactions|] == transactions;
        assert chain[..i + 1][..i] == chain[..i];
      }
      assert chain[..|chain|] == chain;
    }
  }
}
