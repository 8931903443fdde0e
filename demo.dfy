/** A client of the ledger: the demonstration sequence of the program's entry
    point, with the balances it ends up reporting derived from the contracts
    alone. */
module Demo {
  import opened Ledger
  import opened Proof
  import opened Chain

  /** The transfers pooled before the demonstration's first mining round. */
  const FirstTransfers: seq<Transaction> := [Transaction("Dika", "Bejo", 1.0)]
  /** The transfers pooled before the demonstration's second mining round. */
  const SecondTransfers: seq<Transaction> :=
    [Transaction("Batman", "Superman", 2.0), Transaction("Tukimin", "Tukiplus", 3.0)]

  /** What the two rounds (transfers then the reward for "my_address") do to
      the three balances the program reports. */
  lemma DemoRoundBalances()
    ensures TxsBalance(FirstTransfers, "my_address") + Delta(Reward("my_address"), "my_address")
          + TxsBalance(SecondTransfers, "my_address") + Delta(Reward("my_address"), "my_address") == 2.0
    ensures TxsBalance(FirstTransfers, "Batman") + Delta(Reward("my_address"), "Batman")
          + TxsBalance(SecondTransfers, "Batman") + Delta(Reward("my_address"), "Batman") == -2.0
    ensures TxsBalance(FirstTransfers, "Superman") + Delta(Reward("my_address"), "Superman")
          + TxsBalance(SecondTransfers, "Superman") + Delta(Reward("my_address"), "Superman") == 2.0
  {
    var t1, t2, t3 := FirstTransfers[0], SecondTransfers[0], SecondTransfers[1];
    forall a ensures TxsBalance(FirstTransfers, a) == Delta(t1, a)
                  && TxsBalance(SecondTransfers, a) == Delta(t2, a) + Delta(t3, a) {
      TxsBalanceSnoc([], t1, a);
      assert [] + [t1] == FirstTransfers;
      TxsBalanceSnoc([], t2, a);
      TxsBalanceSnoc([t2], t3, a);
      assert [] + [t2] == [t2] && [t2] + [t3] == SecondTransfers;
    }
  }

  /** Genesis for "my_address", one transfer Dika -> Bejo of 1.0 and a
      mining round, then Batman -> Superman 2.0 and Tukimin -> Tukiplus 3.0
      and a second round: the miner holds both rewards, Batman is down 2.0
      and Superman up 2.0. */
  method MiningDemo(hash: Hasher, t0: int, t1: int, t2: int) returns (mine: real, batman: real, superman: real)
    // the first round's nonce search ends
    requires Mineable(hash, hash(Block(t0, 0, hash(EmptyBlock), [])), FirstTransfers + [Reward("my_address")])
    // the second round's search ends, on top of the block the first round commits
    requires forall n :: LeastValidNonce(hash, n, hash(Block(t0, 0, hash(EmptyBlock), [])), FirstTransfers + [Reward("my_address")]) ==>
               Mineable(hash, hash(Block(t1, n, hash(Block(t0, 0, hash(EmptyBlock), [])), FirstTransfers + [Reward("my_address")])), SecondTransfers + [Reward("my_address")])
    ensures mine == 2.0 && batman == -2.0 && superman == 2.0
  {
    var bc := new Blockchain("my_address", hash, t0);
    ghost var genesis := Block(t0, 0, hash(EmptyBlock), []);
    bc.AddTransaction("Dika", "Bejo", 1.0);
    assert bc.transactionPool == FirstTransfers;
    var ok := bc.Mining(t1);
    ghost var n := bc.LastBlock().nonce;
    assert LeastValidNonce(hash, n, hash(genesis), FirstTransfers + [Reward("my_address")]);
    bc.AddTransaction("Batman", "Superman", 2.0);
    bc.AddTransaction("Tukimin", "Tukiplus", 3.0);
    assert bc.transactionPool == SecondTransfers;
    ok := bc.Mining(t2);
    DemoRoundBalances();
    mine := bc.CalculateTotalAmount("my_address");
    batman := bc.CalculateTotalAmount("Batman");
    superman := bc.CalculateTotalAmount("Superman");
  }
}
