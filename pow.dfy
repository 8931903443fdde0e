/** The proof-of-work predicate: a candidate block with the placeholder
    timestamp 0 is accepted when the hex text of its digest starts with
    `difficulty` zeros. */
module Proof {
  import opened Ledger
  import opened HexEncoding

  /** The block digest (SHA-256 over the block's JSON encoding); a foreign
      computation, so it is a parameter. */
  type Hasher = Block -> Digest

  /** Whether the block `(timestamp 0, nonce, previousHash, transactions)`
      has a digest whose hex text starts with `difficulty` zeros. */
  function ValidProof(hash: Hasher, nonce: int, previousHash: Digest, transactions: seq<Transaction>, difficulty: int): bool
    requires 0 <= difficulty <= 64
  {
    var zeros := Repeat('0', difficulty);
    var guessHash := hash(Block(0, nonce, previousHash, transactions));
    Hex(guessHash)[..difficulty] == zeros
  }

  /** A proof is valid exactly when the first `difficulty` nibbles of the
      candidate's digest are zero. */
  lemma ValidProofNibbles(hash: Hasher, nonce: int, previousHash: Digest, transactions: seq<Transaction>, difficulty: int)
    requires 0 <= difficulty <= 64
    ensures ValidProof(hash, nonce, previousHash, transactions, difficulty) <==>
              forall i :: 0 <= i < difficulty ==> Nibble(hash(Block(0, nonce, previousHash, transactions)), i) == 0
  {
    HexZeroPrefix(hash(Block(0, nonce, previousHash, transactions)), difficulty);
  }

  /** At the mining difficulty, a proof is valid exactly when the digest
      starts with a zero byte followed by a byte below 16. */
  lemma ValidProofAtMiningDifficulty(hash: Hasher, nonce: int, previousHash: Digest, transactions: seq<Transaction>)
    ensures ValidProof(hash, nonce, previousHash, transactions, MiningDifficulty) <==>
              var d := hash(Block(0, nonce, previousHash, transactions));
              d[0] == 0 && d[1] < 16
  {
    ValidProofNibbles(hash, nonce, previousHash, transactions, MiningDifficulty);
    ThreeZeroNibbles(hash(Block(0, nonce, previousHash, transactions)));
  }

  /** The first three nibbles of a digest are zero exactly when its first
      byte is 0 and its second byte is below 16. */
  lemma ThreeZeroNibbles(d: Digest)
    ensures (forall i :: 0 <= i < 3 ==> Nibble(d, i) == 0) <==> d[0] == 0 && d[1] < 16
  {
    assert (forall i :: 0 <= i < 3 ==> Nibble(d, i) == 0) <==>
             Nibble(d, 0) == 0 && Nibble(d, 1) == 0 && Nibble(d, 2) == 0;
    LeadingByteNibbles(d[0]);
    assert Nibble(d, 2) == d[1] as nat / 16;
    assert d[1] < 16 <==> d[1] as nat < 16;
  }

  /** A byte is zero exactly when both of its nibbles are. */
  lemma LeadingByteNibbles(b: bv8)
    ensures b == 0 <==> b as nat / 16 == 0 && b as nat % 16 == 0
  {
    var x := b as nat;
    assert b == 0 <==> x == 0;
  }

  /** `nonce` is the least non-negative nonce that passes ValidProof at the
      mining difficulty. */
  ghost predicate LeastValidNonce(hash: Hasher, nonce: int, previousHash: Digest, transactions: seq<Transaction>)
  {
    0 <= nonce &&
    ValidProof(hash, nonce, previousHash, transactions, MiningDifficulty) &&
    forall k :: 0 <= k < nonce ==> !ValidProof(hash, k, previousHash, transactions, MiningDifficulty)
  }

  /** Some non-negative nonce passes ValidProof at the mining difficulty: the
      condition under which the nonce search ends. */
  ghost predicate Mineable(hash: Hasher, previousHash: Digest, transactions: seq<Transaction>)
  {
    exists n :: 0 <= n && ValidProof(hash, n, previousHash, transactions, MiningDifficulty)
  }
}
