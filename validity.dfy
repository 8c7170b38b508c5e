/**
 * Chain integrity: the structure the ledger maintains, the check `isValidChain`
 * performs as written, and the evidently intended scan of every block.
 */
module Validity {
  import opened Wrappers
  import opened Transactions
  import opened Blocks

  /** Genesis shape and hash links: what mining through the ledger builds. */
  predicate Linked(blocks: seq<BlockValue>) {
    && |blocks| >= 1
    && blocks[0].previousHash == GenesisPreviousHash
    && blocks[0].transactions == []
    && forall i :: 1 <= i < |blocks| ==> blocks[i].previousHash == blocks[i - 1].hash
  }

  /** Every block carries the hash that its constructor and `mine` leave in it. */
  predicate Sealed(blocks: seq<BlockValue>, digest: Digest) {
    forall i :: 0 <= i < |blocks| ==> blocks[i].hash == SealedHash(blocks[i], digest)
  }

  /** The two tests `isValidChain` applies to block `i`: its hash recomputes, and it links to block `i - 1`. */
  predicate BlockChecks(blocks: seq<BlockValue>, i: nat, digest: Digest)
    requires 1 <= i < |blocks|
  {
    blocks[i].hash == CalculatedHash(blocks[i], digest) && blocks[i].previousHash == blocks[i - 1].hash
  }

  /**
   * Every block from index 1 on passes both tests: the evidently intended scan, the
   * loop of `isValidChain` with its early `return true` moved after it. This is NOT
   * what `isValidChain` computes.
   */
  predicate FullyValid(blocks: seq<BlockValue>, digest: Digest) {
    forall i :: 1 <= i < |blocks| ==> BlockChecks(blocks, i, digest)
  }

  /**
   * What `isValidChain` returns as written: the loop body ends in `return true`,
   * so only block 1 is tested, and a chain without block 1 falls off the end
   * of the function (`undefined`, here `None`).
   */
  function CheckedAsWritten(blocks: seq<BlockValue>, digest: Digest): Option<bool> {
    if |blocks| < 2 then None else Some(BlockChecks(blocks, 1, digest))
  }

  /** A block whose stored hash recomputes: the nonce search ran, or the digest does not care. */
  predicate Recomputable(b: BlockValue, digest: Digest) {
    b.nonce > 0 || digest(b.previousHash, b.timestamp, b.transactions, None)
                == digest(b.previousHash, b.timestamp, b.transactions, Some(0))
  }

  /** The check as written is the full check of the first two blocks and ignores everything after. */
  lemma AsWrittenChecksOnlyFirstLink(blocks: seq<BlockValue>, rest: seq<BlockValue>, digest: Digest)
    requires |blocks| >= 2
    ensures CheckedAsWritten(blocks, digest) == Some(FullyValid(blocks[..2], digest))
    ensures CheckedAsWritten(blocks + rest, digest) == CheckedAsWritten(blocks, digest)
  {
    var first := blocks[..2];
    assert BlockChecks(blocks, 1, digest) == BlockChecks(first, 1, digest);
    assert (blocks + rest)[..2] == first;
  }

  /** The check as written agrees with the full check wherever it answers `false`, and on every fully valid chain. */
  lemma AsWrittenAgreesWhenFullyValid(blocks: seq<BlockValue>, digest: Digest)
    ensures CheckedAsWritten(blocks, digest) == Some(false) ==> !FullyValid(blocks, digest)
    ensures FullyValid(blocks, digest) && |blocks| >= 2 ==> CheckedAsWritten(blocks, digest) == Some(true)
  {
  }

  /**
   * Forging the contents of block `i` of a fully valid chain, keeping its stored hash,
   * breaks the full check whenever the digest notices the change; the check as
   * written catches it only at block 1.
   */
  lemma ForgeryDetectedOnlyAtBlockOne(blocks: seq<BlockValue>, i: nat, forged: BlockValue, digest: Digest)
    requires FullyValid(blocks, digest)
    requires 1 <= i < |blocks|
    requires forged.previousHash == blocks[i].previousHash && forged.hash == blocks[i].hash
    requires CalculatedHash(forged, digest) != CalculatedHash(blocks[i], digest)
    ensures !FullyValid(blocks[i := forged], digest)
    ensures CheckedAsWritten(blocks[i := forged], digest) == Some(i != 1)
  {
    var tampered := blocks[i := forged];
    assert BlockChecks(blocks, i, digest);
    assert !BlockChecks(tampered, i, digest);
    assert i != 1 ==> BlockChecks(blocks, 1, digest) && tampered[1] == blocks[1] && tampered[0] == blocks[0];
  }

  /**
   * A chain the ledger builds passes the full check exactly when every mined block's
   * stored hash recomputes, i.e. when no block kept the hash over an unset nonce
   * that differs from the hash over nonce 0.
   */
  lemma LedgerChainValidity(blocks: seq<BlockValue>, digest: Digest)
    requires Linked(blocks) && Sealed(blocks, digest)
    ensures FullyValid(blocks, digest) <==> forall i :: 1 <= i < |blocks| ==> Recomputable(blocks[i], digest)
  {
    forall i | 1 <= i < |blocks|
      ensures BlockChecks(blocks, i, digest) <==> Recomputable(blocks[i], digest)
    {
      assert blocks[i].hash == SealedHash(blocks[i], digest);
    }
  }
}
