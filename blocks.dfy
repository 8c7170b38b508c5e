/**
 * Blocks and proof-of-work (the `Block` class of pages/index.tsx): a batch of
 * transactions linked to its predecessor by hash and sealed by a nonce search.
 */
module Blocks {
  import opened Wrappers
  import opened Transactions

  /**
   * The block hash: SHA-256 of `previousHash ‖ timestamp ‖ JSON(transactions) ‖ nonce`.
   * The digest and the serialisation are foreign, so the model takes the whole
   * composition as a parameter. `None` stands for a nonce that has not been
   * assigned yet, which the template literal renders as "undefined".
   */
  type Digest = (string, int, seq<Transaction>, Option<nat>) -> string

  /** The `previousHash` of the genesis block. */
  const GenesisPreviousHash: string := "0"

  /** `Array(n + 1).join("0")`: a string of `n` zero characters. */
  function Zeros(n: nat): (z: string)
    ensures |z| == n
  {
    seq(n, _ => '0')
  }

  /** `s.substring(0, end)` for a non-negative `end`: clipped to the string's length. */
  function Substring(s: string, end: nat): string {
    if end <= |s| then s[..end] else s
  }

  /** The loop guard of `mine`, negated: the hash starts with `difficulty` zero characters. */
  predicate MeetsDifficulty(hash: string, difficulty: nat)
    ensures MeetsDifficulty(hash, difficulty) <==>
            difficulty <= |hash| && forall i :: 0 <= i < difficulty ==> hash[i] == '0'
  {
    var head := Substring(hash, difficulty);
    assert |head| < difficulty ==> head != Zeros(difficulty);
    head == Zeros(difficulty)
  }

  /** A snapshot of a block's fields. */
  datatype BlockValue = BlockValue(
    previousHash: string,
    timestamp: int,
    transactions: seq<Transaction>,
    nonce: nat,
    hash: string)

  /** `calculateHash()` evaluated on a snapshot: the digest of the fields with the current nonce. */
  function CalculatedHash(b: BlockValue, digest: Digest): string {
    digest(b.previousHash, b.timestamp, b.transactions, Some(b.nonce))
  }

  /**
   * The `n`-th hash the nonce search looks at: first the hash the constructor
   * computed over the unset nonce, then the hashes over nonces 1, 2, ...
   */
  function Candidate(previousHash: string, timestamp: int, transactions: seq<Transaction>, n: nat, digest: Digest): string {
    digest(previousHash, timestamp, transactions, if n == 0 then None else Some(n))
  }

  /**
   * The hash a block built by the constructor and `mine` carries: the hash over an
   * unassigned nonce when the nonce search never ran (nonce still 0), and the hash
   * over the final nonce otherwise.
   */
  function SealedHash(b: BlockValue, digest: Digest): string {
    Candidate(b.previousHash, b.timestamp, b.transactions, b.nonce, digest)
  }

  /** `b` is where a search from a fresh block stops: at the first candidate meeting `difficulty`. */
  predicate MinedBlock(b: BlockValue, digest: Digest, difficulty: nat) {
    && b.hash == SealedHash(b, digest)
    && MeetsDifficulty(b.hash, difficulty)
    && forall n :: 0 <= n < b.nonce ==>
         !MeetsDifficulty(Candidate(b.previousHash, b.timestamp, b.transactions, n, digest), difficulty)
  }

  /** None of the first `fuel + 1` candidates meets `difficulty`. */
  predicate SearchExhausted(previousHash: string, timestamp: int, transactions: seq<Transaction>,
                            digest: Digest, difficulty: nat, fuel: nat) {
    forall n :: 0 <= n <= fuel ==>
      !MeetsDifficulty(Candidate(previousHash, timestamp, transactions, n, digest), difficulty)
  }

  class Block {
    var previousHash: string
    var timestamp: int
    var transactions: seq<Transaction>
    var hash: string
    var nonce: nat

    /** The block's fields as a value. */
    function Value(): BlockValue
      reads this
    {
      BlockValue(previousHash, timestamp, transactions, nonce, hash)
    }

    /**
     * The constructor computes `hash` before it assigns `nonce`, so the stored hash
     * is the digest over an undefined nonce, not `calculateHash()`.
     */
    constructor (previousHash: string, timestamp: int, transactions: seq<Transaction>, digest: Digest)
      ensures Value() == BlockValue(previousHash, timestamp, transactions, 0,
                                    digest(previousHash, timestamp, transactions, None))
      ensures hash == SealedHash(Value(), digest)
    {
      this.previousHash := previousHash;
      this.timestamp := timestamp;
      this.transactions := transactions;
      this.hash := digest(previousHash, timestamp, transactions, None);
      this.nonce := 0;
    }

    /**
     * `calculateHash()`: the digest of the fields with the current nonce. Once the
     * nonce has moved past 0 it is the hash `mine` stores; at nonce 0 it agrees with
     * the constructor's hash only when the digest cannot tell the unset nonce from 0.
     */
    function CalculateHash(digest: Digest): (h: string)
      reads this
      ensures nonce > 0 ==> h == SealedHash(Value(), digest)
      ensures nonce == 0 ==>
                (h == SealedHash(Value(), digest) <==>
                 digest(previousHash, timestamp, transactions, Some(0)) == digest(previousHash, timestamp, transactions, None))
    {
      CalculatedHash(Value(), digest)
    }

    /**
     * `mine(difficulty)`: bump the nonce and rehash until the hash starts with
     * `difficulty` zeros. The search gives up after `fuel` rehashes and then
     * reports `false`; only `nonce` and `hash` change.
     */
    method Mine(digest: Digest, difficulty: nat, fuel: nat) returns (mined: bool)
      modifies this`nonce, this`hash
      ensures mined <==> MeetsDifficulty(hash, difficulty)
      ensures old(nonce) <= nonce <= old(nonce) + fuel
      ensures !mined ==> nonce == old(nonce) + fuel
      ensures nonce == old(nonce) ==> hash == old(hash)
      ensures nonce > old(nonce) ==> hash == CalculateHash(digest) && !MeetsDifficulty(old(hash), difficulty)
      ensures forall n :: old(nonce) < n < nonce ==> !MeetsDifficulty(digest(previousHash, timestamp, transactions, Some(n)), difficulty)
    {
      mined := MeetsDifficulty(hash, difficulty);
      var tries := 0;
      while !mined && tries < fuel
        invariant 0 <= tries <= fuel
        invariant nonce == old(nonce) + tries
        invariant mined <==> MeetsDifficulty(hash, difficulty)
        invariant tries == 0 ==> hash == old(hash)
        invariant tries > 0 ==> hash == CalculateHash(digest) && !MeetsDifficulty(old(hash), difficulty)
        invariant forall n :: old(nonce) < n < nonce ==> !MeetsDifficulty(digest(previousHash, timestamp, transactions, Some(n)), difficulty)
      {
        nonce := nonce + 1;
        hash := CalculateHash(digest);
        tries := tries + 1;
        mined := MeetsDifficulty(hash, difficulty);
      }
    }
  }
}
