/**
 * The ledger (the `Blockchain` class of pages/index.tsx): the chain of blocks, the
 * pending pool, and the difficulty and reward that change every 100 chain entries.
 */
module Ledger {
  import opened Wrappers
  import opened Transactions
  import opened Blocks
  import opened Balances
  import opened Validity

  /** The reward a fresh ledger pays for a mined block. */
  const InitialReward: int := 5

  /** Difficulty and reward change whenever the chain's length reaches a multiple of this. */
  const AdjustmentInterval: nat := 100

  /** The difficulty in force while the chain has `length` entries. */
  function DifficultyAt(initialDifficulty: nat, length: nat): nat {
    initialDifficulty + length / AdjustmentInterval
  }

  /**
   * The chain part of the ledger invariant: it starts at the genesis block and is
   * hash-linked, every block carries the hash its constructor and `mine` left in it,
   * and block `i` met the difficulty in force while the chain had `i` entries.
   */
  predicate ChainInvariant(blocks: seq<BlockValue>, digest: Digest, initialDifficulty: nat) {
    && Linked(blocks)
    && Sealed(blocks, digest)
    && forall i :: 1 <= i < |blocks| ==> MeetsDifficulty(blocks[i].hash, DifficultyAt(initialDifficulty, i))
  }

  /** Appending a block mined on the last hash at the current difficulty keeps the chain invariant. */
  lemma AppendKeepsChainInvariant(blocks: seq<BlockValue>, b: BlockValue, digest: Digest, initialDifficulty: nat)
    requires ChainInvariant(blocks, digest, initialDifficulty)
    requires b.previousHash == blocks[|blocks| - 1].hash
    requires b.hash == SealedHash(b, digest)
    requires MeetsDifficulty(b.hash, DifficultyAt(initialDifficulty, |blocks|))
    ensures ChainInvariant(blocks + [b], digest, initialDifficulty)
  {
    var grown := blocks + [b];
    assert grown[0] == blocks[0];
    forall i | 1 <= i < |grown|
      ensures grown[i].previousHash == grown[i - 1].hash
      ensures MeetsDifficulty(grown[i].hash, DifficultyAt(initialDifficulty, i))
    {
      if i < |blocks| {
        assert grown[i] == blocks[i] && grown[i - 1] == blocks[i - 1];
      }
    }
    forall i | 0 <= i < |grown|
      ensures grown[i].hash == SealedHash(grown[i], digest)
    {
      if i < |blocks| {
        assert grown[i] == blocks[i];
      }
    }
  }

  /** The snapshots of a sequence of blocks, in order. */
  function ViewOf(blocks: seq<Block>): (r: seq<BlockValue>)
    reads blocks
    ensures |r| == |blocks|
    ensures forall i :: 0 <= i < |blocks| ==> r[i] == blocks[i].Value()
  {
    seq(|blocks|, i requires 0 <= i < |blocks| reads blocks => blocks[i].Value())
  }

  class Blockchain {
    var chain: seq<Block>
    var difficulty: nat
    var pendingTransactions: seq<Transaction>
    var miningReward: int
    const changeDifficultyOnMultiple: nat := AdjustmentInterval
    /** The hash function every block of this ledger is sealed with. */
    const digest: Digest
    /** The difficulty the ledger was created with. */
    ghost const initialDifficulty: nat

    /** The chain's blocks as values. */
    function View(): seq<BlockValue>
      reads this`chain, chain
    {
      ViewOf(chain)
    }

    /**
     * The ledger invariant: the chain invariant, and difficulty and reward adjusted
     * once per multiple of 100 in the chain's length.
     */
    ghost predicate Valid()
      reads this, chain
    {
      && ChainInvariant(View(), digest, initialDifficulty)
      && difficulty == DifficultyAt(initialDifficulty, |chain|)
      && miningReward == InitialReward - |chain| / AdjustmentInterval
    }

    /** `createGenesisBlock`: a block over no transactions, linked to "0", never mined. */
    static method CreateGenesisBlock(genesisTimestamp: int, digest: Digest) returns (genesis: Block)
      ensures fresh(genesis)
      ensures genesis.Value() == BlockValue(GenesisPreviousHash, genesisTimestamp, [], 0,
                                            digest(GenesisPreviousHash, genesisTimestamp, [], None))
    {
      genesis := new Block(GenesisPreviousHash, genesisTimestamp, [], digest);
    }

    /** A fresh ledger: the genesis block alone, an empty pool and a reward of 5. */
    constructor (difficulty: nat, genesisTimestamp: int, digest: Digest)
      ensures Valid()
      ensures View() == [BlockValue(GenesisPreviousHash, genesisTimestamp, [], 0,
                                    digest(GenesisPreviousHash, genesisTimestamp, [], None))]
      ensures this.difficulty == difficulty && initialDifficulty == difficulty
      ensures pendingTransactions == [] && miningReward == InitialReward
      ensures this.digest == digest
      ensures forall address :: Balance(View(), address) == 0
    {
      var genesis := CreateGenesisBlock(genesisTimestamp, digest);
      chain := [genesis];
      this.difficulty := difficulty;
      pendingTransactions := [];
      miningReward := InitialReward;
      this.digest := digest;
      initialDifficulty := difficulty;
      new;
      forall address | true
        ensures Balance(View(), address) == 0
      {
        BalanceAppend([], View()[0], address);
        assert [] + [View()[0]] == View();
      }
    }

    /** `lastBlock`. */
    function LastBlock(): Block
      reads this
      requires |chain| > 0
    {
      chain[|chain| - 1]
    }

    /**
     * `handleDifficultyChange`: one more leading zero, one less reward; the reward has
     * no floor. On its own it breaks `Valid()`, which ties both fields to the chain
     * length; it is sound only as the step inside `PushMinedBlock` that follows a push
     * reaching a multiple of 100.
     */
    method HandleDifficultyChange()
      modifies this`difficulty, this`miningReward
      ensures difficulty == old(difficulty) + 1
      ensures miningReward == old(miningReward) - 1
    {
      difficulty := difficulty + 1;
      miningReward := miningReward - 1;
    }

    /** `createTransaction`: queue `transaction` at the end of the pool; the chain is untouched. */
    method CreateTransaction(transaction: Transaction)
      requires Valid()
      modifies this`pendingTransactions
      ensures Valid()
      ensures pendingTransactions == old(pendingTransactions) + [transaction]
      ensures chain == old(chain) && View() == old(View())
      ensures difficulty == old(difficulty) && miningReward == old(miningReward)
      ensures forall address :: Balance(View(), address) == old(Balance(View(), address))
    {
      pendingTransactions := pendingTransactions + [transaction];
    }

    /**
     * `minePendingTransactions`: seal the whole pool into a block linked to the last
     * one, mine it at the current difficulty, append it, adjust difficulty and reward
     * when the new length is a multiple of 100, and refill the pool with one reward
     * transaction at the (possibly adjusted) reward. `timestamp` stands for
     * `Date.now()`; when the nonce search gives up after `fuel` rehashes, nothing
     * changes and `mined` is false.
     */
    method MinePendingTransactions(miningRewardAddress: Address, timestamp: int, fuel: nat) returns (mined: bool)
      requires Valid()
      modifies this
      ensures Valid()
      ensures !mined ==>
                && chain == old(chain) && View() == old(View())
                && pendingTransactions == old(pendingTransactions)
                && difficulty == old(difficulty) && miningReward == old(miningReward)
      ensures !mined ==> SearchExhausted(old(LastBlock().hash), timestamp, old(pendingTransactions),
                                         digest, old(difficulty), fuel)
      ensures mined ==> |chain| == old(|chain|) + 1 && chain[..old(|chain|)] == old(chain)
      ensures mined ==> View()[..old(|chain|)] == old(View())
      ensures mined ==>
                var b := View()[|chain| - 1];
                && b.previousHash == old(View()[|chain| - 1].hash)
                && b.timestamp == timestamp
                && b.transactions == old(pendingTransactions)
                && MinedBlock(b, digest, old(difficulty))
      ensures mined ==>
                if |chain| % changeDifficultyOnMultiple == 0
                then difficulty == old(difficulty) + 1 && miningReward == old(miningReward) - 1
                else difficulty == old(difficulty) && miningReward == old(miningReward)
      ensures mined ==> pendingTransactions == [Transaction(None, miningRewardAddress, miningReward)]
      ensures mined ==> forall address ::
                (Balance(View(), address) == old(Balance(View(), address))
                   + Credit(old(pendingTransactions), address) - Debit(old(pendingTransactions), address))
    {
      var block := MineCandidate(LastBlock().hash, timestamp, pendingTransactions, digest, difficulty, fuel);
      mined := MeetsDifficulty(block.hash, difficulty);
      if mined {
        PushMinedBlock(block, miningRewardAddress);
      }
    }

    /**
     * The head of `minePendingTransactions`: build a block over the given transactions
     * on top of `previousHash` and run the proof-of-work search on it.
     */
    static method MineCandidate(previousHash: string, timestamp: int, transactions: seq<Transaction>,
                                digest: Digest, difficulty: nat, fuel: nat) returns (block: Block)
      ensures fresh(block)
      ensures block.previousHash == previousHash && block.timestamp == timestamp
      ensures block.transactions == transactions
      ensures MeetsDifficulty(block.hash, difficulty) ==> MinedBlock(block.Value(), digest, difficulty)
      ensures !MeetsDifficulty(block.hash, difficulty) ==>
                SearchExhausted(previousHash, timestamp, transactions, digest, difficulty, fuel)
    {
      block := new Block(previousHash, timestamp, transactions, digest);
      var mined := block.Mine(digest, difficulty, fuel);
      if mined {
        assert MinedBlock(block.Value(), digest, difficulty) by {
          assert block.nonce > 0 ==> !MeetsDifficulty(Candidate(previousHash, timestamp, transactions, 0, digest), difficulty);
        }
      } else {
        assert block.nonce == fuel;
        assert SearchExhausted(previousHash, timestamp, transactions, digest, difficulty, fuel) by {
          assert fuel > 0 ==> !MeetsDifficulty(Candidate(previousHash, timestamp, transactions, 0, digest), difficulty);
        }
      }
    }

    /**
     * The tail of `minePendingTransactions`: push the mined block, adjust difficulty
     * and reward when the new length is a multiple of 100, then refill the pool with
     * one reward transaction at the (possibly adjusted) reward.
     */
    method PushMinedBlock(block: Block, miningRewardAddress: Address)
      requires Valid()
      requires block.previousHash == View()[|chain| - 1].hash
      requires MinedBlock(block.Value(), digest, difficulty)
      modifies this
      ensures Valid()
      ensures chain == old(chain) + [block]
      ensures View() == old(View()) + [block.Value()]
      ensures if |chain| % changeDifficultyOnMultiple == 0
              then difficulty == old(difficulty) + 1 && miningReward == old(miningReward) - 1
              else difficulty == old(difficulty) && miningReward == old(miningReward)
      ensures pendingTransactions == [Transaction(None, miningRewardAddress, miningReward)]
      ensures forall address ::
                (Balance(View(), address) == old(Balance(View(), address))
                   + Credit(block.transactions, address) - Debit(block.transactions, address))
    {
      ghost var before := View();
      AppendKeepsChainInvariant(before, block.Value(), digest, initialDifficulty);
      chain := chain + [block];
      assert View() == before + [block.Value()];
      CadenceStep(|before|);
      if |chain| % changeDifficultyOnMultiple == 0 {
        HandleDifficultyChange();
      }
      pendingTransactions := [Transaction(None, miningRewardAddress, miningReward)];
      forall address | true
        ensures Balance(View(), address) == Balance(before, address)
                  + Credit(block.transactions, address) - Debit(block.transactions, address)
      {
        BalanceAppend(before, block.Value(), address);
      }
    }

    /** `getBalanceForAddress`: replay every mined transaction, debiting then crediting `address`. */
    method GetBalanceForAddress(address: Address) returns (balance: int)
      ensures balance == Balance(View(), address)
    {
      balance := 0;
      var i := 0;
      while i < |chain|
        invariant 0 <= i <= |chain|
        invariant balance == Balance(View()[..i], address)
      {
        var transactions := chain[i].transactions;
        var j := 0;
        while j < |transactions|
          invariant 0 <= j <= |transactions|
          invariant balance == ApplyAll(Balance(View()[..i], address), transactions[..j], address)
        {
          var transaction := transactions[j];
          if transaction.fromAddress == Some(address) {
            balance := balance - transaction.amount;
          }
          if transaction.toAddress == address {
            balance := balance + transaction.amount;
          }
          ApplyAllSnoc(Balance(View()[..i], address), transactions[..j], transaction, address);
          assert transactions[..j + 1] == transactions[..j] + [transaction];
          j := j + 1;
        }
        ApplyBlocksSnoc(0, View()[..i], View()[i], address);
        assert View()[..i + 1] == View()[..i] + [View()[i]];
        assert transactions[..j] == transactions;
        i := i + 1;
      }
      assert View()[..i] == View();
    }

    /**
     * `isValidChain` as written: the loop returns after testing block 1, and a
     * genesis-only chain reaches the end of the function (`undefined`, here `None`).
     */
    method IsValidChain() returns (valid: Option<bool>)
      ensures valid == CheckedAsWritten(View(), digest)
    {
      if |chain| == 0 {
        return None;
      }
      for index := 1 to |chain| {
        var currentBlock := chain[index];
        var previousBlock := chain[index - 1];
        if currentBlock.hash != currentBlock.CalculateHash(digest) {
          return Some(false);
        }
        if currentBlock.previousHash != previousBlock.hash {
          return Some(false);
        }
        return Some(true);
      }
      return None;
    }

    /**
     * The evidently intended scan of every block: the loop of `isValidChain` with its
     * early `return true` moved after it. This is NOT what `isValidChain` computes;
     * see `IsValidChain`.
     */
    method IsValidChainFull() returns (valid: bool)
      ensures valid == FullyValid(View(), digest)
    {
      var index := 1;
      while index < |chain|
        invariant 1 <= index
        invariant forall k :: 1 <= k < index && k < |chain| ==> BlockChecks(View(), k, digest)
      {
        var currentBlock := chain[index];
        var previousBlock := chain[index - 1];
        assert View()[index] == currentBlock.Value() && View()[index - 1] == previousBlock.Value();
        if currentBlock.hash != currentBlock.CalculateHash(digest) {
          assert !BlockChecks(View(), index, digest);
          return false;
        }
        if currentBlock.previousHash != previousBlock.hash {
          assert !BlockChecks(View(), index, digest);
          return false;
        }
        index := index + 1;
      }
      return true;
    }
  }

  /** The length-driven cadence: one more chain entry adds one adjustment exactly at a multiple of 100. */
  lemma CadenceStep(n: nat)
    ensures (n + 1) / AdjustmentInterval
         == n / AdjustmentInterval + (if (n + 1) % AdjustmentInterval == 0 then 1 else 0)
  {
  }
}
