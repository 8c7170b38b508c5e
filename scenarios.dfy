/**
 * Clients of the ledger that drive it through concrete runs, with digests chosen
 * so that the outcome of every nonce search is known.
 */
module Scenarios {
  import opened Wrappers
  import opened Transactions
  import opened Blocks
  import opened Balances
  import opened Ledger

  /** A digest whose every hash starts with ten zeros: every search succeeds at once. */
  function Zeroes(): Digest {
    (previousHash: string, timestamp: int, transactions: seq<Transaction>, nonce: Option<nat>) => "0000000000"
  }

  /** A digest that tells an unset nonce ("undefined") from every assigned one. */
  function UnsetNonceSensitive(): Digest {
    (previousHash: string, timestamp: int, transactions: seq<Transaction>, nonce: Option<nat>) =>
      if nonce.None? then "0" else "1"
  }

  /** Under `Zeroes`, the very first candidate meets any difficulty up to 10. */
  lemma ZeroesMinesAtOnce(previousHash: string, timestamp: int, transactions: seq<Transaction>, difficulty: nat, fuel: nat)
    requires difficulty <= 10
    ensures !SearchExhausted(previousHash, timestamp, transactions, Zeroes(), difficulty, fuel)
  {
    assert MeetsDifficulty(Candidate(previousHash, timestamp, transactions, 0, Zeroes()), difficulty);
  }

  /**
   * Under `UnsetNonceSensitive` at difficulty 1 the search stops at the unset nonce,
   * and the block it leaves does not recompute.
   */
  lemma UnsetNonceSensitiveStopsAtOnce(b: BlockValue, fuel: nat)
    ensures !SearchExhausted(b.previousHash, b.timestamp, b.transactions, UnsetNonceSensitive(), 1, fuel)
    ensures MinedBlock(b, UnsetNonceSensitive(), 1) ==> b.hash != CalculatedHash(b, UnsetNonceSensitive())
  {
    assert MeetsDifficulty(Candidate(b.previousHash, b.timestamp, b.transactions, 0, UnsetNonceSensitive()), 1);
    if MinedBlock(b, UnsetNonceSensitive(), 1) {
      assert b.nonce == 0;
    }
  }

  /** Queue a payment of 10 from "A" to "B", then mine three times for "R". */
  method PaymentThenThreeRounds() returns (ledger: Blockchain)
    ensures fresh(ledger) && ledger.Valid()
    ensures |ledger.chain| == 4 && ledger.View()[0].transactions == []
    ensures ledger.View()[1].transactions == [Transaction(Some("A"), "B", 10)]
    ensures ledger.View()[2].transactions == [Transaction(None, "R", 5)]
    ensures ledger.View()[3].transactions == [Transaction(None, "R", 5)]
    ensures ledger.pendingTransactions == [Transaction(None, "R", 5)]
  {
    ledger := new Blockchain(1, 0, Zeroes());
    var payment := Transaction(Some("A"), "B", 10);
    var reward := Transaction(None, "R", 5);
    ledger.CreateTransaction(payment);
    ZeroesMinesAtOnce(ledger.LastBlock().hash, 1, ledger.pendingTransactions, 1, 0);
    var mined := ledger.MinePendingTransactions("R", 1, 0);
    ghost var v1 := ledger.View();
    ZeroesMinesAtOnce(ledger.LastBlock().hash, 2, ledger.pendingTransactions, 1, 0);
    mined := ledger.MinePendingTransactions("R", 2, 0);
    ghost var v2 := ledger.View();
    assert v2[..2] == v1;
    ZeroesMinesAtOnce(ledger.LastBlock().hash, 3, ledger.pendingTransactions, 1, 0);
    mined := ledger.MinePendingTransactions("R", 3, 0);
    ghost var v3 := ledger.View();
    assert v3[..3] == v2;
    assert v3[1] == v2[1] == v1[1];
  }

  /**
   * After the payment and three rounds, "R" holds two rewards, not three: each
   * round's reward is queued after its block is sealed, so the third is still pending.
   */
  method PaymentThenThreeRewards() returns (a: int, b: int, r: int, pending: seq<Transaction>)
    ensures a == -10 && b == 10 && r == 10
    ensures pending == [Transaction(None, "R", 5)]
  {
    var ledger := PaymentThenThreeRounds();
    RewardRunBalances(ledger.View(), Transaction(Some("A"), "B", 10), Transaction(None, "R", 5));
    a := ledger.GetBalanceForAddress("A");
    b := ledger.GetBalanceForAddress("B");
    r := ledger.GetBalanceForAddress("R");
    pending := ledger.pendingTransactions;
  }

  /** What a one-transaction list pays to and takes from `address`. */
  lemma SingleFlows(tx: Transaction, address: Address)
    ensures Credit([tx], address) == (if tx.toAddress == address then tx.amount else 0)
    ensures Debit([tx], address) == (if tx.fromAddress == Some(address) then tx.amount else 0)
  {
    assert [tx][1..] == [];
  }

  /** The balances over a genesis block, a block paying A to B and two reward blocks. */
  lemma RewardRunBalances(v: seq<BlockValue>, payment: Transaction, reward: Transaction)
    requires |v| == 4 && v[0].transactions == []
    requires payment == Transaction(Some("A"), "B", 10) && reward == Transaction(None, "R", 5)
    requires v[1].transactions == [payment] && v[2].transactions == [reward] && v[3].transactions == [reward]
    ensures Balance(v, "A") == -10 && Balance(v, "B") == 10 && Balance(v, "R") == 10
  {
    assert "A"[0] != "B"[0] && "A"[0] != "R"[0] && "B"[0] != "R"[0];
    assert [] + [v[0]] == v[..1] && v[..1] + [v[1]] == v[..2];
    assert v[..2] + [v[2]] == v[..3] && v[..3] + [v[3]] == v;
    forall address: Address
      ensures Balance(v, address) == Credit([payment], address) - Debit([payment], address)
                                     + 2 * (Credit([reward], address) - Debit([reward], address))
    {
      BalanceAppend([], v[0], address);
      BalanceAppend(v[..1], v[1], address);
      BalanceAppend(v[..2], v[2], address);
      BalanceAppend(v[..3], v[3], address);
    }
    SingleFlows(payment, "A");
    SingleFlows(payment, "B");
    SingleFlows(payment, "R");
    SingleFlows(reward, "A");
    SingleFlows(reward, "B");
    SingleFlows(reward, "R");
  }

  /** Mine reward-only blocks for "R" until the chain has `length` entries. */
  method MineRewardsUntil(ledger: Blockchain, length: nat)
    requires ledger.Valid() && ledger.digest == Zeroes() && ledger.initialDifficulty == 1
    requires |ledger.chain| < length < 900
    modifies ledger
    ensures ledger.Valid() && ledger.digest == Zeroes() && ledger.initialDifficulty == 1
    ensures |ledger.chain| == length
    ensures ledger.pendingTransactions == [Transaction(None, "R", ledger.miningReward)]
  {
    while |ledger.chain| < length
      invariant ledger.Valid() && ledger.initialDifficulty == 1
      invariant old(|ledger.chain|) <= |ledger.chain| <= length
      invariant |ledger.chain| > old(|ledger.chain|) ==>
                  ledger.pendingTransactions == [Transaction(None, "R", ledger.miningReward)]
      decreases length - |ledger.chain|
    {
      ZeroesMinesAtOnce(ledger.LastBlock().hash, |ledger.chain|, ledger.pendingTransactions, ledger.difficulty, 0);
      var mined := ledger.MinePendingTransactions("R", |ledger.chain|, 0);
      assert mined;
    }
  }

  /**
   * Mine 100 blocks into a ledger of difficulty 1: the single adjustment comes with
   * the 99th mined block (chain length 100), and the reward queued by that round is
   * already the decremented one.
   */
  method HundredBlocks() returns (at99: nat, at100: nat, at101: nat, reward: int, rewardTx: seq<Transaction>)
    ensures at99 == 1 && at100 == 2 && at101 == 2 && reward == 4
    ensures rewardTx == [Transaction(None, "R", 4)]
  {
    var ledger := new Blockchain(1, 0, Zeroes());
    MineRewardsUntil(ledger, 99);
    at99 := ledger.difficulty;
    MineRewardsUntil(ledger, 100);
    at100 := ledger.difficulty;
    rewardTx := ledger.pendingTransactions;
    MineRewardsUntil(ledger, 101);
    at101 := ledger.difficulty;
    reward := ledger.miningReward;
  }

  /**
   * When the hash over the unset nonce already meets the difficulty, `mine` never
   * runs its loop and the block keeps a hash that `calculateHash()` does not
   * reproduce: the ledger's first mined block fails its own integrity check.
   */
  method FirstBlockFailsItsOwnCheck() returns (asWritten: Option<bool>, full: bool)
    ensures asWritten == Some(false) && !full
  {
    var ledger := new Blockchain(1, 0, UnsetNonceSensitive());
    var genesisHash := ledger.LastBlock().hash;
    UnsetNonceSensitiveStopsAtOnce(BlockValue(genesisHash, 1, [], 0, ""), 0);
    var mined := ledger.MinePendingTransactions("R", 1, 0);
    UnsetNonceSensitiveStopsAtOnce(ledger.View()[1], 0);
    asWritten := ledger.IsValidChain();
    full := ledger.IsValidChainFull();
  }
}
