# A verified model of the proof-of-work ledger in `pages/index.tsx`

The application keeps an in-memory blockchain with three classes:

- a `Transaction` moves an amount from a sender to a recipient; a mining reward has no sender;
- a `Block` hashes its previous hash, timestamp, transactions and nonce, and `mine` raises the nonce until the hash starts with `difficulty` zeros;
- a `Blockchain` starts from a genesis block and queues transactions. `minePendingTransactions` seals the pool into a new block, appends it, and queues a reward for the miner. Every time the chain length reaches a multiple of 100, difficulty goes up by one and the reward goes down by one. `getBalanceForAddress` folds over every block's transactions, and `isValidChain` checks the hashes and the links between blocks.

The model keeps that structure:

- `Blocks.Block` and `Ledger.Blockchain` are classes whose methods update their fields in place.
- A transaction is a value (`Transactions.Transaction`).
- The specification works on a value snapshot of the chain: `Blockchain.View()`, a sequence of `Blocks.BlockValue`.
- Balances are defined twice: once as the source's fold (`ApplyAll`, `ApplyBlocks`) and once as reference sums (`Credit`/`Debit`, `Received`/`Sent`). Lemmas prove the two agree.
- `Blockchain.Valid()` is the invariant the ledger keeps. The chain is hash-linked from a genesis block with previous hash `"0"` and no transactions. Every block carries the hash its constructor and `mine` left in it. Block `i` meets difficulty `d0 + i / 100`. The current difficulty is `d0 + |chain| / 100` and the reward is `5 - |chain| / 100`.

SHA-256 over `previousHash ‖ timestamp ‖ JSON(transactions) ‖ nonce` is a parameter `digest` of the model. Its last argument is `None` for the nonce the constructor has not assigned yet (it prints as `undefined`) and `Some(n)` otherwise. `Date.now()` becomes a `timestamp` argument.

## Model

| member | source | states |
|---|---|---|
| Transactions.ApplyAllIsNetFlow | pages/index.tsx:103-111 | the per-block `forEach` leaves the balance raised by everything paid to the address and lowered by everything paid from it |
| Transactions.SelfTransfersNetZero | pages/index.tsx:104-110 | because the sender is debited and then the recipient credited, a self-transfer changes no balance: dropping all of them gives the same fold |
| Blocks.MeetsDifficulty | pages/index.tsx:142-144 | `hash.substring(0, difficulty) !== Array(difficulty + 1).join("0")` is false exactly when the hash has at least `difficulty` characters and the first `difficulty` are all `'0'` |
| Blocks.Block.constructor | pages/index.tsx:125-131 | the fields are the arguments, the nonce is 0, and the stored hash is the digest over the unset nonce, not over nonce 0 |
| Blocks.Block.CalculateHash | pages/index.tsx:133-139 | the digest of previous hash, timestamp, transactions and the current (set) nonce. Once the nonce is past 0 it equals the hash `mine` stores. At nonce 0 it equals the constructor's hash exactly when the digest gives the same hash for the unset nonce and for 0 |
| Blocks.Block.Mine | pages/index.tsx:141-147 | the block comes out mined exactly when its hash meets the difficulty. If it was already mined, nothing changes. Otherwise the nonce rises, the hash is `calculateHash()` at the new nonce, and no nonce skipped on the way met the difficulty. The nonce never rises past `fuel` rehashes |
| Balances.BalanceIsNetFlow | pages/index.tsx:101-115 | the `reduce` over the chain equals everything received minus everything sent, summed over all blocks |
| Balances.BalanceAppend | pages/index.tsx:102-114 | appending a block changes every balance by exactly that block's credits minus its debits |
| Balances.TransferMovesAmount | pages/index.tsx:104-110 | a block holding one transfer between two different wallets lowers the payer's balance by the amount, raises the payee's by it, and leaves every other wallet alone |
| Validity.AsWrittenChecksOnlyFirstLink | pages/index.tsx:54-69 | the loop returns inside its first iteration, so `isValidChain` answers the full check of blocks 0 and 1 and ignores every later block |
| Validity.AsWrittenAgreesWhenFullyValid | pages/index.tsx:54-69 | the check as written answers `true` on every fully valid chain of two or more blocks, and its `false` is never wrong |
| Validity.ForgeryDetectedOnlyAtBlockOne | pages/index.tsx:54-69 | altering the contents of block `i` while keeping its hash breaks full validity, but the check as written reports it only when `i == 1` |
| Validity.LedgerChainValidity | pages/index.tsx:59-65 | on a chain the ledger builds, every hash and link check passes exactly when every mined block's stored hash recomputes with `calculateHash()` |
| Ledger.AppendKeepsChainInvariant | pages/index.tsx:76-86 | a block linked to the last hash, sealed by the constructor and `mine`, and meeting the difficulty for its position keeps the ledger invariant when appended |
| Ledger.CadenceStep | pages/index.tsx:88-90 | the number of adjustments grows by one exactly when the new chain length is a multiple of 100 |
| Ledger.Blockchain.CreateGenesisBlock | pages/index.tsx:46-52 | the genesis block has previous hash `"0"`, no transactions, the given timestamp and nonce 0 |
| Ledger.Blockchain.constructor | pages/index.tsx:28-34 | the chain is the genesis block alone, the difficulty is the argument, the pool is empty, the reward is 5, the adjustment interval is 100, every balance is 0, and the invariant holds |
| Ledger.Blockchain.HandleDifficultyChange | pages/index.tsx:40-44 | difficulty rises by one and the reward falls by one |
| Ledger.Blockchain.CreateTransaction | pages/index.tsx:71-73 | the transaction is appended to the pool; the chain, difficulty, reward and every balance are unchanged; the invariant is kept |
| Ledger.Blockchain.MinePendingTransactions | pages/index.tsx:75-99 | if a block is mined, the chain grows by exactly that block. The block links to the old last hash, carries the whole old pool, and is sealed with the smallest nonce that meets the old difficulty. Difficulty and reward move exactly when the new length is a multiple of 100. The pool becomes one reward at the new reward. Every balance changes by the old pool's net flow, and the invariant is kept. If no block is mined, the search was exhausted and nothing changed |
| Ledger.Blockchain.MineCandidate | pages/index.tsx:76-82 | the new block is built over the given previous hash, timestamp and transactions. If its hash meets the difficulty, it is a properly mined block; otherwise no nonce up to `fuel` met the difficulty |
| Ledger.Blockchain.PushMinedBlock | pages/index.tsx:86-98 | the mined block is appended, the cadence is applied, the pool is reset to one reward, balances change by the block's net flow, and the invariant is kept |
| Ledger.Blockchain.GetBalanceForAddress | pages/index.tsx:101-115 | the nested loops compute the balance of the address over the whole chain (`Balance`, itself proved equal to received minus sent) |
| Ledger.Blockchain.IsValidChain | pages/index.tsx:54-69 | returns the source's answer: `None` (undefined) for a genesis-only chain, otherwise whether block 1 recomputes its hash and links to block 0 |
| Ledger.Blockchain.IsValidChainFull | pages/index.tsx:54-69 | not the source's behaviour: the loop with the early `return true` moved after it, deciding full validity of every block |
| Scenarios.PaymentThenThreeRewards | pages/index.tsx:71-115 | a payment of 10 from A to B followed by three mining rounds for R leaves A at -10, B at 10 and R at 10, with the third reward of 5 still pending |
| Scenarios.HundredBlocks | pages/index.tsx:86-98 | starting at difficulty 1, the difficulty is 1 at length 99, becomes 2 at length 100 and stays 2 at 101. The reward drops to 4, and the reward queued in the round that reaches length 100 is already 4 |
| Scenarios.FirstBlockFailsItsOwnCheck | pages/index.tsx:125-147 | with a digest under which the hash over the unset nonce already meets difficulty 1, the first mined block keeps that hash, and both `isValidChain` and the full check reject the ledger's own chain |

## Behaviour of the code worth knowing

- `isValidChain` returns from inside the first iteration of its loop. It therefore checks only block 1 against block 0. On a chain holding only the genesis block it falls off the end and returns `undefined`. `IsValidChain` models this; `IsValidChainFull` is the evidently intended full scan and is kept apart.
- The constructor computes the hash before assigning `nonce = 0`, so the initial hash is over an `undefined` nonce. When that hash already meets the difficulty, `mine` never runs its loop, and the block keeps a hash that `calculateHash()` does not reproduce. `Scenarios.FirstBlockFailsItsOwnCheck` exhibits this with a concrete digest, and `Validity.LedgerChainValidity` states exactly when the ledger's own chain passes.
- The reward for a mining round is queued after the block is sealed, so it is only credited by the next round. After a payment and three rounds, the miner's balance is 10 (two rewards), not 15. The model follows the code.
- The adjustment happens when the chain length, genesis included, reaches a multiple of 100, i.e. on the 99th, 199th, … mined block. The reward keeps falling below zero: there is no floor.

## Left out

- The React page, the header component, `utils.ts`, cookies and the `myCoin` singleton: user interface, not ledger logic.
- `console.log` messages: output only.
- SHA-256 and `JSON.stringify`: modelled together as the `digest` parameter. Every lemma and method contract outside `Scenarios` holds for every digest; the scenarios fix a digest (`Zeroes`, `UnsetNonceSensitive`) so that each nonce search has a known outcome.
- `Date.now()`: becomes a `timestamp` parameter; the constructor's default timestamp and the default previous hash `""` are not modelled, because the ledger always passes both.
- Amounts are JavaScript numbers (floating point); the model uses unbounded integers.
- Blocks.Block.Mine: runs at most `fuel` rehashes and returns whether it succeeded, where the source loops until it does; a search that has not succeeded within the bound is reported, not continued.
- Ledger.Blockchain.MineCandidate: inherits the bound from `Mine` and may hand back a block whose hash does not meet the difficulty, where the source always ends with a mined block; its contract then states only that the search up to `fuel` found nothing.
- Ledger.Blockchain.MinePendingTransactions: inherits the bound from `Mine`; when the search gives up, the ledger is left unchanged, a case the source never reaches.
- Ledger.Blockchain.LastBlock: the `lastBlock` getter is a plain function with no contract of its own.
- The source's `Transaction` class has only a constructor that copies its arguments; it is the `Transactions.Transaction` datatype.
- Aliasing of the pool: the source hands the pending array itself to the new block and then replaces `pendingTransactions` with a fresh array; the model passes the pool as a value, which is equivalent because the old array is never mutated again.
