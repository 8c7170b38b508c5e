/**
 * Balance derivation by replay (`getBalanceForAddress`): a left fold over every
 * transaction of every block, in chain order.
 */
module Balances {
  import opened Wrappers
  import opened Transactions
  import opened Blocks

  /** The outer `reduce` over blocks, threading the running balance. */
  function ApplyBlocks(balance: int, blocks: seq<BlockValue>, address: Address): int
    decreases blocks
  {
    if blocks == [] then balance
    else ApplyBlocks(ApplyAll(balance, blocks[0].transactions, address), blocks[1..], address)
  }

  /** The balance of `address` over the mined `blocks`, starting from 0. */
  function Balance(blocks: seq<BlockValue>, address: Address): int {
    ApplyBlocks(0, blocks, address)
  }

  /** Reference definition: everything the blocks pay to `address`. */
  function Received(blocks: seq<BlockValue>, address: Address): int {
    if blocks == [] then 0 else Credit(blocks[0].transactions, address) + Received(blocks[1..], address)
  }

  /** Reference definition: everything the blocks take from `address`. */
  function Sent(blocks: seq<BlockValue>, address: Address): int {
    if blocks == [] then 0 else Debit(blocks[0].transactions, address) + Sent(blocks[1..], address)
  }

  lemma {:induction false} ApplyBlocksIsNetFlow(balance: int, blocks: seq<BlockValue>, address: Address)
    ensures ApplyBlocks(balance, blocks, address) == balance + Received(blocks, address) - Sent(blocks, address)
    decreases blocks
  {
    if blocks != [] {
      ApplyAllIsNetFlow(balance, blocks[0].transactions, address);
      ApplyBlocksIsNetFlow(ApplyAll(balance, blocks[0].transactions, address), blocks[1..], address);
    }
  }

  /** The balance is the signed sum of every mined transaction touching the wallet. */
  lemma BalanceIsNetFlow(blocks: seq<BlockValue>, address: Address)
    ensures Balance(blocks, address) == Received(blocks, address) - Sent(blocks, address)
  {
    ApplyBlocksIsNetFlow(0, blocks, address);
  }

  /** Folding one more block is one more inner fold: the loop's view of the replay. */
  lemma {:induction false} ApplyBlocksSnoc(balance: int, blocks: seq<BlockValue>, b: BlockValue, address: Address)
    ensures ApplyBlocks(balance, blocks + [b], address) == ApplyAll(ApplyBlocks(balance, blocks, address), b.transactions, address)
    decreases blocks
  {
    if blocks == [] {
      assert [b][1..] == [];
    } else {
      assert (blocks + [b])[1..] == blocks[1..] + [b];
      ApplyBlocksSnoc(ApplyAll(balance, blocks[0].transactions, address), blocks[1..], b, address);
    }
  }

  /** Appending a block adds exactly that block's contribution. */
  lemma BalanceAppend(blocks: seq<BlockValue>, b: BlockValue, address: Address)
    ensures Balance(blocks + [b], address)
         == Balance(blocks, address) + Credit(b.transactions, address) - Debit(b.transactions, address)
  {
    ApplyBlocksSnoc(0, blocks, b, address);
    ApplyAllIsNetFlow(Balance(blocks, address), b.transactions, address);
  }

  /** A block holding one transfer between two different wallets moves exactly `amount` between them. */
  lemma TransferMovesAmount(blocks: seq<BlockValue>, b: BlockValue, payer: Address, payee: Address, amount: int, other: Address)
    requires payer != payee && other != payer && other != payee
    requires b.transactions == [Transaction(Some(payer), payee, amount)]
    ensures Balance(blocks + [b], payer) == Balance(blocks, payer) - amount
    ensures Balance(blocks + [b], payee) == Balance(blocks, payee) + amount
    ensures Balance(blocks + [b], other) == Balance(blocks, other)
  {
    BalanceAppend(blocks, b, payer);
    BalanceAppend(blocks, b, payee);
    BalanceAppend(blocks, b, other);
  }
}
