/**
 * Transfers (the `Transaction` class of pages/index.tsx) and the per-transaction
 * balance arithmetic that `getBalanceForAddress` performs.
 */
module Transactions {
  import opened Wrappers

  /** An opaque wallet identifier. */
  type Address = string

  /** A transfer of `amount` from `fromAddress` to `toAddress`; a mining reward has no sender. */
  datatype Transaction = Transaction(fromAddress: Option<Address>, toAddress: Address, amount: int)

  /** A transaction whose sender and recipient are the same wallet. */
  predicate IsSelfTransfer(tx: Transaction) {
    tx.fromAddress == Some(tx.toAddress)
  }

  /** One pass of the inner `forEach`: debit the sender first, then credit the recipient. */
  function Step(balance: int, tx: Transaction, address: Address): int {
    var debited := if tx.fromAddress == Some(address) then balance - tx.amount else balance;
    if tx.toAddress == address then debited + tx.amount else debited
  }

  /** The inner `forEach` over one block's transactions, left to right, from `balance`. */
  function ApplyAll(balance: int, txs: seq<Transaction>, address: Address): int
    decreases txs
  {
    if txs == [] then balance else ApplyAll(Step(balance, txs[0], address), txs[1..], address)
  }

  /** Reference definition: everything `txs` pays to `address`. */
  function Credit(txs: seq<Transaction>, address: Address): int {
    if txs == [] then 0
    else (if txs[0].toAddress == address then txs[0].amount else 0) + Credit(txs[1..], address)
  }

  /** Reference definition: everything `txs` takes from `address`. */
  function Debit(txs: seq<Transaction>, address: Address): int {
    if txs == [] then 0
    else (if txs[0].fromAddress == Some(address) then txs[0].amount else 0) + Debit(txs[1..], address)
  }

  /** `txs` with every self-transfer dropped. */
  function WithoutSelfTransfers(txs: seq<Transaction>): (r: seq<Transaction>)
    ensures |r| <= |txs|
    ensures forall tx :: tx in r <==> tx in txs && !IsSelfTransfer(tx)
  {
    if txs == [] then []
    else if IsSelfTransfer(txs[0]) then WithoutSelfTransfers(txs[1..])
    else [txs[0]] + WithoutSelfTransfers(txs[1..])
  }

  /** The fold adds exactly what the transactions pay in and takes exactly what they pay out. */
  lemma {:induction false} ApplyAllIsNetFlow(balance: int, txs: seq<Transaction>, address: Address)
    ensures ApplyAll(balance, txs, address) == balance + Credit(txs, address) - Debit(txs, address)
    decreases txs
  {
    if txs != [] {
      ApplyAllIsNetFlow(Step(balance, txs[0], address), txs[1..], address);
    }
  }

  /** Folding one more transaction is one more `Step`: the loop's view of the fold. */
  lemma {:induction false} ApplyAllSnoc(balance: int, txs: seq<Transaction>, tx: Transaction, address: Address)
    ensures ApplyAll(balance, txs + [tx], address) == Step(ApplyAll(balance, txs, address), tx, address)
    decreases txs
  {
    if txs == [] {
      assert [tx][1..] == [];
    } else {
      assert (txs + [tx])[1..] == txs[1..] + [tx];
      ApplyAllSnoc(Step(balance, txs[0], address), txs[1..], tx, address);
    }
  }

  /** Credits of a concatenation add up. */
  lemma {:induction false} CreditAppend(a: seq<Transaction>, b: seq<Transaction>, address: Address)
    ensures Credit(a + b, address) == Credit(a, address) + Credit(b, address)
  {
    if a == [] {
      assert a + b == b;
    } else {
      assert (a + b)[1..] == a[1..] + b;
      CreditAppend(a[1..], b, address);
    }
  }

  /** Debits of a concatenation add up. */
  lemma {:induction false} DebitAppend(a: seq<Transaction>, b: seq<Transaction>, address: Address)
    ensures Debit(a + b, address) == Debit(a, address) + Debit(b, address)
  {
    if a == [] {
      assert a + b == b;
    } else {
      assert (a + b)[1..] == a[1..] + b;
      DebitAppend(a[1..], b, address);
    }
  }

  /** A self-transfer nets to zero for every wallet, so dropping them all changes no balance. */
  lemma {:induction false} SelfTransfersNetZero(balance: int, txs: seq<Transaction>, address: Address)
    ensures ApplyAll(balance, WithoutSelfTransfers(txs), address) == ApplyAll(balance, txs, address)
    decreases txs
  {
    if txs != [] {
      if IsSelfTransfer(txs[0]) {
        assert Step(balance, txs[0], address) == balance;
        SelfTransfersNetZero(balance, txs[1..], address);
      } else {
        var rest := WithoutSelfTransfers(txs[1..]);
        assert ([txs[0]] + rest)[1..] == rest;
        SelfTransfersNetZero(Step(balance, txs[0], address), txs[1..], address);
      }
    }
  }
}
