/**
 The other half of the undo theorem: a block that is not `UndoSafe` is not undone by `pop_block`.

 Both ways to fail show up in a row count. A dropped transaction makes the pop take off one
 transaction too many, and a misfiled output leaves one row too many under amount 0.
 */
module StoreExact {
  import opened ChainTypes
  import opened StoreSpec
  import opened StoreUndo

  // ---------------------------------------------------------------- the miner transaction as the first of a block

  function AllTxs(b: BlockInput): seq<Tx> {
    [b.block.minerTx] + b.txs
  }

  function AllHashes(block: Block): seq<Hash> {
    [block.minerTx.hash] + block.txHashes
  }

  lemma {:induction false} AddTxsShift(t: Tables, tx: Tx, h: Hash, txs: seq<Tx>, hashes: seq<Hash>, n: nat)
    requires n <= |txs| && n <= |hashes|
    requires AddTransaction(t, tx, h).outcome.Ok?
    ensures AddTxs(t, [tx] + txs, [h] + hashes, n + 1) == AddTxs(AddTransaction(t, tx, h).tables, txs, hashes, n)
  {
    hide AddTransaction;
    if n == 0 {
      assert AddTxs(t, [tx] + txs, [h] + hashes, 0) == Step(t, Ok);
    } else {
      AddTxsShift(t, tx, h, txs, hashes, n - 1);
    }
  }

  lemma FirstTx(t: Tables, txs: seq<Tx>, hashes: seq<Hash>)
    requires |txs| > 0 && |hashes| > 0
    ensures AddTxs(t, txs, hashes, 1) == AddTransaction(t, txs[0], hashes[0])
  {
    hide AddTransaction;
    assert AddTxs(t, txs, hashes, 0) == Step(t, Ok);
  }

  lemma {:induction false} ThrowEnds(t: Tables, txs: seq<Tx>, hashes: seq<Hash>, k: nat, n: nat)
    requires k <= n <= |txs| && n <= |hashes| && AddTxs(t, txs, hashes, k).outcome.Threw?
    ensures AddTxs(t, txs, hashes, n) == AddTxs(t, txs, hashes, k)
  {
    hide AddTransaction;
    if n == k {
    } else {
      ThrowEnds(t, txs, hashes, k, n - 1);
    }
  }

  /** The miner transaction goes in first, the listed ones follow until one throws. */
  lemma AddBlockTxsIsAddTxs(t: Tables, b: BlockInput)
    requires |b.block.txHashes| == |b.txs|
    ensures AddTxs(t, AllTxs(b), AllHashes(b.block), |b.txs| + 1) == AddBlockTxs(t, b)
  {
    hide AddTransaction, AddTxs;
    if AddTransaction(t, b.block.minerTx, b.block.minerTx.hash).outcome.Ok? {
      AddTxsShift(t, b.block.minerTx, b.block.minerTx.hash, b.txs, b.block.txHashes, |b.txs|);
    } else {
      FirstTx(t, AllTxs(b), AllHashes(b.block));
      ThrowEnds(t, AllTxs(b), AllHashes(b.block), 1, |b.txs| + 1);
    }
  }

  lemma UnstoredThrows(t: Tables, h: Hash)
    ensures StoredTx(t, h).None? ==> RemoveTransaction(t, h).outcome.Threw?
  {
  }

  lemma {:induction false} PopTxsShift(t: Tables, h: Hash, hashes: seq<Hash>, n: nat, popped: seq<Tx>)
    requires n <= |hashes|
    requires PopTxs(t, hashes, n, popped).outcome.Ok?
    requires RemoveTransaction(PopTxs(t, hashes, n, popped).tables, h).outcome.Ok?
    ensures var all := PopTxs(t, [h] + hashes, n + 1, popped);
            all.outcome.Ok? && all.tables == RemoveTransaction(PopTxs(t, hashes, n, popped).tables, h).tables
    decreases n
  {
    hide RemoveTransaction;
    if n == 0 {
      UnstoredThrows(t, h);
      var step := RemoveTransaction(t, h);
      assert PopTxs(t, [h] + hashes, 1, popped)
             == PopTxs(step.tables, [h] + hashes, 0, popped + [StoredTx(t, h).value]);
    } else {
      var tx := StoredTx(t, hashes[n - 1]).value;
      PopTxsShift(RemoveTransaction(t, hashes[n - 1]).tables, h, hashes, n - 1, popped + [tx]);
    }
  }

  lemma PopBlockTxsIsPopTxs(t: Tables, block: Block)
    requires PopBlockTxs(t, block).outcome.Ok?
    ensures var all := PopTxs(t, AllHashes(block), |block.txHashes| + 1, []);
            all.outcome.Ok? && all.tables == PopBlockTxs(t, block).tables
  {
    hide RemoveTransaction, PopTxs;
    PopTxsShift(t, block.minerTx.hash, block.txHashes, |block.txHashes|, []);
  }

  // ---------------------------------------------------------------- counting transactions

  function SupportedCount(txs: seq<Tx>, n: nat): nat
    requires n <= |txs|
  {
    if n == 0 then 0 else SupportedCount(txs, n - 1) + if Supported(txs[n - 1]) then 1 else 0
  }

  lemma {:induction false} SupportedCountFull(txs: seq<Tx>, n: nat)
    requires n <= |txs|
    ensures SupportedCount(txs, n) <= n
    ensures SupportedCount(txs, n) == n ==> forall i :: 0 <= i < n ==> Supported(txs[i])
  {
    if n == 0 {
    } else {
      SupportedCountFull(txs, n - 1);
    }
  }

  lemma AddTransactionCount(t: Tables, tx: Tx, txHash: Hash)
    requires AddTransaction(t, tx, txHash).outcome.Ok?
    ensures |AddTransaction(t, tx, txHash).tables.txIndices| == |t.txIndices| + if Supported(tx) then 1 else 0
  {
    hide AddTxOutputs, ScanInputs, ImageSet;
    ScanTx(t.spent, tx.vin);
  }

  lemma {:induction false} AddTxsCount(t: Tables, txs: seq<Tx>, hashes: seq<Hash>, n: nat)
    requires n <= |txs| && n <= |hashes|
    requires AddTxs(t, txs, hashes, n).outcome.Ok?
    ensures |AddTxs(t, txs, hashes, n).tables.txIndices| == |t.txIndices| + SupportedCount(txs, n)
  {
    hide AddTransaction, Supported;
    if n == 0 {
    } else {
      AddTxsCount(t, txs, hashes, n - 1);
      AddTransactionCount(AddTxs(t, txs, hashes, n - 1).tables, txs[n - 1], hashes[n - 1]);
    }
  }

  lemma RemoveTransactionCount(t: Tables, txHash: Hash)
    requires RemoveTransaction(t, txHash).outcome.Ok?
    ensures |RemoveTransaction(t, txHash).tables.txIndices| + 1 == |t.txIndices|
  {
    hide RemoveTransaction, ZeroRows, RemovedZeros;
    RemoveTransactionRows(t, txHash);
    var after := RemoveTransaction(t, txHash).tables.txIndices;
    assert after.Keys + {txHash} == t.txIndices.Keys;
  }

  lemma {:induction false} PopTxsCount(t: Tables, hashes: seq<Hash>, n: nat, popped: seq<Tx>)
    requires n <= |hashes|
    requires PopTxs(t, hashes, n, popped).outcome.Ok?
    ensures |PopTxs(t, hashes, n, popped).tables.txIndices| + n == |t.txIndices|
    decreases n
  {
    hide RemoveTransaction;
    if n == 0 {
    } else {
      var tx := StoredTx(t, hashes[n - 1]).value;
      RemoveTransactionCount(t, hashes[n - 1]);
      PopTxsCount(RemoveTransaction(t, hashes[n - 1]).tables, hashes, n - 1, popped + [tx]);
    }
  }

  // ---------------------------------------------------------------- counting rows under amount 0

  function StoredZeros(tx: Tx, n: nat): nat
    requires n <= |tx.vout|
  {
    if n == 0 then 0 else StoredZeros(tx, n - 1) + if StoredAmount(tx, n - 1) == 0 then 1 else 0
  }

  function RemovedZeros(tx: Tx, n: nat): nat
    requires n <= |tx.vout|
  {
    if n == 0 then 0 else RemovedZeros(tx, n - 1) + if RemovalAmount(tx, n - 1) == 0 then 1 else 0
  }

  lemma {:induction false} ZerosAgree(tx: Tx, n: nat)
    requires n <= |tx.vout|
    ensures RemovedZeros(tx, n) <= StoredZeros(tx, n)
    ensures RemovedZeros(tx, n) == StoredZeros(tx, n) ==>
              forall i :: 0 <= i < n ==> StoredAmount(tx, i) == RemovalAmount(tx, i)
  {
    if n == 0 {
    } else {
      ZerosAgree(tx, n - 1);
      if OnlyGen(tx.vin) {
        assert tx.vin[0].Gen?;
      }
    }
  }

  function ZeroRows(outs: Outs): nat {
    |KeysAt(outs, 0)|
  }

  lemma KeysAtInsert(outs: Outs, after: Outs, key: (nat, nat), row: OutKey, amount: nat)
    requires key !in outs.byAmount && after.byAmount == outs.byAmount[key := row]
    ensures KeysAt(after, amount) == KeysAt(outs, amount) + if key.0 == amount then {key} else {}
    ensures |KeysAt(after, amount)| == |KeysAt(outs, amount)| + if key.0 == amount then 1 else 0
  {
    assert key !in KeysAt(outs, amount);
    assert KeysAt(after, amount) == KeysAt(outs, amount) + if key.0 == amount then {key} else {};
  }

  lemma AddOutputZeros(outs: Outs, txHash: Hash, amount: nat, target: Target, localIndex: nat,
                       unlockTime: nat, height: nat, commitment: Option<Commitment>)
    requires AddOutput(outs, txHash, amount, target, localIndex, unlockTime, height, commitment).outcome.Ok?
    ensures ZeroRows(AddOutput(outs, txHash, amount, target, localIndex, unlockTime, height, commitment).outs)
            == ZeroRows(outs) + if amount == 0 then 1 else 0
  {
    var step := AddOutput(outs, txHash, amount, target, localIndex, unlockTime, height, commitment);
    hide KeysAt, NextId;
    var key := (amount, step.index);
    KeysAtInsert(outs, step.outs, key, step.outs.byAmount[key], 0);
  }

  lemma {:induction false} AddTxOutputsZeros(outs: Outs, tx: Tx, txHash: Hash, height: nat, n: nat)
    requires n <= |tx.vout|
    requires AddTxOutputs(outs, tx, txHash, height, n).outcome.Ok?
    ensures ZeroRows(AddTxOutputs(outs, tx, txHash, height, n).outs) == ZeroRows(outs) + StoredZeros(tx, n)
  {
    hide AddOutput, StoredAmount, StoredUnlockTime, PassedCommitment, ZeroRows;
    if n == 0 {
    } else {
      AddTxOutputsZeros(outs, tx, txHash, height, n - 1);
      AddOutputZeros(AddTxOutputs(outs, tx, txHash, height, n - 1).outs, txHash, StoredAmount(tx, n - 1),
                     tx.vout[n - 1].target, n - 1, StoredUnlockTime(tx, n - 1), height, PassedCommitment(tx, n - 1));
    }
  }

  lemma RemoveOutputZeros(outs: Outs, amount: nat, index: nat)
    requires RemoveOutput(outs, amount, index).outcome.Ok?
    ensures ZeroRows(RemoveOutput(outs, amount, index).outs) + (if amount == 0 then 1 else 0) == ZeroRows(outs)
  {
    var after := RemoveOutput(outs, amount, index).outs;
    var key := (amount, index);
    assert KeysAt(outs, 0) == KeysAt(after, 0) + if amount == 0 then {key} else {};
    assert key !in KeysAt(after, 0);
  }

  lemma {:induction false} RemoveTxOutputsZeros(outs: Outs, tx: Tx, indices: seq<nat>, n: nat)
    requires n <= |tx.vout| && n <= |indices|
    requires RemoveTxOutputs(outs, tx, indices, n).outcome.Ok?
    ensures ZeroRows(RemoveTxOutputs(outs, tx, indices, n).outs) + RemovedZeros(tx, n) == ZeroRows(outs)
    decreases n
  {
    hide RemoveOutput, RemovalAmount, ZeroRows;
    if n == 0 {
    } else {
      RemoveOutputZeros(outs, RemovalAmount(tx, n - 1), indices[n - 1]);
      RemoveTxOutputsZeros(RemoveOutput(outs, RemovalAmount(tx, n - 1), indices[n - 1]).outs, tx, indices, n - 1);
    }
  }

  function AllStoredZeros(txs: seq<Tx>, n: nat): nat
    requires n <= |txs|
  {
    if n == 0 then 0 else AllStoredZeros(txs, n - 1) + StoredZeros(txs[n - 1], |txs[n - 1].vout|)
  }

  function AllRemovedZeros(txs: seq<Tx>, n: nat): nat
    requires n <= |txs|
  {
    if n == 0 then 0 else AllRemovedZeros(txs, n - 1) + RemovedZeros(txs[n - 1], |txs[n - 1].vout|)
  }

  lemma {:induction false} AllZerosAgree(txs: seq<Tx>, n: nat)
    requires n <= |txs|
    ensures AllRemovedZeros(txs, n) <= AllStoredZeros(txs, n)
    ensures AllRemovedZeros(txs, n) == AllStoredZeros(txs, n) ==> forall i :: 0 <= i < n ==> !Misfiled(txs[i])
  {
    hide Misfiled, StoredZeros, RemovedZeros;
    if n == 0 {
    } else {
      AllZerosAgree(txs, n - 1);
      ZerosAgree(txs[n - 1], |txs[n - 1].vout|);
      SafeAmounts(txs[n - 1]);
    }
  }

  /** The first n transactions of a list are stored under their hashes, with different ids. */
  ghost predicate Held(t: Tables, txs: seq<Tx>, hashes: seq<Hash>, n: nat)
    requires n <= |txs| && n <= |hashes|
  {
    && (forall i :: 0 <= i < n ==> StoredTx(t, hashes[i]) == Some(txs[i]))
    && (forall i, j :: 0 <= i < j < n ==> hashes[i] != hashes[j])
    && (forall i, j :: 0 <= i < j < n ==> t.txIndices[hashes[i]].id != t.txIndices[hashes[j]].id)
  }

  lemma AddTransactionStores(t: Tables, tx: Tx, txHash: Hash)
    requires Supported(tx)
    requires AddTransaction(t, tx, txHash).outcome.Ok?
    ensures var after := AddTransaction(t, tx, txHash).tables;
            && txHash !in t.txIndices
            && after.txIndices == t.txIndices[txHash := TxIndex(|t.txs|, tx.unlockTime, |t.rows|)]
            && after.txs == t.txs[|t.txs| := tx]
            && (forall k :: k in t.txs ==> k < |t.txs|)
            && ZeroRows(after.outs) == ZeroRows(t.outs) + StoredZeros(tx, |tx.vout|)
  {
    hide AddTransaction, AddTxOutputs, ImageSet, ZeroRows, StoredZeros, Supported;
    AddTransactionWrites(t, tx, txHash);
    AddTxOutputsZeros(t.outs, tx, txHash, |t.rows|, |tx.vout|);
  }

  lemma {:induction false} AddTxsHeld(t: Tables, txs: seq<Tx>, hashes: seq<Hash>, n: nat)
    requires n <= |txs| && n <= |hashes|
    requires forall i :: 0 <= i < n ==> Supported(txs[i])
    requires AddTxs(t, txs, hashes, n).outcome.Ok?
    ensures Held(AddTxs(t, txs, hashes, n).tables, txs, hashes, n)
    ensures ZeroRows(AddTxs(t, txs, hashes, n).tables.outs) == ZeroRows(t.outs) + AllStoredZeros(txs, n)
  {
    hide AddTransaction, Supported, ZeroRows, StoredZeros;
    if n == 0 {
    } else {
      AddTxsHeld(t, txs, hashes, n - 1);
      AddTransactionStores(AddTxs(t, txs, hashes, n - 1).tables, txs[n - 1], hashes[n - 1]);
    }
  }

  lemma RemoveTransactionRows(t: Tables, txHash: Hash)
    requires RemoveTransaction(t, txHash).outcome.Ok?
    ensures StoredTx(t, txHash).Some?
    ensures var after := RemoveTransaction(t, txHash).tables;
            var tx := StoredTx(t, txHash).value;
            && after.txIndices == t.txIndices - {txHash}
            && after.txs == t.txs - {t.txIndices[txHash].id}
            && ZeroRows(after.outs) + RemovedZeros(tx, |tx.vout|) == ZeroRows(t.outs)
  {
    hide RemoveTxOutputs, ImageSet, ZeroRows, RemovedZeros;
    var tx := StoredTx(t, txHash).value;
    RemoveTxOutputsZeros(t.outs, tx, t.txOutputs[t.txIndices[txHash].id], |tx.vout|);
  }

  lemma {:induction false} PopTxsZeros(t: Tables, txs: seq<Tx>, hashes: seq<Hash>, n: nat, popped: seq<Tx>)
    requires n <= |txs| && n <= |hashes|
    requires Held(t, txs, hashes, n)
    requires PopTxs(t, hashes, n, popped).outcome.Ok?
    ensures ZeroRows(PopTxs(t, hashes, n, popped).tables.outs) + AllRemovedZeros(txs, n) == ZeroRows(t.outs)
    decreases n
  {
    hide RemoveTransaction, ZeroRows, RemovedZeros;
    if n == 0 {
    } else {
      RemoveTransactionRows(t, hashes[n - 1]);
      PopTxsZeros(RemoveTransaction(t, hashes[n - 1]).tables, txs, hashes, n - 1, popped + [txs[n - 1]]);
    }
  }

  // ---------------------------------------------------------------- the exact condition

  lemma UnsafeIsNotUndone(t: Tables, b: BlockInput)
    requires AddBlock(t, b).outcome.Ok?
    requires PopBlock(AddBlock(t, b).tables).outcome.Ok?
    requires PopBlock(AddBlock(t, b).tables).tables == t
    ensures UndoSafe(b)
  {
    hide AddRow, RemoveRow, NumRctOuts, AddBlockTxs, PopBlockTxs, AddTxs, PopTxs, Misfiled, Supported, ZeroRows;
    UndoRow(t, b);
    var n := |b.txs| + 1;
    var mid := AddBlockTxs(t, b).tables;
    AddBlockTxsIsAddTxs(t, b);
    PopBlockTxsIsPopTxs(mid, b.block);
    AddTxsCount(t, AllTxs(b), AllHashes(b.block), n);
    PopTxsCount(mid, AllHashes(b.block), n, []);
    SupportedCountFull(AllTxs(b), n);
    AddTxsHeld(t, AllTxs(b), AllHashes(b.block), n);
    PopTxsZeros(mid, AllTxs(b), AllHashes(b.block), n, []);
    AllZerosAgree(AllTxs(b), n);
    assert AllTxs(b)[0] == b.block.minerTx;
    assert forall i :: 0 <= i < |b.txs| ==> AllTxs(b)[i + 1] == b.txs[i];
  }

  /** A pop brings back the tables from before an add exactly for an `UndoSafe` block. */
  lemma PopUndoesAddExactly(t: Tables, b: BlockInput)
    requires AddBlock(t, b).outcome.Ok?
    ensures var pop := PopBlock(AddBlock(t, b).tables);
            (pop.outcome.Ok? && pop.tables == t) <==> UndoSafe(b)
  {
    hide *;
    if UndoSafe(b) {
      PopUndoesAdd(t, b);
    }
    var pop := PopBlock(AddBlock(t, b).tables);
    if pop.outcome.Ok? && pop.tables == t {
      UnsafeIsNotUndone(t, b);
    }
  }
}
