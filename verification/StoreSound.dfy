/**
 The invariant of the block store, kept by every block that is added: index integrity, a spent set that
 is the disjoint union of the stored transactions' key images, ids and indices without gaps, and blocks
 that list what is stored and link to their parents.
 */
module StoreSound {
  import opened ChainTypes
  import opened StoreSpec
  import opened StoreUndo
  import opened StoreExact
  import opened StoreIntegrity

  // ---------------------------------------------------------------- the spent set

  /** The spent set is the disjoint union of the key images of the stored transactions. */
  ghost predicate SpentExact(t: Tables) {
    && (forall k :: k in t.spent <==> exists id :: id in t.txs && k in ImageSet(t.txs[id].vin))
    && (forall i, j :: i in t.txs && j in t.txs && i != j ==> ImageSet(t.txs[i].vin) !! ImageSet(t.txs[j].vin))
    && (forall id :: id in t.txs ==> DistinctImages(t.txs[id].vin))
  }

  lemma AcceptedDistinct(t: Tables, tx: Tx, txHash: Hash)
    requires Supported(tx)
    requires AddTransaction(t, tx, txHash).outcome.Ok?
    ensures DistinctImages(tx.vin)
  {
    AcceptedIsScanned(t, tx, txHash);
    ScanExactly(t.spent, tx.vin);
    assert tx.vin[..|tx.vin|] == tx.vin;
    hide AddTransaction, ScanInputs, ImageSet;
  }

  lemma AddTransactionSpent(t: Tables, after: Tables, tx: Tx)
    requires SpentExact(t)
    requires forall k :: k in t.txs ==> k < |t.txs|
    requires after.txs == t.txs[|t.txs| := tx]
    requires t.spent !! ImageSet(tx.vin) && after.spent == t.spent + ImageSet(tx.vin)
    requires DistinctImages(tx.vin)
    ensures SpentExact(after)
  {
    hide ImageSet, DistinctImages;
    var id := |t.txs|;
    forall k
      ensures k in after.spent <==> exists i :: i in after.txs && k in ImageSet(after.txs[i].vin)
    {
      if k in t.spent {
        var i :| i in t.txs && k in ImageSet(t.txs[i].vin);
        assert i in after.txs && after.txs[i] == t.txs[i];
      } else if k in ImageSet(tx.vin) {
        assert id in after.txs && after.txs[id] == tx;
      }
    }
    forall i | i in t.txs
      ensures ImageSet(t.txs[i].vin) !! ImageSet(tx.vin)
    {
      assert ImageSet(t.txs[i].vin) <= t.spent;
    }
  }

  /** Taking one stored transaction's images out of the spent set leaves every other's in it. */
  lemma RemovalKeepsOthersSpent(t: Tables, id: nat, other: nat)
    requires SpentExact(t)
    requires id in t.txs && other in t.txs && id != other
    ensures ImageSet(t.txs[other].vin) <= t.spent - ImageSet(t.txs[id].vin)
  {
    hide ImageSet;
    assert forall k :: k in ImageSet(t.txs[other].vin) ==> k in t.spent;
  }

  // ---------------------------------------------------------------- dense ids and indices

  ghost predicate DenseOuts(outs: Outs) {
    && (forall id :: id in outs.byId <==> 0 <= id < NextId(outs.byId))
    && (forall a: nat, i: nat :: (a, i) in outs.byAmount <==> i < |KeysAt(outs, a)|)
  }

  /** Ids and amount indices run from 0 without gaps, and both id tables have the same ids. */
  ghost predicate Dense(t: Tables) {
    && (forall k :: k in t.txs <==> 0 <= k < |t.txs|)
    && t.txOutputs.Keys == t.txs.Keys
    && DenseOuts(t.outs)
  }

  lemma DenseOutput(outs: Outs, tx: Tx, txHash: Hash, height: nat, i: nat)
    requires i < |tx.vout| && DenseOuts(outs)
    requires AddTxOutput(outs, tx, txHash, height, i).outcome.Ok?
    ensures DenseOuts(AddTxOutput(outs, tx, txHash, height, i).outs)
  {
    hide AddTxOutput, StoredAmount, RightRow, NextId, KeysAt;
    var step := AddTxOutput(outs, tx, txHash, height, i);
    AddTxOutputRow(outs, tx, txHash, height, i);
    var key := (StoredAmount(tx, i), step.index);
    forall a: nat, j: nat
      ensures (a, j) in step.outs.byAmount <==> j < |KeysAt(step.outs, a)|
    {
      KeysAtInsert(outs, step.outs, key, step.outs.byAmount[key], a);
    }
  }

  lemma {:induction false} DenseOutputs(outs: Outs, tx: Tx, txHash: Hash, height: nat, n: nat)
    requires n <= |tx.vout| && DenseOuts(outs)
    requires AddTxOutputs(outs, tx, txHash, height, n).outcome.Ok?
    ensures DenseOuts(AddTxOutputs(outs, tx, txHash, height, n).outs)
  {
    hide AddTxOutput, DenseOuts;
    if n == 0 {
    } else {
      DenseOutputs(outs, tx, txHash, height, n - 1);
      DenseOutput(AddTxOutputs(outs, tx, txHash, height, n - 1).outs, tx, txHash, height, n - 1);
    }
  }

  lemma DenseTransaction(t: Tables, tx: Tx, txHash: Hash)
    requires Dense(t) && Supported(tx)
    requires AddTransaction(t, tx, txHash).outcome.Ok?
    ensures Dense(AddTransaction(t, tx, txHash).tables)
  {
    hide AddTransaction, AddTxOutputs, ImageSet, DenseOuts, Supported;
    AddTransactionWrites(t, tx, txHash);
    DenseOutputs(t.outs, tx, txHash, |t.rows|, |tx.vout|);
  }

  // ---------------------------------------------------------------- transactions and blocks

  /** Every stored transaction is listed by the block at its height, and every listed one is stored there. */
  ghost predicate TxsFiled(t: Tables) {
    && (forall h :: h in t.txIndices ==>
          t.txIndices[h].height < |t.rows| && h in AllHashes(t.rows[t.txIndices[h].height].block))
    && (forall r, h :: 0 <= r < |t.rows| && h in AllHashes(t.rows[r].block) ==>
          h in t.txIndices && t.txIndices[h].height == r)
  }

  /** Heights by hash and hashes by height agree, and each block names the one below it as its parent. */
  ghost predicate Linked(t: Tables) {
    && (forall r :: 0 <= r < |t.rows| ==>
          && t.rows[r].info.hash == t.rows[r].block.hash && t.rows[r].info.height == r
          && t.rows[r].block.hash in t.blockHeights && t.blockHeights[t.rows[r].block.hash] == r)
    && (forall h :: h in t.blockHeights ==> t.blockHeights[h] < |t.rows| && t.rows[t.blockHeights[h]].block.hash == h)
    && (forall r :: 0 < r < |t.rows| ==> t.rows[r].block.prevId == t.rows[r - 1].block.hash)
  }

  /** The parts of the invariant that each single transaction keeps. */
  ghost predicate TxSound(t: Tables) {
    Integrity(t) && SpentExact(t) && Dense(t)
  }

  ghost predicate Sound(t: Tables) {
    TxSound(t) && TxsFiled(t) && Linked(t)
  }

  lemma EmptySound()
    ensures Sound(EMPTY_TABLES)
  {
    assert KeysAt(EMPTY_TABLES.outs, 0) == {};
    forall a: nat, i: nat
      ensures (a, i) in EMPTY_TABLES.outs.byAmount <==> i < |KeysAt(EMPTY_TABLES.outs, a)|
    {
      assert KeysAt(EMPTY_TABLES.outs, a) == {};
    }
  }

  lemma TransactionKeepsSound(t: Tables, tx: Tx, txHash: Hash)
    requires TxSound(t) && Supported(tx)
    requires AddTransaction(t, tx, txHash).outcome.Ok?
    ensures TxSound(AddTransaction(t, tx, txHash).tables)
  {
    hide AddTransaction, Integrity, SpentExact, Dense, OutputsAre, DistinctImages, Supported, ImageSet;
    AddTransactionAdds(t, tx, txHash);
    AddTransactionIntegrity(t, AddTransaction(t, tx, txHash).tables, tx, txHash);
    AcceptedDistinct(t, tx, txHash);
    AddTransactionSpent(t, AddTransaction(t, tx, txHash).tables, tx);
    DenseTransaction(t, tx, txHash);
  }

  lemma {:induction false} TxsKeepSound(t: Tables, txs: seq<Tx>, hashes: seq<Hash>, n: nat)
    requires n <= |txs| && n <= |hashes|
    requires TxSound(t) && forall i :: 0 <= i < n ==> Supported(txs[i])
    requires AddTxs(t, txs, hashes, n).outcome.Ok?
    ensures TxSound(AddTxs(t, txs, hashes, n).tables)
  {
    hide AddTransaction, TxSound, Supported;
    if n == 0 {
    } else {
      TxsKeepSound(t, txs, hashes, n - 1);
      TransactionKeepsSound(AddTxs(t, txs, hashes, n - 1).tables, txs[n - 1], hashes[n - 1]);
    }
  }

  /** The first n transactions are new and filed at the current height; the older ones stay as they were. */
  ghost predicate FiledAt(t: Tables, after: Tables, hashes: seq<Hash>, n: nat)
    requires n <= |hashes|
  {
    && (forall h :: h in after.txIndices ==> h in t.txIndices || h in hashes[..n])
    && (forall h :: h in t.txIndices ==> h in after.txIndices && after.txIndices[h] == t.txIndices[h])
    && (forall h :: h in hashes[..n] ==>
          h !in t.txIndices && h in after.txIndices && after.txIndices[h].height == |t.rows|)
  }

  lemma {:induction false} TxsFiledAt(t: Tables, txs: seq<Tx>, hashes: seq<Hash>, n: nat)
    requires n <= |txs| && n <= |hashes|
    requires forall i :: 0 <= i < n ==> Supported(txs[i])
    requires AddTxs(t, txs, hashes, n).outcome.Ok?
    ensures FiledAt(t, AddTxs(t, txs, hashes, n).tables, hashes, n)
  {
    hide AddTransaction, Supported, ZeroRows, StoredZeros;
    if n == 0 {
    } else {
      TxsFiledAt(t, txs, hashes, n - 1);
      AddTxsKeepsRows(t, txs, hashes, n - 1);
      AddTransactionStores(AddTxs(t, txs, hashes, n - 1).tables, txs[n - 1], hashes[n - 1]);
      assert hashes[..n] == hashes[..n - 1] + [hashes[n - 1]];
    }
  }

  predicate AllSupported(b: BlockInput) {
    forall i :: 0 <= i < |AllTxs(b)| ==> Supported(AllTxs(b)[i])
  }

  /** The metadata given with a block. */
  predicate Records(info: BlockInfo, b: BlockInput) {
    && info.timestamp == b.block.timestamp && info.coins == b.coins && info.difficulty == b.cumulativeDifficulty
    && info.weight == b.weight && info.longTermWeight == b.longTermWeight
  }

  /** The row that a block adds, on top of what its transactions left. */
  lemma AddBlockRow(t: Tables, b: BlockInput)
    requires AddBlock(t, b).outcome.Ok?
    ensures |b.block.txHashes| == |b.txs| && AddBlockTxs(t, b).outcome.Ok?
    ensures var mid := AddBlockTxs(t, b).tables;
            var after := AddBlock(t, b).tables;
            && mid.rows == t.rows && mid.blockHeights == t.blockHeights
            && |after.rows| == |t.rows| + 1
            && after == mid.(rows := t.rows + [after.rows[|t.rows|]],
                             blockHeights := t.blockHeights[b.block.hash := |t.rows|])
            && after.rows[|t.rows|].block == b.block
            && after.rows[|t.rows|].info.hash == b.block.hash && after.rows[|t.rows|].info.height == |t.rows|
            && Records(after.rows[|t.rows|].info, b)
            && b.block.hash !in t.blockHeights
            && (|t.rows| > 0 ==> b.block.prevId in t.blockHeights && t.blockHeights[b.block.prevId] == |t.rows| - 1)
            && after.rows[|t.rows|].info.cumRct
               == NumRctOuts(b)
                  + if b.block.majorVersion >= 4 && |t.rows| > 0 then t.rows[|t.rows| - 1].info.cumRct else 0
  {
    hide AddTransaction, AddTxs, NumRctOuts;
    AddTransactionKeepsRows(t, b.block.minerTx, b.block.minerTx.hash);
    AddTxsKeepsRows(AddTransaction(t, b.block.minerTx, b.block.minerTx.hash).tables, b.txs, b.block.txHashes, |b.txs|);
  }

  lemma BlockKeepsLinked(t: Tables, b: BlockInput)
    requires Linked(t)
    requires AddBlock(t, b).outcome.Ok?
    ensures Linked(AddBlock(t, b).tables)
  {
    hide AddBlock, AddBlockTxs, NumRctOuts;
    AddBlockRow(t, b);
  }

  lemma FiledStep(t: Tables, after: Tables, block: Block)
    requires TxsFiled(t)
    requires FiledAt(t, after, AllHashes(block), |AllHashes(block)|)
    requires |after.rows| == |t.rows| + 1 && after.rows[..|t.rows|] == t.rows && after.rows[|t.rows|].block == block
    ensures TxsFiled(after)
  {
    hide AllHashes;
    assert AllHashes(block)[..|AllHashes(block)|] == AllHashes(block);
    forall r, h | 0 <= r < |after.rows| && h in AllHashes(after.rows[r].block)
      ensures h in after.txIndices && after.txIndices[h].height == r
    {
      if r < |t.rows| {
        assert after.rows[r] == t.rows[r];
      }
    }
    forall h | h in after.txIndices
      ensures after.txIndices[h].height < |after.rows|
      ensures h in AllHashes(after.rows[after.txIndices[h].height].block)
    {
      if h in t.txIndices {
        assert after.rows[t.txIndices[h].height] == t.rows[t.txIndices[h].height];
      }
    }
  }

  lemma BlockKeepsFiled(t: Tables, b: BlockInput)
    requires Sound(t) && AllSupported(b)
    requires AddBlock(t, b).outcome.Ok?
    ensures TxsFiled(AddBlock(t, b).tables) && TxSound(AddBlock(t, b).tables)
  {
    hide AddBlock, AddBlockTxs, NumRctOuts, AddTxs, TxSound, Linked, TxsFiled, FiledAt;
    AddBlockRow(t, b);
    AddBlockTxsIsAddTxs(t, b);
    var n := |b.txs| + 1;
    TxsKeepSound(t, AllTxs(b), AllHashes(b.block), n);
    TxsFiledAt(t, AllTxs(b), AllHashes(b.block), n);
    var mid := AddBlockTxs(t, b).tables;
    var after := AddBlock(t, b).tables;
    TxSoundIgnoresRows(mid, after);
    assert FiledAt(t, after, AllHashes(b.block), n) by { FiledAtIgnoresRows(t, mid, after, AllHashes(b.block), n); }
    FiledStep(t, after, b.block);
  }

  lemma FiledAtIgnoresRows(t: Tables, mid: Tables, after: Tables, hashes: seq<Hash>, n: nat)
    requires n <= |hashes| && FiledAt(t, mid, hashes, n) && after.txIndices == mid.txIndices
    ensures FiledAt(t, after, hashes, n)
  {
  }

  lemma IntegrityIgnoresRows(t: Tables, after: Tables)
    requires Integrity(t)
    requires after == t.(rows := after.rows, blockHeights := after.blockHeights, spent := after.spent)
    ensures Integrity(after)
  {
    hide RightRow, StoredAmount;
    forall id | id in after.txs
      ensures Named(after, id)
    {
      assert Named(t, id);
    }
    forall h, i: nat | IsOutput(after, h, i)
      ensures SlotRight(after, h, i)
    {
      assert IsOutput(t, h, i) && SlotRight(t, h, i) && Slot(t, h, i) == Slot(after, h, i);
    }
    forall key | key in after.outs.byAmount
      ensures RowOwned(after, key)
    {
      assert RowOwned(t, key);
    }
  }

  lemma TxSoundIgnoresRows(t: Tables, after: Tables)
    requires TxSound(t)
    requires after == t.(rows := after.rows, blockHeights := after.blockHeights)
    ensures TxSound(after)
  {
    hide ImageSet, DistinctImages, DenseOuts, Integrity;
    IntegrityIgnoresRows(t, after);
  }

  lemma BlockKeepsSound(t: Tables, b: BlockInput)
    requires Sound(t) && AllSupported(b)
    requires AddBlock(t, b).outcome.Ok?
    ensures Sound(AddBlock(t, b).tables)
  {
    hide AddBlock, TxSound, TxsFiled, Linked, AllSupported;
    BlockKeepsLinked(t, b);
    BlockKeepsFiled(t, b);
  }

  // ---------------------------------------------------------------- index integrity, whatever the inputs

  lemma TransactionKeepsIntegrity(t: Tables, tx: Tx, txHash: Hash)
    requires Integrity(t)
    requires AddTransaction(t, tx, txHash).outcome.Ok?
    ensures Integrity(AddTransaction(t, tx, txHash).tables)
  {
    hide AddTransaction, Integrity, OutputsAre, Supported, ImageSet, NewImages;
    if Supported(tx) {
      AddTransactionAdds(t, tx, txHash);
      AddTransactionIntegrity(t, AddTransaction(t, tx, txHash).tables, tx, txHash);
    } else {
      UnsupportedInputAbort(t, tx, txHash);
      IntegrityIgnoresRows(t, AddTransaction(t, tx, txHash).tables);
    }
  }

  lemma {:induction false} TxsKeepIntegrity(t: Tables, txs: seq<Tx>, hashes: seq<Hash>, n: nat)
    requires n <= |txs| && n <= |hashes| && Integrity(t)
    requires AddTxs(t, txs, hashes, n).outcome.Ok?
    ensures Integrity(AddTxs(t, txs, hashes, n).tables)
  {
    hide AddTransaction, Integrity;
    if n == 0 {
    } else {
      TxsKeepIntegrity(t, txs, hashes, n - 1);
      TransactionKeepsIntegrity(AddTxs(t, txs, hashes, n - 1).tables, txs[n - 1], hashes[n - 1]);
    }
  }

  lemma BlockKeepsIntegrity(t: Tables, b: BlockInput)
    requires Integrity(t)
    requires AddBlock(t, b).outcome.Ok?
    ensures Integrity(AddBlock(t, b).tables)
  {
    hide AddBlock, AddBlockTxs, AddTxs, Integrity, NumRctOuts, Records;
    AddBlockRow(t, b);
    AddBlockTxsIsAddTxs(t, b);
    TxsKeepIntegrity(t, AllTxs(b), AllHashes(b.block), |b.txs| + 1);
    IntegrityIgnoresRows(AddBlockTxs(t, b).tables, AddBlock(t, b).tables);
  }
}
