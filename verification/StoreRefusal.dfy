/**
 What a refused block leaves behind: `add_block` does not undo its own writes, so after a throw the tables
 are as before only if the block was refused before the first write.
 */
module StoreRefusal {
  import opened ChainTypes
  import opened StoreSpec
  import opened StoreUndo
  import opened StoreSound
  import opened StoreAccept

  /** The first key image that the input loop meets from input i on. */
  function FirstImage(vin: seq<TxIn>, i: nat): Option<KeyImage>
    requires i <= |vin|
    decreases |vin| - i
  {
    if i == |vin| || vin[i].OtherIn? then None
    else if vin[i].ToKey? then Some(vin[i].keyImage)
    else FirstImage(vin, i + 1)
  }

  /** The block is refused before anything is written: the sizes differ, the first image of the miner
      transaction is spent, or that transaction has no images and its hash is stored. */
  predicate RefusedAtOnce(t: Tables, b: BlockInput) {
    var miner := b.block.minerTx;
    || |b.block.txHashes| != |b.txs|
    || match FirstImage(miner.vin, 0)
       case Some(image) => image in t.spent
       case None => Supported(miner) && miner.hash in t.txIndices
  }

  lemma {:induction false} ScanFirst(spent: set<KeyImage>, vin: seq<TxIn>, i: nat)
    requires i <= |vin|
    ensures var scan := ScanInputs(spent, vin, i);
            && spent <= scan.spent
            && match FirstImage(vin, i)
               case Some(image) => if image in spent then scan == Repeated(spent) else image in scan.spent
               case None => !scan.Repeated? && scan.spent == spent
    decreases |vin| - i
  {
    if i == |vin| {
    } else {
      match vin[i]
      case ToKey(image) => ScanFirst(spent + {image}, vin, i + 1);
      case Gen(_) => ScanFirst(spent, vin, i + 1);
      case OtherIn =>
    }
  }

  // ---------------------------------------------------------------- a stored hash stays

  lemma TransactionKeepsHashes(t: Tables, tx: Tx, txHash: Hash)
    ensures t.txIndices.Keys <= AddTransaction(t, tx, txHash).tables.txIndices.Keys
  {
    hide AddTxOutputs, ScanInputs, ImageSet;
  }

  lemma {:induction false} TxsKeepHashes(t: Tables, txs: seq<Tx>, hashes: seq<Hash>, n: nat)
    requires n <= |txs| && n <= |hashes|
    ensures t.txIndices.Keys <= AddTxs(t, txs, hashes, n).tables.txIndices.Keys
  {
    hide AddTransaction;
    if n == 0 {
    } else {
      TxsKeepHashes(t, txs, hashes, n - 1);
      TransactionKeepsHashes(AddTxs(t, txs, hashes, n - 1).tables, txs[n - 1], hashes[n - 1]);
    }
  }

  lemma BlockKeepsMinerHashes(t: Tables, b: BlockInput)
    requires |b.block.txHashes| == |b.txs|
    ensures var miner := AddTransaction(t, b.block.minerTx, b.block.minerTx.hash);
            miner.tables.txIndices.Keys <= AddBlock(t, b).tables.txIndices.Keys
  {
    hide AddTransaction, AddTxs, NumRctOuts;
    var miner := AddTransaction(t, b.block.minerTx, b.block.minerTx.hash);
    TxsKeepHashes(miner.tables, b.txs, b.block.txHashes, |b.txs|);
  }

  // ---------------------------------------------------------------- the miner transaction

  /** A supported transaction leaves the tables as they were, or its new hash in them, or a new image. */
  lemma MinerLeaves(t: Tables, tx: Tx)
    requires Supported(tx)
    ensures var step := AddTransaction(t, tx, tx.hash);
            match FirstImage(tx.vin, 0)
            case Some(image) =>
              if image in t.spent then step == Step(t, Threw(KeyImageExists))
              else (step.outcome.Threw? && image in step.tables.spent)
                   || (tx.hash !in t.txIndices && tx.hash in step.tables.txIndices)
            case None =>
              if tx.hash in t.txIndices then step == Step(t, Threw(TxExists)) else tx.hash in step.tables.txIndices
  {
    hide AddTxOutputs, ScanInputs, ImageSet, FirstImage;
    ScanFirst(t.spent, tx.vin, 0);
    ScanTx(t.spent, tx.vin);
  }

  lemma RefusedLeavesTables(t: Tables, b: BlockInput)
    requires RefusedAtOnce(t, b)
    ensures AddBlock(t, b).outcome.Threw? && AddBlock(t, b).tables == t
  {
    if |b.block.txHashes| == |b.txs| {
      hide AddTxOutputs, ScanInputs, ImageSet, FirstImage, AddTxs;
      ScanFirst(t.spent, b.block.minerTx.vin, 0);
      ScanTx(t.spent, b.block.minerTx.vin);
    }
  }

  /** A block that throws leaves the tables as they were exactly if it is refused at once. */
  lemma ThrowLeavesTables(t: Tables, b: BlockInput)
    requires Supported(b.block.minerTx) && AddBlock(t, b).outcome.Threw?
    ensures AddBlock(t, b).tables == t <==> RefusedAtOnce(t, b)
  {
    if RefusedAtOnce(t, b) {
      RefusedLeavesTables(t, b);
    } else {
      MinerLeaves(t, b.block.minerTx);
      BlockKeepsMinerHashes(t, b);
      hide AddTransaction, AddTxs, FirstImage, Supported, NumRctOuts, AddRow;
    }
  }

  /** In a store with dense ids and linked blocks, a block is taken or leaves the tables alone if, and with
      a supported miner transaction only if, one of the two conditions on the block holds. */
  lemma TakenOrRefusedAtOnce(t: Tables, b: BlockInput)
    requires Dense(t) && Linked(t)
    ensures RefusedAtOnce(t, b) || BlockTaken(t, b) ==> AddBlock(t, b).outcome.Ok? || AddBlock(t, b).tables == t
    ensures Supported(b.block.minerTx) ==>
              (AddBlock(t, b).outcome.Ok? || AddBlock(t, b).tables == t <==> RefusedAtOnce(t, b) || BlockTaken(t, b))
  {
    hide AddBlock, Dense, Linked, BlockTaken, RefusedAtOnce, Supported;
    BlockAccepted(t, b);
    if RefusedAtOnce(t, b) {
      RefusedLeavesTables(t, b);
    } else if Supported(b.block.minerTx) && AddBlock(t, b).outcome.Threw? {
      ThrowLeavesTables(t, b);
    }
  }
}
