/**
 When `add_block` takes a block: in a store with dense ids it throws for the reasons that make the
 block wrong, and for no other. In particular the append checks of the storage engine never fire.
 The conditions speak only of the spent images, the stored hashes and the block itself.
 */
module StoreAccept {
  import opened ChainTypes
  import opened StoreSpec
  import opened StoreUndo
  import opened StoreExact
  import opened StoreSound

  predicate StorableOutput(tx: Tx, i: nat)
    requires i < |tx.vout|
  {
    tx.vout[i].target.KeyTarget? && (tx.version < 2 ==> tx.vout[i].amount != 0)
  }

  predicate StorableOutputs(tx: Tx) {
    forall i :: 0 <= i < |tx.vout| ==> StorableOutput(tx, i)
  }

  /** A transaction is taken: the images before its first unsupported input are new. If there is no
      such input, its hash is new as well and its outputs are of the right kind. */
  ghost predicate Taken(spent: set<KeyImage>, known: set<Hash>, tx: Tx, txHash: Hash) {
    && NewImages(spent, tx.vin[..FirstOther(tx.vin)])
    && (Supported(tx) ==> txHash !in known && StorableOutputs(tx))
  }

  // ---------------------------------------------------------------- one transaction

  lemma DenseAppends(outs: Outs, amount: nat)
    requires DenseOuts(outs)
    ensures !exists k :: k in outs.byAmount && k.0 == amount && k.1 >= |KeysAt(outs, amount)|
  {
    forall k | k in outs.byAmount && k.0 == amount
      ensures k.1 < |KeysAt(outs, amount)|
    {
      assert (k.0, k.1) in outs.byAmount;
    }
  }

  lemma OutputAccepted(outs: Outs, tx: Tx, txHash: Hash, height: nat, i: nat)
    requires i < |tx.vout| && DenseOuts(outs)
    ensures AddTxOutput(outs, tx, txHash, height, i).outcome.Ok? <==> StorableOutput(tx, i)
  {
    hide NextId, KeysAt, HasGen, DenseOuts;
    DenseAppends(outs, StoredAmount(tx, i));
  }

  lemma {:induction false} OutputsAccepted(outs: Outs, tx: Tx, txHash: Hash, height: nat, n: nat)
    requires n <= |tx.vout| && DenseOuts(outs)
    ensures AddTxOutputs(outs, tx, txHash, height, n).outcome.Ok? <==> forall i :: 0 <= i < n ==> StorableOutput(tx, i)
  {
    hide AddTxOutput, DenseOuts, StorableOutput;
    if n == 0 {
    } else {
      OutputsAccepted(outs, tx, txHash, height, n - 1);
      if AddTxOutputs(outs, tx, txHash, height, n - 1).outcome.Ok? {
        DenseOutputs(outs, tx, txHash, height, n - 1);
        OutputAccepted(AddTxOutputs(outs, tx, txHash, height, n - 1).outs, tx, txHash, height, n - 1);
      }
    }
  }

  /** With dense ids, any transaction is taken if and only if it is as `Taken` says. */
  lemma TransactionAccepted(t: Tables, tx: Tx, txHash: Hash)
    requires Dense(t)
    ensures AddTransaction(t, tx, txHash).outcome.Ok? <==> Taken(t.spent, t.txIndices.Keys, tx, txHash)
  {
    hide AddTxOutputs, ImageSet, StorableOutput, NewImages, DenseOuts, ScanInputs;
    ScanExactly(t.spent, tx.vin);
    assert Supported(tx) <==> FirstOther(tx.vin) == |tx.vin|;
    OutputsAccepted(t.outs, tx, txHash, |t.rows|, |tx.vout|);
  }

  /** The first output that cannot be stored, the number of outputs if there is none. */
  function FirstUnstorable(tx: Tx, n: nat): (k: nat)
    requires n <= |tx.vout|
    ensures k <= n && (forall i :: 0 <= i < k ==> StorableOutput(tx, i)) && (k < n ==> !StorableOutput(tx, k))
  {
    if n == 0 then 0
    else
      var k := FirstUnstorable(tx, n - 1);
      if k < n - 1 || !StorableOutput(tx, n - 1) then k else n
  }

  lemma UnstorableThrows(outs: Outs, tx: Tx, txHash: Hash, height: nat, i: nat)
    requires i < |tx.vout| && !StorableOutput(tx, i)
    ensures AddTxOutput(outs, tx, txHash, height, i) == OutStep(outs, 0, Threw(DbError))
  {
    hide NextId, KeysAt, HasGen;
  }

  lemma {:induction false} OutputsUpTo(outs: Outs, tx: Tx, txHash: Hash, height: nat, k: nat, n: nat)
    requires k < n <= |tx.vout| && DenseOuts(outs)
    requires (forall i :: 0 <= i < k ==> StorableOutput(tx, i)) && !StorableOutput(tx, k)
    ensures AddTxOutputs(outs, tx, txHash, height, n)
            == AddTxOutputs(outs, tx, txHash, height, k).(outcome := Threw(DbError))
  {
    hide DenseOuts, AddTxOutput, StorableOutput;
    if n == k + 1 {
      OutputsAccepted(outs, tx, txHash, height, k);
      UnstorableThrows(AddTxOutputs(outs, tx, txHash, height, k).outs, tx, txHash, height, k);
    } else {
      OutputsUpTo(outs, tx, txHash, height, k, n - 1);
    }
  }

  /** How `add_transaction` ends, and what a throw leaves: after a repeated image its earlier images, for a
      known hash all its images, and for an output that cannot be stored all but the index list, with the
      outputs before that one. */
  lemma TransactionOutcome(t: Tables, tx: Tx, txHash: Hash)
    requires Dense(t)
    ensures var step := AddTransaction(t, tx, txHash);
            var spent := t.spent + ImageSet(tx.vin);
            if !NewImages(t.spent, tx.vin[..FirstOther(tx.vin)]) then
              step == Step(t.(spent := step.tables.spent), Threw(KeyImageExists))
            else if !Supported(tx) then step.outcome == Ok
            else if txHash in t.txIndices then step == Step(t.(spent := spent), Threw(TxExists))
            else if !StorableOutputs(tx) then
              var k := FirstUnstorable(tx, |tx.vout|);
              step == Step(t.(spent := spent,
                              txIndices := t.txIndices[txHash := TxIndex(|t.txs|, tx.unlockTime, |t.rows|)],
                              txs := t.txs[|t.txs| := tx],
                              outs := AddTxOutputs(t.outs, tx, txHash, |t.rows|, k).outs),
                           Threw(DbError))
            else step.outcome == Ok
    ensures AddTransaction(t, tx, txHash).outcome.Threw? ==> BlacklistedBy(t, tx, txHash) == {}
  {
    hide AddTxOutputs, ImageSet, StorableOutput, NewImages, DenseOuts, ScanInputs;
    ScanExactly(t.spent, tx.vin);
    ScanTx(t.spent, tx.vin);
    assert Supported(tx) <==> FirstOther(tx.vin) == |tx.vin|;
    OutputsAccepted(t.outs, tx, txHash, |t.rows|, |tx.vout|);
    var k := FirstUnstorable(tx, |tx.vout|);
    if k < |tx.vout| {
      OutputsUpTo(t.outs, tx, txHash, |t.rows|, k, |tx.vout|);
    }
  }

  /** What a taken transaction leaves for the next one: dense ids, the spent images and the stored hashes. */
  lemma TransactionLeaves(t: Tables, tx: Tx, txHash: Hash)
    requires Dense(t) && AddTransaction(t, tx, txHash).outcome.Ok?
    ensures var after := AddTransaction(t, tx, txHash).tables;
            && Dense(after)
            && after.spent == SpentWith(t.spent, tx)
            && after.txIndices.Keys == KnownWith(t.txIndices.Keys, tx, txHash)
  {
    if Supported(tx) {
      hide AddTransaction, AddTxOutputs, ImageSet, DenseOuts, Supported, Dense;
      AddTransactionWrites(t, tx, txHash);
      DenseTransaction(t, tx, txHash);
    } else {
      hide AddTransaction, ImageSet, NewImages, DenseOuts;
      UnsupportedInputAbort(t, tx, txHash);
    }
  }

  // ---------------------------------------------------------------- the transactions of a block

  /** A dropped transaction takes its images off the spent set and leaves no hash. */
  ghost function SpentWith(spent: set<KeyImage>, tx: Tx): set<KeyImage> {
    if Supported(tx) then spent + ImageSet(tx.vin) else spent - ImageSet(tx.vin)
  }

  ghost function KnownWith(known: set<Hash>, tx: Tx, txHash: Hash): set<Hash> {
    if Supported(tx) then known + {txHash} else known
  }

  ghost function SpentAfter(spent: set<KeyImage>, txs: seq<Tx>, n: nat): set<KeyImage>
    requires n <= |txs|
  {
    if n == 0 then spent else SpentWith(SpentAfter(spent, txs, n - 1), txs[n - 1])
  }

  ghost function KnownAfter(known: set<Hash>, txs: seq<Tx>, hashes: seq<Hash>, n: nat): set<Hash>
    requires n <= |txs| && n <= |hashes|
  {
    if n == 0 then known else KnownWith(KnownAfter(known, txs, hashes, n - 1), txs[n - 1], hashes[n - 1])
  }

  /** The first n transactions are taken, each after those before it. */
  ghost predicate AllTaken(spent: set<KeyImage>, known: set<Hash>, txs: seq<Tx>, hashes: seq<Hash>, n: nat)
    requires n <= |txs| && n <= |hashes|
  {
    forall i :: 0 <= i < n ==> Taken(SpentAfter(spent, txs, i), KnownAfter(known, txs, hashes, i), txs[i], hashes[i])
  }

  lemma {:induction false} TxsAccepted(t: Tables, txs: seq<Tx>, hashes: seq<Hash>, n: nat)
    requires n <= |txs| && n <= |hashes| && Dense(t)
    ensures var step := AddTxs(t, txs, hashes, n);
            && (step.outcome.Ok? <==> AllTaken(t.spent, t.txIndices.Keys, txs, hashes, n))
            && (step.outcome.Ok? ==>
                  && Dense(step.tables)
                  && step.tables.spent == SpentAfter(t.spent, txs, n)
                  && step.tables.txIndices.Keys == KnownAfter(t.txIndices.Keys, txs, hashes, n))
  {
    hide AddTransaction, Taken, Dense, SpentWith, KnownWith;
    if n == 0 {
    } else {
      TxsAccepted(t, txs, hashes, n - 1);
      var before := AddTxs(t, txs, hashes, n - 1);
      if before.outcome.Ok? {
        TransactionAccepted(before.tables, txs[n - 1], hashes[n - 1]);
        if AddTransaction(before.tables, txs[n - 1], hashes[n - 1]).outcome.Ok? {
          TransactionLeaves(before.tables, txs[n - 1], hashes[n - 1]);
        }
      }
    }
  }

  // ---------------------------------------------------------------- a block

  /** The block is new and its parent is the top block. */
  ghost predicate Extends(t: Tables, block: Block) {
    && (forall r :: 0 <= r < |t.rows| ==> t.rows[r].block.hash != block.hash)
    && (|t.rows| > 0 ==> block.prevId == t.rows[|t.rows| - 1].block.hash)
  }

  ghost predicate HasBlock(t: Tables, hash: Hash) {
    exists r :: 0 <= r < |t.rows| && t.rows[r].block.hash == hash
  }

  lemma RowAccepted(t: Tables, mid: Tables, b: BlockInput, numRct: nat)
    requires Linked(t) && mid.rows == t.rows && mid.blockHeights == t.blockHeights
    ensures AddRow(mid, b, numRct).outcome.Ok? <==> Extends(t, b.block)
    ensures !Extends(t, b.block) ==>
              AddRow(mid, b, numRct) == Step(mid, Threw(if HasBlock(t, b.block.hash) then BlockExists
                                                        else if HasBlock(t, b.block.prevId) then BlockParentDne
                                                        else DbError))
  {
    assert forall h :: h in t.blockHeights <==> HasBlock(t, h);
  }

  /** As many hashes as transactions are listed, each transaction is taken after those before it, the
      block is new and its parent is the top block. */
  ghost predicate BlockTaken(t: Tables, b: BlockInput) {
    && |b.block.txHashes| == |b.txs|
    && AllTaken(t.spent, t.txIndices.Keys, AllTxs(b), AllHashes(b.block), |b.txs| + 1)
    && Extends(t, b.block)
  }

  /** With dense ids and linked blocks, `add_block` takes a block if and only if it is as `BlockTaken` says. */
  lemma BlockAccepted(t: Tables, b: BlockInput)
    requires Dense(t) && Linked(t)
    ensures AddBlock(t, b).outcome.Ok? <==> BlockTaken(t, b)
  {
    if |b.block.txHashes| == |b.txs| {
      hide AddTransaction, AddTxs, AddRow, AllTaken, Dense, Linked, Extends, NumRctOuts;
      var miner := AddTransaction(t, b.block.minerTx, b.block.minerTx.hash);
      AddTransactionKeepsRows(t, b.block.minerTx, b.block.minerTx.hash);
      AddTxsKeepsRows(miner.tables, b.txs, b.block.txHashes, |b.txs|);
      TxsAccepted(t, AllTxs(b), AllHashes(b.block), |b.txs| + 1);
      AddBlockTxsIsAddTxs(t, b);
      RowAccepted(t, AddBlockTxs(t, b).tables, b, NumRctOuts(b));
    }
  }

  /** Why a block is refused, and what it leaves. As many hashes as transactions must be listed, or nothing
      happens. The first transaction k that is not taken ends it, and leaves what it left after the ones
      before it. If all are taken, the row must extend the chain. */
  lemma BlockOutcome(t: Tables, b: BlockInput, k: nat)
    requires Dense(t) && Linked(t)
    requires k <= |b.txs| + 1 && (|b.block.txHashes| == |b.txs| ==>
               && AllTaken(t.spent, t.txIndices.Keys, AllTxs(b), AllHashes(b.block), k)
               && (k <= |b.txs| ==> !AllTaken(t.spent, t.txIndices.Keys, AllTxs(b), AllHashes(b.block), k + 1)))
    ensures |b.block.txHashes| != |b.txs| ==> AddBlock(t, b) == Step(t, Threw(SizeMismatch))
    ensures |b.block.txHashes| == |b.txs| ==>
              var before := AddTxs(t, AllTxs(b), AllHashes(b.block), k);
              && before.outcome.Ok? && Dense(before.tables)
              && (k <= |b.txs| ==>
                    && AddBlock(t, b) == AddTransaction(before.tables, AllTxs(b)[k], AllHashes(b.block)[k])
                    && AddBlock(t, b).outcome.Threw?)
              && (k > |b.txs| && !Extends(t, b.block) ==>
                    AddBlock(t, b) == Step(before.tables, Threw(if HasBlock(t, b.block.hash) then BlockExists
                                                                else if HasBlock(t, b.block.prevId) then BlockParentDne
                                                                else DbError)))
  {
    hide AddBlock, AddTransaction, AddTxs, AllTaken, Dense, Linked, Extends, HasBlock;
    if |b.block.txHashes| != |b.txs| {
      SizesDiffer(t, b);
    } else {
      TxsAccepted(t, AllTxs(b), AllHashes(b.block), k);
      if k <= |b.txs| {
        TxsAccepted(t, AllTxs(b), AllHashes(b.block), k + 1);
        TxEndsBlock(t, b, k);
      } else if !Extends(t, b.block) {
        RowEndsBlock(t, b);
      }
    }
  }

  lemma SizesDiffer(t: Tables, b: BlockInput)
    requires |b.block.txHashes| != |b.txs|
    ensures AddBlock(t, b) == Step(t, Threw(SizeMismatch))
  {
  }

  lemma TxEndsBlock(t: Tables, b: BlockInput, k: nat)
    requires |b.block.txHashes| == |b.txs| && k <= |b.txs|
    requires AddTxs(t, AllTxs(b), AllHashes(b.block), k).outcome.Ok?
    requires AddTxs(t, AllTxs(b), AllHashes(b.block), k + 1).outcome.Threw?
    ensures AddBlock(t, b) == AddTransaction(AddTxs(t, AllTxs(b), AllHashes(b.block), k).tables, AllTxs(b)[k],
                                             AllHashes(b.block)[k])
    ensures AddBlock(t, b).outcome.Threw?
  {
    hide AddTransaction, AddTxs, AddRow, AddBlockTxs, NumRctOuts;
    var txs, hashes := AllTxs(b), AllHashes(b.block);
    AddBlockTxsIsAddTxs(t, b);
    NextTx(t, txs, hashes, k);
    ThrowEnds(t, txs, hashes, k + 1, |b.txs| + 1);
  }

  lemma RowEndsBlock(t: Tables, b: BlockInput)
    requires Linked(t) && |b.block.txHashes| == |b.txs| && !Extends(t, b.block)
    requires AddTxs(t, AllTxs(b), AllHashes(b.block), |b.txs| + 1).outcome.Ok?
    ensures AddBlock(t, b) == Step(AddTxs(t, AllTxs(b), AllHashes(b.block), |b.txs| + 1).tables,
                                   Threw(if HasBlock(t, b.block.hash) then BlockExists
                                         else if HasBlock(t, b.block.prevId) then BlockParentDne
                                         else DbError))
  {
    hide AddTransaction, AddTxs, AddRow, AddBlockTxs, NumRctOuts, Linked, Extends, HasBlock;
    AddBlockTxsIsAddTxs(t, b);
    AddTxsKeepsRows(t, AllTxs(b), AllHashes(b.block), |b.txs| + 1);
    RowAccepted(t, AddBlockTxs(t, b).tables, b, NumRctOuts(b));
  }

  lemma NextTx(t: Tables, txs: seq<Tx>, hashes: seq<Hash>, k: nat)
    requires k < |txs| && k < |hashes| && AddTxs(t, txs, hashes, k).outcome.Ok?
    ensures AddTxs(t, txs, hashes, k + 1) == AddTransaction(AddTxs(t, txs, hashes, k).tables, txs[k], hashes[k])
  {
    hide AddTransaction;
  }

  /** Whatever is taken, ids stay dense and blocks linked. */
  lemma BlockLeaves(t: Tables, b: BlockInput)
    requires Dense(t) && Linked(t) && AddBlock(t, b).outcome.Ok?
    ensures Dense(AddBlock(t, b).tables) && Linked(AddBlock(t, b).tables)
  {
    hide AddBlock, AddBlockTxs, AddTxs, AllTaken, Dense, Linked, NumRctOuts, Records;
    BlockKeepsLinked(t, b);
    AddBlockRow(t, b);
    AddBlockTxsIsAddTxs(t, b);
    TxsAccepted(t, AllTxs(b), AllHashes(b.block), |b.txs| + 1);
    DenseIgnoresRows(AddBlockTxs(t, b).tables, AddBlock(t, b).tables);
  }

  lemma DenseIgnoresRows(t: Tables, after: Tables)
    requires Dense(t) && after == t.(rows := after.rows, blockHeights := after.blockHeights)
    ensures Dense(after)
  {
    hide DenseOuts;
  }

  // ---------------------------------------------------------------- supported transactions need no order

  /** A transaction fits the store: new hash, new and distinct key images, outputs of the right kind. */
  ghost predicate Fits(spent: set<KeyImage>, known: set<Hash>, tx: Tx, txHash: Hash) {
    txHash !in known && NewImages(spent, tx.vin) && StorableOutputs(tx)
  }

  /** The first n transactions fit the store and each other. */
  ghost predicate AllFit(spent: set<KeyImage>, known: set<Hash>, txs: seq<Tx>, hashes: seq<Hash>, n: nat)
    requires n <= |txs| && n <= |hashes|
  {
    && (forall i :: 0 <= i < n ==> Fits(spent, known, txs[i], hashes[i]))
    && (forall i, j :: 0 <= i < j < n ==> hashes[i] != hashes[j] && ImageSet(txs[i].vin) !! ImageSet(txs[j].vin))
  }

  ghost predicate ImageAmong(txs: seq<Tx>, n: nat, k: KeyImage)
    requires n <= |txs|
  {
    exists i :: 0 <= i < n && k in ImageSet(txs[i].vin)
  }

  ghost predicate HashAmong(hashes: seq<Hash>, n: nat, h: Hash)
    requires n <= |hashes|
  {
    exists i :: 0 <= i < n && h == hashes[i]
  }

  lemma {:induction false} AfterSupported(spent: set<KeyImage>, known: set<Hash>, txs: seq<Tx>, hashes: seq<Hash>,
                                          n: nat)
    requires n <= |txs| && n <= |hashes| && forall i :: 0 <= i < n ==> Supported(txs[i])
    ensures forall k :: k in SpentAfter(spent, txs, n) <==> k in spent || ImageAmong(txs, n, k)
    ensures forall h :: h in KnownAfter(known, txs, hashes, n) <==> h in known || HashAmong(hashes, n, h)
  {
    hide ImageSet, Supported;
    if n == 0 {
    } else {
      AfterSupported(spent, known, txs, hashes, n - 1);
      assert forall k :: ImageAmong(txs, n, k) <==> ImageAmong(txs, n - 1, k) || k in ImageSet(txs[n - 1].vin);
      assert forall h :: HashAmong(hashes, n, h) <==> HashAmong(hashes, n - 1, h) || h == hashes[n - 1];
    }
  }

  /** The next transaction is taken after the first n exactly when it fits the store and each of them. */
  lemma TakenNext(spent: set<KeyImage>, known: set<Hash>, txs: seq<Tx>, hashes: seq<Hash>, n: nat)
    requires n < |txs| && n < |hashes| && forall i :: 0 <= i <= n ==> Supported(txs[i])
    ensures Taken(SpentAfter(spent, txs, n), KnownAfter(known, txs, hashes, n), txs[n], hashes[n]) <==>
              Fits(spent, known, txs[n], hashes[n])
              && forall i :: 0 <= i < n ==> hashes[i] != hashes[n] && ImageSet(txs[i].vin) !! ImageSet(txs[n].vin)
  {
    var tx := txs[n];
    assert Supported(tx) && FirstOther(tx.vin) == |tx.vin| && tx.vin[..|tx.vin|] == tx.vin;
    hide ImageSet, Supported, DistinctImages, StorableOutputs, SpentAfter, KnownAfter;
    AfterSupported(spent, known, txs, hashes, n);
    var before := SpentAfter(spent, txs, n);
    assert before !! ImageSet(tx.vin) <==>
           spent !! ImageSet(tx.vin) && forall i :: 0 <= i < n ==> ImageSet(txs[i].vin) !! ImageSet(tx.vin) by {
      forall i, k | 0 <= i < n && k in ImageSet(txs[i].vin)
        ensures k in before
      {
        assert ImageAmong(txs, n, k);
      }
    }
  }

  /** So a block of supported transactions needs no order: they must fit the store and each other. */
  lemma {:induction false} SupportedTakenIsFit(spent: set<KeyImage>, known: set<Hash>, txs: seq<Tx>,
                                               hashes: seq<Hash>, n: nat)
    requires n <= |txs| && n <= |hashes| && forall i :: 0 <= i < n ==> Supported(txs[i])
    ensures AllTaken(spent, known, txs, hashes, n) <==> AllFit(spent, known, txs, hashes, n)
  {
    hide ImageSet, Supported, Fits, Taken, SpentAfter, KnownAfter;
    if n == 0 {
    } else {
      SupportedTakenIsFit(spent, known, txs, hashes, n - 1);
      TakenNext(spent, known, txs, hashes, n - 1);
      assert AllTaken(spent, known, txs, hashes, n) <==>
             AllTaken(spent, known, txs, hashes, n - 1)
             && Taken(SpentAfter(spent, txs, n - 1), KnownAfter(known, txs, hashes, n - 1), txs[n - 1], hashes[n - 1]);
    }
  }
}
