/**
 `pop_block` undoes `add_block`: it does so exactly for the blocks that are `UndoSafe`.
 */
module StoreUndo {
  import opened ChainTypes
  import opened StoreSpec

  /** No input makes `add_transaction` drop the transaction. */
  predicate Supported(tx: Tx) {
    forall i :: 0 <= i < |tx.vin| ==> !tx.vin[i].OtherIn?
  }

  /** A generation input next to other inputs sends a non-zero output of a v2 transaction under
      amount 0, but its removal looks under the output's own amount. */
  predicate Misfiled(tx: Tx) {
    && tx.version >= 2 && |tx.vin| > 1 && (exists i :: 0 <= i < |tx.vin| && tx.vin[i].Gen?)
    && (exists i :: 0 <= i < |tx.vout| && tx.vout[i].amount != 0)
  }

  predicate TxUndoSafe(tx: Tx) {
    Supported(tx) && !Misfiled(tx)
  }

  predicate UndoSafe(b: BlockInput) {
    TxUndoSafe(b.block.minerTx) && forall i :: 0 <= i < |b.txs| ==> TxUndoSafe(b.txs[i])
  }

  function Reversed<T>(s: seq<T>): seq<T> {
    if s == [] then [] else [s[|s| - 1]] + Reversed(s[..|s| - 1])
  }

  // ---------------------------------------------------------------- inputs

  function ImagesFrom(vin: seq<TxIn>, i: nat): set<KeyImage> {
    set j | i <= j < |vin| && vin[j].ToKey? :: vin[j].keyImage
  }

  lemma ImagesAreInputs(vin: seq<TxIn>)
    ensures forall k :: k in ImageSet(vin) <==> ToKey(k) in vin
  {
    forall k | ToKey(k) in vin
      ensures k in ImageSet(vin)
    {
      var i :| 0 <= i < |vin| && vin[i] == ToKey(k);
    }
  }

  lemma ImagesFromStep(vin: seq<TxIn>, i: nat)
    requires i < |vin|
    ensures ImagesFrom(vin, i) == ImagesFrom(vin, i + 1) + if vin[i].ToKey? then {vin[i].keyImage} else {}
  {
    if vin[i].ToKey? {
      assert vin[i].keyImage in ImagesFrom(vin, i);
    }
    forall k | k in ImagesFrom(vin, i)
      ensures k in ImagesFrom(vin, i + 1) || (vin[i].ToKey? && k == vin[i].keyImage)
    {
      var j :| i <= j < |vin| && vin[j].ToKey? && vin[j].keyImage == k;
      if j != i {
        assert i + 1 <= j;
      }
    }
  }

  lemma {:induction false} ScanResult(spent: set<KeyImage>, vin: seq<TxIn>, i: nat)
    requires i <= |vin|
    ensures var scan := ScanInputs(spent, vin, i);
            && (scan.Unsupported? ==> exists j :: i <= j < |vin| && vin[j].OtherIn?)
            && (scan.Unsupported? ==> spent <= scan.spent <= spent + ImagesFrom(vin, i))
            && (scan.Scanned? ==> forall j :: i <= j < |vin| ==> !vin[j].OtherIn?)
            && (scan.Scanned? ==> spent !! ImagesFrom(vin, i) && scan.spent == spent + ImagesFrom(vin, i))
    decreases |vin| - i
  {
    if i == |vin| {
    } else {
      ImagesFromStep(vin, i);
      match vin[i]
      case ToKey(image) => if image !in spent { ScanResult(spent + {image}, vin, i + 1); }
      case Gen(_) => ScanResult(spent, vin, i + 1);
      case OtherIn =>
    }
  }

  lemma ScanTx(spent: set<KeyImage>, vin: seq<TxIn>)
    ensures var scan := ScanInputs(spent, vin, 0);
            && (scan.Unsupported? ==> exists j :: 0 <= j < |vin| && vin[j].OtherIn?)
            && (scan.Unsupported? ==> scan.spent - ImageSet(vin) == spent - ImageSet(vin))
            && (scan.Scanned? ==> forall j :: 0 <= j < |vin| ==> !vin[j].OtherIn?)
            && (scan.Scanned? ==> spent !! ImageSet(vin) && scan.spent == spent + ImageSet(vin))
  {
    ScanResult(spent, vin, 0);
    assert ImagesFrom(vin, 0) == ImageSet(vin);
  }

  /** The position of the first unsupported input, the number of inputs if there is none. */
  function FirstOther(vin: seq<TxIn>): (j: nat)
    ensures j <= |vin|
    ensures forall i :: 0 <= i < j ==> !vin[i].OtherIn?
    ensures j < |vin| ==> vin[j].OtherIn?
  {
    if vin == [] || vin[0].OtherIn? then 0 else 1 + FirstOther(vin[1..])
  }

  ghost predicate DistinctImages(vin: seq<TxIn>) {
    forall i, j :: 0 <= i < j < |vin| && vin[i].ToKey? && vin[j].ToKey? ==> vin[i].keyImage != vin[j].keyImage
  }

  /** None of the inputs' key images is spent, and no two of them are the same. */
  ghost predicate NewImages(spent: set<KeyImage>, vin: seq<TxIn>) {
    spent !! ImageSet(vin) && DistinctImages(vin)
  }

  /** The same of the inputs from i up to j. */
  ghost predicate NewBetween(spent: set<KeyImage>, vin: seq<TxIn>, i: nat, j: nat)
    requires i <= j <= |vin|
  {
    && (forall k :: i <= k < j && vin[k].ToKey? ==> vin[k].keyImage !in spent)
    && (forall k, l :: i <= k < l < j && vin[k].ToKey? && vin[l].ToKey? ==> vin[k].keyImage != vin[l].keyImage)
  }

  lemma {:induction false} ScanBetween(spent: set<KeyImage>, vin: seq<TxIn>, i: nat, j: nat)
    requires i <= j <= |vin|
    requires forall k :: i <= k < j ==> !vin[k].OtherIn?
    requires j < |vin| ==> vin[j].OtherIn?
    ensures var scan := ScanInputs(spent, vin, i);
            && (scan.Repeated? <==> !NewBetween(spent, vin, i, j))
            && (scan.Scanned? <==> NewBetween(spent, vin, i, j) && j == |vin|)
            && spent <= scan.spent <= spent + ImageSet(vin[..j])
    decreases j - i
  {
    if i == j {
    } else {
      match vin[i]
      case ToKey(image) =>
        if image !in spent {
          ScanBetween(spent + {image}, vin, i + 1, j);
          assert vin[..j][i].keyImage in ImageSet(vin[..j]);
        }
      case Gen(_) => ScanBetween(spent, vin, i + 1, j);
    }
  }

  /** How the input loop ends: it refuses a repeat exactly when the images before the first unsupported
      input are not new, and otherwise stops at that input, if there is one. */
  lemma ScanExactly(spent: set<KeyImage>, vin: seq<TxIn>)
    ensures var scan := ScanInputs(spent, vin, 0);
            var first := vin[..FirstOther(vin)];
            && (scan.Repeated? <==> !NewImages(spent, first))
            && (scan.Scanned? <==> NewImages(spent, first) && FirstOther(vin) == |vin|)
            && (scan.Unsupported? <==> NewImages(spent, first) && FirstOther(vin) < |vin|)
            && spent <= scan.spent <= spent + ImageSet(first)
  {
    var j := FirstOther(vin);
    ScanBetween(spent, vin, 0, j);
    NewBetweenIsNew(spent, vin, j);
  }

  /** A repeat is refused at the first input whose image is spent or met before; the images before it
      stay in the spent set. */
  lemma {:induction false} RepeatLeavesEarlier(spent: set<KeyImage>, vin: seq<TxIn>, i: nat)
    requires i <= |vin| && ScanInputs(spent, vin, i).Repeated?
    ensures exists k :: i <= k < |vin| && RefusedAt(spent, vin, i, k, ScanInputs(spent, vin, i).spent)
    decreases |vin| - i
  {
    match vin[i]
    case ToKey(image) =>
      if image in spent {
        assert vin[i..i] == [] && RefusedAt(spent, vin, i, i, spent);
      } else {
        RepeatLeavesEarlier(spent + {image}, vin, i + 1);
        var left := ScanInputs(spent, vin, i).spent;
        var k :| i + 1 <= k < |vin| && RefusedAt(spent + {image}, vin, i + 1, k, left);
        assert vin[i..k] == [vin[i]] + vin[i + 1..k];
        assert RefusedAt(spent, vin, i, k, left);
      }
    case Gen(_) =>
      RepeatLeavesEarlier(spent, vin, i + 1);
      var left := ScanInputs(spent, vin, i).spent;
      var k :| i + 1 <= k < |vin| && RefusedAt(spent, vin, i + 1, k, left);
      assert vin[i..k] == [vin[i]] + vin[i + 1..k];
      assert RefusedAt(spent, vin, i, k, left);
  }

  /** Input k repeats an image, and the images of the inputs from i up to it have joined the spent set. */
  ghost predicate RefusedAt(spent: set<KeyImage>, vin: seq<TxIn>, i: nat, k: nat, left: set<KeyImage>)
    requires i <= k < |vin|
  {
    && vin[k].ToKey? && vin[k].keyImage in left
    && (forall x :: x in left <==> x in spent || ToKey(x) in vin[i..k])
  }

  lemma NewBetweenIsNew(spent: set<KeyImage>, vin: seq<TxIn>, j: nat)
    requires j <= |vin|
    ensures NewBetween(spent, vin, 0, j) <==> NewImages(spent, vin[..j])
  {
    var first := vin[..j];
    assert forall k :: 0 <= k < j ==> first[k] == vin[k];
    if NewImages(spent, first) {
      forall k | 0 <= k < j && vin[k].ToKey?
        ensures vin[k].keyImage !in spent
      {
        assert first[k].keyImage in ImageSet(first);
      }
    }
  }

  /** A transaction with an unsupported input. If the images before that input are new, every other
      table is left alone and the spent set loses all the transaction's images, so it is the old set
      exactly when none of them was spent before. If they are not, the repeat is refused, with some of
      them left in the spent set. */
  lemma UnsupportedInputAbort(t: Tables, tx: Tx, txHash: Hash)
    requires !Supported(tx)
    ensures var first := tx.vin[..FirstOther(tx.vin)];
            var step := AddTransaction(t, tx, txHash);
            if NewImages(t.spent, first) then
              && step == Step(t.(spent := t.spent - ImageSet(tx.vin)), Ok)
              && (forall k :: k in step.tables.spent <==> k in t.spent && ToKey(k) !in tx.vin)
              && (step.tables == t <==> t.spent !! ImageSet(tx.vin))
            else
              && step == Step(t.(spent := step.tables.spent), Threw(KeyImageExists))
              && t.spent <= step.tables.spent <= t.spent + ImageSet(first)
    ensures BlacklistedBy(t, tx, txHash) == {}
  {
    hide NewImages, ImageSet, ScanInputs, AddTxOutputs, AddTransactionData;
    ScanExactly(t.spent, tx.vin);
    ScanTx(t.spent, tx.vin);
    ImagesAreInputs(tx.vin);
    assert t.spent - ImageSet(tx.vin) == t.spent <==> t.spent !! ImageSet(tx.vin);
  }

  // ---------------------------------------------------------------- outputs

  lemma SafeAmounts(tx: Tx)
    ensures !Misfiled(tx) <==> forall i :: 0 <= i < |tx.vout| ==> StoredAmount(tx, i) == RemovalAmount(tx, i)
  {
    if Misfiled(tx) {
      var i :| 0 <= i < |tx.vout| && tx.vout[i].amount != 0;
      assert StoredAmount(tx, i) != RemovalAmount(tx, i);
    }
    if OnlyGen(tx.vin) {
      assert tx.vin[0].Gen?;
    }
  }

  lemma UndoOutput(outs: Outs, txHash: Hash, amount: nat, target: Target, localIndex: nat,
                   unlockTime: nat, height: nat, commitment: Option<Commitment>)
    requires AddOutput(outs, txHash, amount, target, localIndex, unlockTime, height, commitment).outcome.Ok?
    ensures var step := AddOutput(outs, txHash, amount, target, localIndex, unlockTime, height, commitment);
            RemoveOutput(step.outs, amount, step.index) == OutStep(outs, step.index, Ok)
  {
    var step := AddOutput(outs, txHash, amount, target, localIndex, unlockTime, height, commitment);
    var id := NextId(outs.byId);
    assert id !in outs.byId && (amount, step.index) !in outs.byAmount;
    assert step.outs.byId - {id} == outs.byId;
    assert step.outs.byAmount - {(amount, step.index)} == outs.byAmount;
  }

  lemma {:induction false} UndoOutputs(outs: Outs, tx: Tx, txHash: Hash, height: nat, n: nat, indices: seq<nat>)
    requires n <= |tx.vout| && !Misfiled(tx)
    requires AddTxOutputs(outs, tx, txHash, height, n).outcome.Ok?
    requires AddTxOutputs(outs, tx, txHash, height, n).indices <= indices
    ensures RemoveTxOutputs(AddTxOutputs(outs, tx, txHash, height, n).outs, tx, indices, n)
            == OutsStep(outs, indices, Ok)
  {
    hide AddOutput, RemoveOutput, StoredUnlockTime, PassedCommitment, Misfiled, HasGen, OnlyGen,
         StoredAmount, RemovalAmount;
    if n == 0 {
    } else {
      var before := AddTxOutputs(outs, tx, txHash, height, n - 1);
      var after := AddTxOutputs(outs, tx, txHash, height, n);
      SafeAmounts(tx);
      UndoOutput(before.outs, txHash, StoredAmount(tx, n - 1), tx.vout[n - 1].target, n - 1,
                 StoredUnlockTime(tx, n - 1), height, PassedCommitment(tx, n - 1));
      assert after.indices[n - 1] == indices[n - 1];
      assert before.indices <= after.indices <= indices;
      UndoOutputs(outs, tx, txHash, height, n - 1, indices);
    }
  }

  // ---------------------------------------------------------------- transactions

  lemma MapUndo<K, V>(m: map<K, V>, k: K, v: V)
    requires k !in m
    ensures m[k := v] - {k} == m
  {
  }

  /** All the rows that a successful `add_transaction` of a supported transaction writes. */
  lemma AddTransactionWrites(t: Tables, tx: Tx, txHash: Hash)
    requires Supported(tx)
    requires AddTransaction(t, tx, txHash).outcome.Ok?
    ensures var id := |t.txs|;
            var added := AddTxOutputs(t.outs, tx, txHash, |t.rows|, |tx.vout|);
            && t.spent !! ImageSet(tx.vin)
            && txHash !in t.txIndices
            && (forall k :: k in t.txs ==> k < id) && (forall k :: k in t.txOutputs ==> k < id)
            && added.outcome.Ok?
            && AddTransaction(t, tx, txHash).tables
               == t.(spent := t.spent + ImageSet(tx.vin),
                     txIndices := t.txIndices[txHash := TxIndex(id, tx.unlockTime, |t.rows|)],
                     txs := t.txs[id := tx],
                     txOutputs := t.txOutputs[id := added.indices],
                     outs := added.outs)
  {
    hide AddTxOutputs, ScanInputs, ImageSet;
    ScanTx(t.spent, tx.vin);
  }

  /** What goes on the blacklist are the recorded indices of a version 2 stake, and nothing else. */
  lemma BlacklistIsRecordedIndices(t: Tables, tx: Tx, txHash: Hash)
    requires Supported(tx)
    requires AddTransaction(t, tx, txHash).outcome.Ok?
    ensures |t.txs| in AddTransaction(t, tx, txHash).tables.txOutputs
    ensures forall k :: k in BlacklistedBy(t, tx, txHash) <==>
              tx.version >= V2_RINGCT && tx.stakes && k in AddTransaction(t, tx, txHash).tables.txOutputs[|t.txs|]
  {
    hide AddTransaction, AddTxOutputs, ScanInputs, ImageSet, Supported;
    AddTransactionWrites(t, tx, txHash);
    assert ScanInputs(t.spent, tx.vin, 0).Scanned? by { AcceptedIsScanned(t, tx, txHash); }
  }

  lemma AcceptedIsScanned(t: Tables, tx: Tx, txHash: Hash)
    requires Supported(tx)
    requires AddTransaction(t, tx, txHash).outcome.Ok?
    ensures ScanInputs(t.spent, tx.vin, 0).Scanned?
  {
    hide ScanInputs, AddTxOutputs, ImageSet, AddTransactionData, AddIndices;
    ScanTx(t.spent, tx.vin);
  }

  lemma UndoTransaction(t: Tables, tx: Tx, txHash: Hash)
    requires TxUndoSafe(tx)
    requires AddTransaction(t, tx, txHash).outcome.Ok?
    ensures StoredTx(AddTransaction(t, tx, txHash).tables, txHash) == Some(tx)
    ensures RemoveTransaction(AddTransaction(t, tx, txHash).tables, txHash) == Step(t, Ok)
  {
    hide AddTransaction, AddTxOutputs, RemoveTxOutputs, ImageSet, Misfiled, Supported;
    AddTransactionWrites(t, tx, txHash);
    var added := AddTransaction(t, tx, txHash).tables;
    var id := |t.txs|;
    var outs := AddTxOutputs(t.outs, tx, txHash, |t.rows|, |tx.vout|);
    UndoOutputs(t.outs, tx, txHash, |t.rows|, |tx.vout|, outs.indices);
    assert added.spent - ImageSet(tx.vin) == t.spent;
    MapUndo(t.txs, id, tx);
    MapUndo(t.txOutputs, id, outs.indices);
    MapUndo(t.txIndices, txHash, added.txIndices[txHash]);
  }

  lemma {:induction false} UndoTxs(t: Tables, txs: seq<Tx>, hashes: seq<Hash>, n: nat, popped: seq<Tx>)
    requires n <= |txs| && n <= |hashes|
    requires forall i :: 0 <= i < n ==> TxUndoSafe(txs[i])
    requires AddTxs(t, txs, hashes, n).outcome.Ok?
    ensures PopTxs(AddTxs(t, txs, hashes, n).tables, hashes, n, popped)
            == PopStep(t, popped + Reversed(txs[..n]), Ok)
  {
    hide AddTransaction, RemoveTransaction, StoredTx, TxUndoSafe;
    if n == 0 {
    } else {
      var before := AddTxs(t, txs, hashes, n - 1);
      UndoTransaction(before.tables, txs[n - 1], hashes[n - 1]);
      UndoTxs(t, txs, hashes, n - 1, popped + [txs[n - 1]]);
      assert txs[..n][..n - 1] == txs[..n - 1];
      assert popped + [txs[n - 1]] + Reversed(txs[..n - 1]) == popped + Reversed(txs[..n]);
    }
  }

  lemma DataKeepsRows(t: Tables, tx: Tx, txHash: Hash)
    ensures AddTransactionData(t, tx, txHash).tables.rows == t.rows
    ensures AddTransactionData(t, tx, txHash).tables.blockHeights == t.blockHeights
  {
  }

  lemma IndicesKeepRows(t: Tables, id: nat, indices: seq<nat>)
    ensures AddIndices(t, id, indices).tables.rows == t.rows
    ensures AddIndices(t, id, indices).tables.blockHeights == t.blockHeights
  {
  }

  lemma AddTransactionKeepsRows(t: Tables, tx: Tx, txHash: Hash)
    ensures AddTransaction(t, tx, txHash).tables.rows == t.rows
    ensures AddTransaction(t, tx, txHash).tables.blockHeights == t.blockHeights
  {
    hide AddTxOutputs, ScanInputs, ImageSet, AddTransactionData, AddIndices;
    var scan := ScanInputs(t.spent, tx.vin, 0);
    if scan.Scanned? {
      DataKeepsRows(t.(spent := scan.spent), tx, txHash);
      var data := AddTransactionData(t.(spent := scan.spent), tx, txHash);
      var added := AddTxOutputs(t.outs, tx, txHash, |t.rows|, |tx.vout|);
      IndicesKeepRows(data.tables.(outs := added.outs), |t.txs|, added.indices);
    }
  }

  lemma {:induction false} AddTxsKeepsRows(t: Tables, txs: seq<Tx>, hashes: seq<Hash>, n: nat)
    requires n <= |txs| && n <= |hashes|
    ensures AddTxs(t, txs, hashes, n).tables.rows == t.rows
    ensures AddTxs(t, txs, hashes, n).tables.blockHeights == t.blockHeights
  {
    hide AddTransaction;
    if n == 0 {
    } else {
      AddTxsKeepsRows(t, txs, hashes, n - 1);
      AddTransactionKeepsRows(AddTxs(t, txs, hashes, n - 1).tables, txs[n - 1], hashes[n - 1]);
    }
  }

  /** Removing the top row from a freshly added block leaves the tables as its transactions left them. */
  lemma UndoRow(t: Tables, b: BlockInput)
    requires AddBlock(t, b).outcome.Ok?
    ensures RemoveRow(AddBlock(t, b).tables) == Step(AddBlockTxs(t, b).tables, Ok)
    ensures |AddBlock(t, b).tables.rows| == |t.rows| + 1
    ensures AddBlock(t, b).tables.rows[..|t.rows|] == t.rows
    ensures AddBlock(t, b).tables.rows[|t.rows|].block == b.block
  {
    hide AddTransaction, AddTxs, NumRctOuts;
    AddTransactionKeepsRows(t, b.block.minerTx, b.block.minerTx.hash);
    var miner := AddTransaction(t, b.block.minerTx, b.block.minerTx.hash);
    AddTxsKeepsRows(miner.tables, b.txs, b.block.txHashes, |b.txs|);
    var txs := AddBlockTxs(t, b).tables;
    var added := AddBlock(t, b).tables;
    assert added.rows[..|added.rows| - 1] == txs.rows;
    assert added.blockHeights - {b.block.hash} == txs.blockHeights;
  }

  /** The popped block is the added one, its transactions come back in reverse, the tables are as before. */
  lemma PopUndoesAdd(t: Tables, b: BlockInput)
    requires UndoSafe(b)
    requires AddBlock(t, b).outcome.Ok?
    ensures PopBlock(AddBlock(t, b).tables) == PopStep(t, Reversed(b.txs), Ok)
    ensures var rows := AddBlock(t, b).tables.rows; |rows| > 0 && rows[|rows| - 1].block == b.block
  {
    hide AddTransaction, RemoveTransaction, AddTxs, PopTxs, TxUndoSafe, AddRow, RemoveRow, NumRctOuts;
    UndoRow(t, b);
    var miner := AddTransaction(t, b.block.minerTx, b.block.minerTx.hash);
    UndoTxs(miner.tables, b.txs, b.block.txHashes, |b.txs|, []);
    assert b.txs[..|b.txs|] == b.txs;
    UndoTransaction(t, b.block.minerTx, b.block.minerTx.hash);
  }
}
