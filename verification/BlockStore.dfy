/**
 The block store as the program has it: an object whose tables the calls update step by step.
 Every method is proved to do to the tables what the function of the same name in StoreSpec says,
 on every path, including the state that a throw leaves behind.
 */
module BlockStore {
  import opened ChainTypes
  import Spec = StoreSpec

  class Store {
    var spentKeys: set<KeyImage>
    var txIndices: map<Hash, Spec.TxIndex>
    var txsPruned: map<nat, Tx>
    var txOutputs: map<nat, seq<nat>>
    var outs: Spec.Outs
    var rows: seq<Spec.BlockRow>
    var blockHeights: map<Hash, nat>
    var outputBlacklist: set<nat>

    /** Every table except the output blacklist, which no removal path touches. */
    ghost function Contents(): Spec.Tables
      reads this
    {
      Spec.Tables(spentKeys, txIndices, txsPruned, txOutputs, outs, rows, blockHeights)
    }

    constructor ()
      ensures Contents() == Spec.EMPTY_TABLES && outputBlacklist == {}
    {
      spentKeys, txIndices, txsPruned, txOutputs := {}, map[], map[], map[];
      outs := Spec.Outs(map[], map[]);
      rows, blockHeights, outputBlacklist := [], map[], {};
    }

    // -------------------------------------------------------------- rows

    method AddSpentKey(image: KeyImage) returns (outcome: Outcome)
      modifies this`spentKeys
      ensures image in old(spentKeys) ==> outcome == Threw(KeyImageExists) && spentKeys == old(spentKeys)
      ensures image !in old(spentKeys) ==> outcome == Ok && spentKeys == old(spentKeys) + {image}
    {
      if image in spentKeys {
        return Threw(KeyImageExists);
      }
      spentKeys := spentKeys + {image};
      return Ok;
    }

    method RemoveSpentKey(image: KeyImage)
      modifies this`spentKeys
      ensures spentKeys == old(spentKeys) - {image}
    {
      if image in spentKeys {
        spentKeys := spentKeys - {image};
      }
    }

    method AddOutput(txHash: Hash, amount: nat, target: Target, localIndex: nat, unlockTime: nat,
                     commitment: Option<Commitment>)
      returns (index: nat, outcome: Outcome)
      modifies this`outs
      ensures Spec.OutStep(outs, index, outcome)
              == Spec.AddOutput(old(outs), txHash, amount, target, localIndex, unlockTime, |rows|, commitment)
    {
      if target.OtherTarget? {
        return 0, Threw(DbError);
      }
      if amount == 0 && commitment.None? {
        return 0, Threw(DbError);
      }
      var id := Spec.NextId(outs.byId);
      var count := |Spec.KeysAt(outs, amount)|;
      var appendable := !exists k :: k in outs.byAmount && k.0 == amount && k.1 >= count;
      outs := outs.(byId := outs.byId[id := Spec.OutTx(txHash, localIndex)]);
      if !appendable {
        return 0, Threw(DbError);
      }
      var row := Spec.OutKey(id, target.key, unlockTime, |rows|, if amount == 0 then commitment else None);
      outs := outs.(byAmount := outs.byAmount[(amount, count) := row]);
      return count, Ok;
    }

    method RemoveOutput(amount: nat, index: nat) returns (outcome: Outcome)
      modifies this`outs
      ensures Spec.OutStep(outs, index, outcome) == Spec.RemoveOutput(old(outs), amount, index)
    {
      if (amount, index) !in outs.byAmount {
        return Threw(OutputDne);
      }
      var id := outs.byAmount[(amount, index)].outputId;
      if id !in outs.byId {
        return Threw(DbError);
      }
      outs := outs.(byId := outs.byId - {id});
      outs := outs.(byAmount := outs.byAmount - {(amount, index)});
      return Ok;
    }

    method AddTransactionData(tx: Tx, txHash: Hash) returns (id: nat, outcome: Outcome)
      modifies this`txIndices, this`txsPruned
      ensures Spec.Step(Contents(), outcome) == Spec.AddTransactionData(old(Contents()), tx, txHash)
      ensures id == |old(txsPruned)|
    {
      id := |txsPruned|;
      if txHash in txIndices {
        return id, Threw(TxExists);
      }
      txIndices := txIndices[txHash := Spec.TxIndex(id, tx.unlockTime, |rows|)];
      if exists k :: k in txsPruned && k >= id {
        return id, Threw(DbError);
      }
      txsPruned := txsPruned[id := tx];
      return id, Ok;
    }

    method AddTxAmountOutputIndices(id: nat, indices: seq<nat>) returns (outcome: Outcome)
      modifies this`txOutputs
      ensures Spec.Step(Contents(), outcome) == Spec.AddIndices(old(Contents()), id, indices)
    {
      if exists k :: k in txOutputs && k >= id {
        return Threw(DbError);
      }
      txOutputs := txOutputs[id := indices];
      return Ok;
    }

    // -------------------------------------------------------------- one transaction

    /** The input loop: records key images, notes a generation input, and on an unsupported input
        takes the transaction's images off again and tells the caller to stop. */
    method AddInputs(tx: Tx) returns (minerTx: bool, supported: bool, outcome: Outcome)
      modifies this`spentKeys
      ensures var scan := Spec.ScanInputs(old(spentKeys), tx.vin, 0);
              && (scan.Scanned? ==>
                    outcome == Ok && supported && spentKeys == scan.spent && minerTx == Spec.HasGen(tx.vin))
              && (scan.Repeated? ==> outcome == Threw(KeyImageExists) && spentKeys == scan.spent)
              && (scan.Unsupported? ==> outcome == Ok && !supported && spentKeys == scan.spent - Spec.ImageSet(tx.vin))
    {
      minerTx, supported, outcome := false, true, Ok;
      var i := 0;
      while i < |tx.vin|
        invariant 0 <= i <= |tx.vin|
        invariant supported && outcome == Ok
        invariant Spec.ScanInputs(old(spentKeys), tx.vin, 0) == Spec.ScanInputs(spentKeys, tx.vin, i)
        invariant minerTx == exists j :: 0 <= j < i && tx.vin[j].Gen?
      {
        match tx.vin[i] {
          case ToKey(image) =>
            outcome := AddSpentKey(image);
            if outcome.Threw? {
              return;
            }
          case Gen(_) =>
            minerTx := true;
          case OtherIn =>
            RemoveImages(tx.vin);
            supported := false;
            return;
        }
        i := i + 1;
      }
    }

    /** Takes every key image of an input list off the spent set. */
    method RemoveImages(vin: seq<TxIn>)
      modifies this`spentKeys
      ensures spentKeys == old(spentKeys) - Spec.ImageSet(vin)
    {
      var i := 0;
      while i < |vin|
        invariant 0 <= i <= |vin|
        invariant forall k :: k in spentKeys <==>
                    k in old(spentKeys) && forall j :: 0 <= j < i && vin[j].ToKey? ==> vin[j].keyImage != k
      {
        if vin[i].ToKey? {
          RemoveSpentKey(vin[i].keyImage);
        }
        i := i + 1;
      }
    }

    method AddOutputs(tx: Tx, txHash: Hash, minerTx: bool) returns (indices: seq<nat>, outcome: Outcome)
      requires minerTx == Spec.HasGen(tx.vin)
      modifies this`outs
      ensures Spec.OutsStep(outs, indices, outcome) == Spec.AddTxOutputs(old(outs), tx, txHash, |rows|, |tx.vout|)
    {
      indices, outcome := [], Ok;
      var i := 0;
      while i < |tx.vout|
        invariant 0 <= i <= |tx.vout|
        invariant outcome == Ok
        invariant Spec.OutsStep(outs, indices, Ok) == Spec.AddTxOutputs(old(outs), tx, txHash, |rows|, i)
      {
        var unlockTime := if tx.version >= V3_PER_OUTPUT_UNLOCK_TIMES then tx.vout[i].unlockTime else tx.unlockTime;
        var index;
        if minerTx && tx.version >= V2_RINGCT {
          index, outcome := AddOutput(txHash, 0, tx.vout[i].target, i, unlockTime, Some(ZeroCommit(tx.vout[i].amount)));
        } else {
          var mask := if tx.version >= V2_RINGCT then Some(Mask(tx.vout[i].mask)) else None;
          index, outcome := AddOutput(txHash, tx.vout[i].amount, tx.vout[i].target, i, unlockTime, mask);
        }
        AfterOutput(old(outs), tx, txHash, |rows|, i, Spec.OutStep(outs, index, outcome));
        if outcome.Threw? {
          return;
        }
        indices := indices + [index];
        i := i + 1;
      }
    }

    /** What the first n outputs lead to, given what output i leads to. */
    static lemma AfterOutput(outs: Spec.Outs, tx: Tx, txHash: Hash, height: nat, i: nat, step: Spec.OutStep)
      requires i < |tx.vout|
      requires var before := Spec.AddTxOutputs(outs, tx, txHash, height, i);
               before.outcome == Ok && step == Spec.AddTxOutput(before.outs, tx, txHash, height, i)
      ensures var before := Spec.AddTxOutputs(outs, tx, txHash, height, i);
              Spec.AddTxOutputs(outs, tx, txHash, height, i + 1)
              == if step.outcome.Threw? then Spec.OutsStep(step.outs, before.indices, step.outcome)
                 else Spec.OutsStep(step.outs, before.indices + [step.index], Ok)
      ensures step.outcome.Threw? ==>
                Spec.AddTxOutputs(outs, tx, txHash, height, |tx.vout|)
                == Spec.AddTxOutputs(outs, tx, txHash, height, i + 1)
    {
      hide Spec.AddTxOutput;
      if step.outcome.Threw? {
        ThrowStays(outs, tx, txHash, height, i + 1, |tx.vout|);
      }
    }

    static lemma ThrowStays(outs: Spec.Outs, tx: Tx, txHash: Hash, height: nat, i: nat, n: nat)
      requires i <= n <= |tx.vout| && Spec.AddTxOutputs(outs, tx, txHash, height, i).outcome.Threw?
      ensures Spec.AddTxOutputs(outs, tx, txHash, height, n) == Spec.AddTxOutputs(outs, tx, txHash, height, i)
    {
      hide Spec.AddTxOutput;
      if i == n {
      } else {
        ThrowStays(outs, tx, txHash, height, i, n - 1);
      }
    }

    method AddTransaction(tx: Tx, txHash: Hash) returns (outcome: Outcome)
      modifies this
      ensures Spec.Step(Contents(), outcome) == Spec.AddTransaction(old(Contents()), tx, txHash)
      ensures outputBlacklist == old(outputBlacklist) + Spec.BlacklistedBy(old(Contents()), tx, txHash)
    {
      hide Spec.AddTxOutputs, Spec.ScanInputs, Spec.ImageSet;
      var hasBlacklistedOutputs := tx.version >= V2_RINGCT && tx.stakes;
      var minerTx, supported;
      minerTx, supported, outcome := AddInputs(tx);
      if outcome.Threw? || !supported {
        return;
      }
      var id;
      id, outcome := AddTransactionData(tx, txHash);
      if outcome.Threw? {
        return;
      }
      var indices;
      indices, outcome := AddOutputs(tx, txHash, minerTx);
      if outcome.Threw? {
        return;
      }
      if hasBlacklistedOutputs {
        outputBlacklist := outputBlacklist + set i | 0 <= i < |indices| :: indices[i];
      }
      outcome := AddTxAmountOutputIndices(id, indices);
    }

    method RemoveTxOutputs(tx: Tx, indices: seq<nat>) returns (outcome: Outcome)
      requires |tx.vout| <= |indices|
      modifies this`outs
      ensures Spec.OutsStep(outs, indices, outcome) == Spec.RemoveTxOutputs(old(outs), tx, indices, |tx.vout|)
    {
      hide Spec.RemoveOutput, Spec.OnlyGen;
      var isPseudoRct := tx.version >= V2_RINGCT && |tx.vin| == 1 && tx.vin[0].Gen?;
      assert isPseudoRct == (tx.version >= V2_RINGCT && Spec.OnlyGen(tx.vin)) by { OnlyGenIs(tx.vin); }
      outcome := Ok;
      var i := |tx.vout|;
      while i > 0
        invariant 0 <= i <= |tx.vout|
        invariant outcome == Ok
        invariant Spec.RemoveTxOutputs(old(outs), tx, indices, |tx.vout|) == Spec.RemoveTxOutputs(outs, tx, indices, i)
      {
        i := i - 1;
        var amount := if isPseudoRct then 0 else tx.vout[i].amount;
        outcome := RemoveOutput(amount, indices[i]);
        if outcome.Threw? {
          return;
        }
      }
    }

    static lemma OnlyGenIs(vin: seq<TxIn>)
      ensures Spec.OnlyGen(vin) == (|vin| == 1 && vin[0].Gen?)
    {
    }

    method RemoveTransaction(txHash: Hash) returns (outcome: Outcome)
      modifies this
      ensures Spec.Step(Contents(), outcome) == Spec.RemoveTransaction(old(Contents()), txHash)
      ensures outputBlacklist == old(outputBlacklist)
    {
      hide Spec.RemoveTxOutputs, Spec.ImageSet;
      if txHash !in txIndices || txIndices[txHash].id !in txsPruned {
        return Threw(TxDne);
      }
      var id := txIndices[txHash].id;
      var tx := txsPruned[id];
      RemoveImages(tx.vin);
      txsPruned := txsPruned - {id};
      if id !in txOutputs || |txOutputs[id]| < |tx.vout| {
        return Threw(DbError);
      }
      outcome := RemoveTxOutputs(tx, txOutputs[id]);
      if outcome.Threw? {
        return;
      }
      txOutputs := txOutputs - {id};
      txIndices := txIndices - {txHash};
    }

    // -------------------------------------------------------------- one block

    method AddTransactions(txs: seq<Tx>, hashes: seq<Hash>) returns (numRct: nat, outcome: Outcome)
      requires |txs| == |hashes|
      modifies this
      ensures Spec.Step(Contents(), outcome) == Spec.AddTxs(old(Contents()), txs, hashes, |txs|)
      ensures outputBlacklist == old(outputBlacklist) + Spec.BlacklistedByTxs(old(Contents()), txs, hashes, |txs|)
      ensures outcome == Ok ==> numRct == Spec.ListedRct(txs, |txs|)
    {
      hide Spec.AddTransaction, Spec.BlacklistedBy;
      numRct, outcome := 0, Ok;
      var i := 0;
      while i < |txs|
        invariant 0 <= i <= |txs|
        invariant outcome == Ok
        invariant Spec.Step(Contents(), Ok) == Spec.AddTxs(old(Contents()), txs, hashes, i)
        invariant outputBlacklist == old(outputBlacklist) + Spec.BlacklistedByTxs(old(Contents()), txs, hashes, i)
        invariant numRct == Spec.ListedRct(txs, i)
      {
        outcome := AddTransaction(txs[i], hashes[i]);
        if outcome.Threw? {
          TxsThrowStays(old(Contents()), txs, hashes, i + 1, |txs|);
          return;
        }
        var j := 0;
        while j < |txs[i].vout|
          invariant 0 <= j <= |txs[i].vout|
          invariant numRct == Spec.ListedRct(txs, i) + Spec.ZeroAmounts(txs[i].vout, j)
        {
          if txs[i].vout[j].amount == 0 {
            numRct := numRct + 1;
          }
          j := j + 1;
        }
        i := i + 1;
      }
    }

    static lemma TxsThrowStays(t: Spec.Tables, txs: seq<Tx>, hashes: seq<Hash>, i: nat, n: nat)
      requires i <= n <= |txs| && n <= |hashes| && Spec.AddTxs(t, txs, hashes, i).outcome.Threw?
      ensures Spec.AddTxs(t, txs, hashes, n) == Spec.AddTxs(t, txs, hashes, i)
      ensures Spec.BlacklistedByTxs(t, txs, hashes, n) == Spec.BlacklistedByTxs(t, txs, hashes, i)
    {
      hide Spec.AddTransaction, Spec.BlacklistedBy;
      if i == n {
      } else {
        TxsThrowStays(t, txs, hashes, i, n - 1);
      }
    }

    /** Adds a block with its transactions; returns the height it is stored at. */
    method AddBlock(b: BlockInput) returns (height: nat, outcome: Outcome)
      modifies this
      ensures Spec.Step(Contents(), outcome) == Spec.AddBlock(old(Contents()), b)
      ensures outputBlacklist == old(outputBlacklist) + Spec.BlacklistedByBlock(old(Contents()), b)
      ensures height == |old(rows)|
    {
      hide Spec.AddTransaction, Spec.AddTxs, Spec.BlacklistedBy, Spec.BlacklistedByTxs, Spec.ListedRct;
      height := |rows|;
      if |b.block.txHashes| != |b.txs| {
        return height, Threw(SizeMismatch);
      }
      var numRct := 0;
      outcome := AddTransaction(b.block.minerTx, b.block.minerTx.hash);
      if outcome.Threw? {
        return;
      }
      if b.block.minerTx.version >= V2_RINGCT {
        numRct := numRct + |b.block.minerTx.vout|;
      }
      var listed;
      listed, outcome := AddTransactions(b.txs, b.block.txHashes);
      if outcome.Threw? {
        return;
      }
      numRct := numRct + listed;
      outcome := AddRow(b, numRct);
    }

    method AddRow(b: BlockInput, numRct: nat) returns (outcome: Outcome)
      modifies this`rows, this`blockHeights
      ensures Spec.Step(Contents(), outcome) == Spec.AddRow(old(Contents()), b, numRct)
    {
      var height := |rows|;
      if b.block.hash in blockHeights {
        return Threw(BlockExists);
      }
      if height > 0 {
        if b.block.prevId !in blockHeights {
          return Threw(DbError);
        }
        if blockHeights[b.block.prevId] != height - 1 {
          return Threw(BlockParentDne);
        }
      }
      var cumRct := numRct;
      if b.block.majorVersion >= 4 && height > 0 {
        cumRct := cumRct + rows[height - 1].info.cumRct;
      }
      var info := Spec.BlockInfo(height, b.block.timestamp, b.coins, b.weight, b.cumulativeDifficulty, b.block.hash,
                                 cumRct, b.longTermWeight);
      rows := rows + [Spec.BlockRow(b.block, info)];
      blockHeights := blockHeights[b.block.hash := height];
      return Ok;
    }

    /** Takes the top block off. Its transactions are returned last first, without the miner transaction. */
    method PopBlock() returns (block: Option<Block>, popped: seq<Tx>, outcome: Outcome)
      modifies this
      ensures Spec.PopStep(Contents(), popped, outcome) == Spec.PopBlock(old(Contents()))
      ensures outputBlacklist == old(outputBlacklist)
      ensures block == if |old(rows)| == 0 then None else Some(old(rows)[|old(rows)| - 1].block)
    {
      hide Spec.RemoveTransaction, Spec.PopTxs, Spec.StoredTx;
      popped := [];
      if |rows| == 0 {
        return None, popped, Threw(BlockDne);
      }
      var top := rows[|rows| - 1];
      block := Some(top.block);
      if top.info.hash !in blockHeights {
        return block, popped, Threw(DbError);
      }
      blockHeights := blockHeights - {top.info.hash};
      rows := rows[..|rows| - 1];
      popped, outcome := PopTransactions(top.block.txHashes);
      if outcome.Threw? {
        return;
      }
      outcome := RemoveTransaction(top.block.minerTx.hash);
    }

    method PopTransactions(hashes: seq<Hash>) returns (popped: seq<Tx>, outcome: Outcome)
      modifies this
      ensures Spec.PopStep(Contents(), popped, outcome) == Spec.PopTxs(old(Contents()), hashes, |hashes|, [])
      ensures outputBlacklist == old(outputBlacklist)
    {
      hide Spec.RemoveTransaction;
      popped, outcome := [], Ok;
      var i := |hashes|;
      while i > 0
        invariant 0 <= i <= |hashes|
        invariant outcome == Ok
        invariant outputBlacklist == old(outputBlacklist)
        invariant Spec.PopTxs(old(Contents()), hashes, |hashes|, []) == Spec.PopTxs(Contents(), hashes, i, popped)
      {
        i := i - 1;
        if hashes[i] !in txIndices || txIndices[hashes[i]].id !in txsPruned {
          return popped, Threw(DbError);
        }
        popped := popped + [txsPruned[txIndices[hashes[i]].id]];
        outcome := RemoveTransaction(hashes[i]);
        if outcome.Threw? {
          return;
        }
      }
    }
  }
}
