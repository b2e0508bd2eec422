/**
 Index integrity: recorded indices find their outputs, rows lead back to the output they belong to, and
 no two outputs share a slot. Every added transaction keeps it.
 */
module StoreIntegrity {
  import opened ChainTypes
  import opened StoreSpec
  import opened StoreUndo

  // ---------------------------------------------------------------- the invariant

  ghost predicate HasSlots(t: Tables, h: Hash) {
    && h in t.txIndices
    && t.txIndices[h].id in t.txs && t.txIndices[h].id in t.txOutputs
    && t.txIndices[h].unlockTime == t.txs[t.txIndices[h].id].unlockTime
    && |t.txOutputs[t.txIndices[h].id]| == |t.txs[t.txIndices[h].id].vout|
  }

  /** Where output i of a stored transaction is to be found: its stored amount and recorded index. */
  ghost function Slot(t: Tables, h: Hash, i: nat): (nat, nat)
    requires HasSlots(t, h) && i < |t.txs[t.txIndices[h].id].vout|
  {
    (StoredAmount(t.txs[t.txIndices[h].id], i), t.txOutputs[t.txIndices[h].id][i])
  }

  ghost predicate IsOutput(t: Tables, h: Hash, i: nat) {
    HasSlots(t, h) && i < |t.txs[t.txIndices[h].id].vout|
  }

  /** The commitment a row must hold: of the hidden amount for a miner output, the output's own mask otherwise. */
  ghost function RightCommitment(tx: Tx, i: nat): Option<Commitment>
    requires i < |tx.vout|
  {
    if StoredAmount(tx, i) != 0 then None
    else if HasGen(tx.vin) then Some(ZeroCommit(tx.vout[i].amount))
    else Some(Mask(tx.vout[i].mask))
  }

  ghost predicate RightRow(row: OutKey, tx: Tx, i: nat, height: nat)
    requires i < |tx.vout|
  {
    && tx.vout[i].target == KeyTarget(row.pubkey)
    && row.unlockTime == (if tx.version >= 3 then tx.vout[i].unlockTime else tx.unlockTime)
    && row.height == height
    && row.commitment == RightCommitment(tx, i)
  }

  /** Following the recorded index of output i finds a row with its data, whose id leads back to it. */
  ghost predicate SlotRight(t: Tables, h: Hash, i: nat)
    requires IsOutput(t, h, i)
  {
    var key := Slot(t, h, i);
    && key in t.outs.byAmount
    && RightRow(t.outs.byAmount[key], t.txs[t.txIndices[h].id], i, t.txIndices[h].height)
    && t.outs.byAmount[key].outputId in t.outs.byId
    && t.outs.byId[t.outs.byAmount[key].outputId] == OutTx(h, i)
  }

  /** The row at a key belongs to the output that its id names, and is that output's slot. */
  ghost predicate RowOwned(t: Tables, key: (nat, nat))
    requires key in t.outs.byAmount
  {
    var id := t.outs.byAmount[key].outputId;
    && id in t.outs.byId
    && IsOutput(t, t.outs.byId[id].txHash, t.outs.byId[id].localIndex)
    && Slot(t, t.outs.byId[id].txHash, t.outs.byId[id].localIndex) == key
  }

  /** A stored transaction is stored under some hash. */
  ghost predicate Named(t: Tables, id: nat) {
    exists h :: h in t.txIndices && t.txIndices[h].id == id
  }

  ghost predicate Integrity(t: Tables) {
    && (forall h :: h in t.txIndices ==> HasSlots(t, h))
    && (forall g, h :: g in t.txIndices && h in t.txIndices && g != h ==> t.txIndices[g].id != t.txIndices[h].id)
    && (forall id :: id in t.txs ==> Named(t, id))
    && (forall h, i: nat :: IsOutput(t, h, i) ==> SlotRight(t, h, i))
    && (forall key :: key in t.outs.byAmount ==> RowOwned(t, key))
    && (forall id :: id in t.outs.byId ==> IsOutput(t, t.outs.byId[id].txHash, t.outs.byId[id].localIndex))
  }

  /** No two outputs share a slot. */
  lemma SlotsDistinct(t: Tables, g: Hash, i: nat, h: Hash, j: nat)
    requires Integrity(t)
    requires IsOutput(t, g, i) && IsOutput(t, h, j) && Slot(t, g, i) == Slot(t, h, j)
    ensures g == h && i == j
  {
    assert SlotRight(t, g, i) && SlotRight(t, h, j);
  }

  // ---------------------------------------------------------------- adding one transaction

  lemma NextIdAfter(byId: map<nat, OutTx>, o: OutTx)
    ensures NextId(byId[NextId(byId) := o]) == NextId(byId) + 1
  {
    var id := NextId(byId);
    var after := byId[id := o];
    assert id in after;
    assert forall k :: k in after ==> k < NextId(after);
  }

  ghost function OutputKey(tx: Tx, indices: seq<nat>, j: nat): (nat, nat)
    requires j < |tx.vout| && j < |indices|
  {
    (StoredAmount(tx, j), indices[j])
  }

  /** Output j of a transaction has a row of its own, with its data and the right id. */
  ghost predicate NewRow(outs: Outs, r: OutsStep, tx: Tx, height: nat, next: nat, j: nat)
    requires j < |tx.vout| && j < |r.indices|
  {
    var key := OutputKey(tx, r.indices, j);
    && key !in outs.byAmount
    && key in r.outs.byAmount
    && RightRow(r.outs.byAmount[key], tx, j, height)
    && r.outs.byAmount[key].outputId == next + j
  }

  /** A key is that of the output which the id of its row names. */
  ghost predicate NewKey(r: OutsStep, tx: Tx, next: nat, key: (nat, nat))
    requires key in r.outs.byAmount && |r.indices| <= |tx.vout|
  {
    var id := r.outs.byAmount[key].outputId;
    next <= id < next + |r.indices| && key == OutputKey(tx, r.indices, id - next)
  }

  ghost predicate RowsStay(outs: Outs, after: Outs) {
    forall key :: key in outs.byAmount ==> key in after.byAmount && after.byAmount[key] == outs.byAmount[key]
  }

  /** The rows that the first n outputs of a transaction add to `output_amounts`, and no others. */
  ghost predicate RowsAre(outs: Outs, r: OutsStep, tx: Tx, height: nat, next: nat, n: nat)
    requires n <= |tx.vout|
  {
    && |r.indices| == n
    && (forall j :: 0 <= j < n ==> NewRow(outs, r, tx, height, next, j))
    && RowsStay(outs, r.outs)
    && (forall key :: key in r.outs.byAmount && key !in outs.byAmount ==> NewKey(r, tx, next, key))
  }

  /** The ids that the first n outputs of a transaction add to `output_txs`, and no others. */
  ghost predicate IdsAre(outs: Outs, r: OutsStep, txHash: Hash, next: nat, n: nat) {
    && NextId(r.outs.byId) == next + n
    && (forall id :: id in outs.byId ==> id in r.outs.byId && r.outs.byId[id] == outs.byId[id])
    && (forall id :: next <= id < next + n ==> id in r.outs.byId && r.outs.byId[id] == OutTx(txHash, id - next))
    && (forall id :: id in r.outs.byId && id !in outs.byId ==> next <= id < next + n)
  }

  ghost predicate OutputsAre(outs: Outs, r: OutsStep, tx: Tx, txHash: Hash, height: nat, n: nat)
    requires n <= |tx.vout|
  {
    && RowsAre(outs, r, tx, height, NextId(outs.byId), n)
    && IdsAre(outs, r, txHash, NextId(outs.byId), n)
  }

  lemma RowsAreStep(outs: Outs, before: OutsStep, after: OutsStep, tx: Tx, height: nat, next: nat, n: nat, row: OutKey)
    requires 0 < n <= |tx.vout|
    requires RowsAre(outs, before, tx, height, next, n - 1)
    requires |after.indices| == n && after.indices[..n - 1] == before.indices
    requires OutputKey(tx, after.indices, n - 1) !in before.outs.byAmount
    requires RightRow(row, tx, n - 1, height) && row.outputId == next + n - 1
    requires after.outs.byAmount == before.outs.byAmount[OutputKey(tx, after.indices, n - 1) := row]
    ensures RowsAre(outs, after, tx, height, next, n)
  {
    hide StoredAmount, RightRow;
    var added := OutputKey(tx, after.indices, n - 1);
    forall j | 0 <= j < n
      ensures NewRow(outs, after, tx, height, next, j)
    {
      if j < n - 1 {
        assert NewRow(outs, before, tx, height, next, j);
        assert OutputKey(tx, after.indices, j) == OutputKey(tx, before.indices, j);
      }
    }
    forall key | key in after.outs.byAmount && key !in outs.byAmount
      ensures NewKey(after, tx, next, key)
    {
      if key != added {
        assert key in before.outs.byAmount && NewKey(before, tx, next, key);
        var j := before.outs.byAmount[key].outputId - next;
        assert OutputKey(tx, after.indices, j) == OutputKey(tx, before.indices, j);
      }
    }
  }

  lemma IdsAreNext(outs: Outs, r: OutsStep, txHash: Hash, next: nat, n: nat)
    requires IdsAre(outs, r, txHash, next, n)
    ensures NextId(r.outs.byId) == next + n
  {
  }

  lemma IdsAreStep(outs: Outs, before: OutsStep, after: OutsStep, txHash: Hash, next: nat, n: nat)
    requires 0 < n
    requires IdsAre(outs, before, txHash, next, n - 1)
    requires after.outs.byId == before.outs.byId[next + n - 1 := OutTx(txHash, n - 1)]
    requires next == NextId(outs.byId)
    ensures IdsAre(outs, after, txHash, next, n)
  {
    hide NextId;
    NextIdAfter(before.outs.byId, OutTx(txHash, n - 1));
    assert forall id :: id in outs.byId ==> id < next by { NextIdAbove(outs.byId); }
  }

  lemma NextIdAbove(byId: map<nat, OutTx>)
    ensures forall id :: id in byId ==> id < NextId(byId)
  {
  }

  lemma AddTxOutputRow(outs: Outs, tx: Tx, txHash: Hash, height: nat, i: nat)
    requires i < |tx.vout|
    requires AddTxOutput(outs, tx, txHash, height, i).outcome.Ok?
    ensures var step := AddTxOutput(outs, tx, txHash, height, i);
            var key := (StoredAmount(tx, i), step.index);
            && key !in outs.byAmount
            && key in step.outs.byAmount
            && step.index == |KeysAt(outs, key.0)|
            && RightRow(step.outs.byAmount[key], tx, i, height)
            && step.outs.byAmount[key].outputId == NextId(outs.byId)
            && step.outs.byAmount == outs.byAmount[key := step.outs.byAmount[key]]
            && step.outs.byId == outs.byId[NextId(outs.byId) := OutTx(txHash, i)]
            && NextId(step.outs.byId) == NextId(outs.byId) + 1
  {
    hide KeysAt, NextId, HasGen;
    NextIdAfter(outs.byId, OutTx(txHash, i));
  }

  /** The one row and the one id that an output adds, written out: the amount is 0 for a generation input
      from version 2 on, the index is the number of rows under that amount, and from version 3 on the
      unlock time is the output's own. */
  lemma RowOfOutput(outs: Outs, tx: Tx, txHash: Hash, height: nat, i: nat)
    requires i < |tx.vout|
    requires AddTxOutput(outs, tx, txHash, height, i).outcome.Ok?
    ensures var step := AddTxOutput(outs, tx, txHash, height, i);
            var out := tx.vout[i];
            var hidden := tx.version >= 2 && exists k :: 0 <= k < |tx.vin| && tx.vin[k].Gen?;
            var amount := if hidden then 0 else out.amount;
            var row := OutKey(NextId(outs.byId), out.target.key,
                              if tx.version >= 3 then out.unlockTime else tx.unlockTime, height,
                              if hidden then Some(ZeroCommit(out.amount))
                              else if amount == 0 then Some(Mask(out.mask)) else None);
            && step.index == |set k | k in outs.byAmount && k.0 == amount|
            && (amount, step.index) !in outs.byAmount
            && step.outs == Outs(outs.byId[NextId(outs.byId) := OutTx(txHash, i)],
                                 outs.byAmount[(amount, step.index) := row])
  {
    assert KeysAt(outs, StoredAmount(tx, i)) == set k | k in outs.byAmount && k.0 == StoredAmount(tx, i);
    hide NextId, KeysAt;
  }

  lemma {:induction false} OutputsAdded(outs: Outs, tx: Tx, txHash: Hash, height: nat, n: nat)
    requires n <= |tx.vout|
    requires AddTxOutputs(outs, tx, txHash, height, n).outcome.Ok?
    ensures OutputsAre(outs, AddTxOutputs(outs, tx, txHash, height, n), tx, txHash, height, n)
  {
    hide AddTxOutput, RightRow, NextId, RowsAre, IdsAre;
    var next := NextId(outs.byId);
    var after := AddTxOutputs(outs, tx, txHash, height, n);
    if n == 0 {
      NoOutputs(outs, after, tx, txHash, height);
    } else {
      OutputsAdded(outs, tx, txHash, height, n - 1);
      var before := AddTxOutputs(outs, tx, txHash, height, n - 1);
      IdsAreNext(outs, before, txHash, next, n - 1);
      AddTxOutputRow(before.outs, tx, txHash, height, n - 1);
      assert after.indices[..n - 1] == before.indices;
      RowsAreStep(outs, before, after, tx, height, next, n, after.outs.byAmount[OutputKey(tx, after.indices, n - 1)]);
      IdsAreStep(outs, before, after, txHash, next, n);
    }
  }

  lemma NoOutputs(outs: Outs, r: OutsStep, tx: Tx, txHash: Hash, height: nat)
    requires r == OutsStep(outs, [], Ok)
    ensures OutputsAre(outs, r, tx, txHash, height, 0)
  {
  }

  /** What a successful `add_transaction` of a supported transaction does to the tables. */
  ghost predicate TxAdded(t: Tables, after: Tables, tx: Tx, txHash: Hash) {
    var id := |t.txs|;
    && txHash !in t.txIndices
    && (forall k :: k in t.txs ==> k < id) && (forall k :: k in t.txOutputs ==> k < id)
    && after.txIndices == t.txIndices[txHash := TxIndex(id, tx.unlockTime, |t.rows|)]
    && after.txs == t.txs[id := tx]
    && id in after.txOutputs
    && after.txOutputs == t.txOutputs[id := after.txOutputs[id]]
    && OutputsAre(t.outs, OutsStep(after.outs, after.txOutputs[id], Ok), tx, txHash, |t.rows|, |tx.vout|)
    && t.spent !! ImageSet(tx.vin)
    && after.spent == t.spent + ImageSet(tx.vin)
    && after.rows == t.rows && after.blockHeights == t.blockHeights
  }

  lemma AddTransactionAdds(t: Tables, tx: Tx, txHash: Hash)
    requires Supported(tx)
    requires AddTransaction(t, tx, txHash).outcome.Ok?
    ensures TxAdded(t, AddTransaction(t, tx, txHash).tables, tx, txHash)
  {
    hide AddTransaction, AddTxOutputs, ImageSet, OutputsAre, Supported;
    AddTransactionWrites(t, tx, txHash);
    OutputsAdded(t.outs, tx, txHash, |t.rows|, |tx.vout|);
  }

  lemma OldSlotsStay(t: Tables, after: Tables, tx: Tx, txHash: Hash, h: Hash)
    requires Integrity(t) && TxAdded(t, after, tx, txHash) && h in t.txIndices
    ensures HasSlots(after, h) && after.txIndices[h] == t.txIndices[h]
    ensures after.txs[after.txIndices[h].id] == t.txs[t.txIndices[h].id]
    ensures forall i: nat :: IsOutput(t, h, i) <==> IsOutput(after, h, i)
    ensures forall i: nat :: IsOutput(t, h, i) ==> Slot(after, h, i) == Slot(t, h, i)
  {
    hide OutputsAre, StoredAmount, SlotRight, RowOwned;
    assert HasSlots(t, h);
    assert t.txIndices[h].id != |t.txs|;
  }

  lemma NewSlots(t: Tables, after: Tables, tx: Tx, txHash: Hash)
    requires TxAdded(t, after, tx, txHash)
    ensures HasSlots(after, txHash) && after.txs[after.txIndices[txHash].id] == tx
    ensures forall i: nat :: IsOutput(after, txHash, i) <==> i < |tx.vout|
    ensures forall i: nat :: i < |tx.vout| ==> SlotRight(after, txHash, i)
  {
    hide StoredAmount, RightRow, NextId;
    var next := NextId(t.outs.byId);
    var r := OutsStep(after.outs, after.txOutputs[|t.txs|], Ok);
    forall i: nat | i < |tx.vout|
      ensures SlotRight(after, txHash, i)
    {
      assert NewRow(t.outs, r, tx, |t.rows|, next, i);
      assert Slot(after, txHash, i) == OutputKey(tx, r.indices, i);
      assert after.outs.byId[next + i] == OutTx(txHash, i);
    }
  }

  lemma OldSlotRight(t: Tables, after: Tables, tx: Tx, txHash: Hash, h: Hash, i: nat)
    requires Integrity(t) && TxAdded(t, after, tx, txHash)
    requires h in t.txIndices && IsOutput(after, h, i)
    ensures SlotRight(after, h, i)
  {
    hide StoredAmount, RightRow, NextId, RowOwned, Integrity;
    OldSlotsStay(t, after, tx, txHash, h);
    assert SlotRight(t, h, i) by { IntegritySlot(t, h, i); }
  }

  lemma IntegritySlot(t: Tables, h: Hash, i: nat)
    requires Integrity(t) && IsOutput(t, h, i)
    ensures SlotRight(t, h, i)
  {
  }

  lemma IntegrityRow(t: Tables, key: (nat, nat))
    requires Integrity(t) && key in t.outs.byAmount
    ensures RowOwned(t, key)
  {
  }

  lemma OldRowOwned(t: Tables, after: Tables, tx: Tx, txHash: Hash, key: (nat, nat))
    requires Integrity(t) && TxAdded(t, after, tx, txHash)
    requires key in t.outs.byAmount
    ensures key in after.outs.byAmount && RowOwned(after, key)
  {
    hide StoredAmount, NewRow, NewKey, NextId, Integrity, Slot;
    IntegrityRow(t, key);
    OldSlotsStay(t, after, tx, txHash, t.outs.byId[t.outs.byAmount[key].outputId].txHash);
  }

  /** A row that a transaction added is the row of one of its outputs. */
  lemma NewRowOutput(t: Tables, after: Tables, tx: Tx, txHash: Hash, key: (nat, nat))
    requires TxAdded(t, after, tx, txHash)
    requires key in after.outs.byAmount && key !in t.outs.byAmount
    ensures var id := after.outs.byAmount[key].outputId;
            var j := id - NextId(t.outs.byId);
            && 0 <= j < |tx.vout| == |after.txOutputs[|t.txs|]|
            && key == OutputKey(tx, after.txOutputs[|t.txs|], j)
            && id in after.outs.byId && after.outs.byId[id] == OutTx(txHash, j)
  {
    hide StoredAmount, NewRow, NextId, RowsStay, OutputKey;
    assert NewKey(OutsStep(after.outs, after.txOutputs[|t.txs|], Ok), tx, NextId(t.outs.byId), key);
  }

  lemma NewRowOwned(t: Tables, after: Tables, tx: Tx, txHash: Hash, key: (nat, nat))
    requires TxAdded(t, after, tx, txHash)
    requires key in after.outs.byAmount && key !in t.outs.byAmount
    ensures RowOwned(after, key)
  {
    hide StoredAmount, OutputsAre, NextId, SlotRight;
    NewSlots(t, after, tx, txHash);
    NewRowOutput(t, after, tx, txHash, key);
  }

  lemma IdsOwned(t: Tables, after: Tables, tx: Tx, txHash: Hash, id: nat)
    requires Integrity(t) && TxAdded(t, after, tx, txHash)
    requires id in after.outs.byId
    ensures IsOutput(after, after.outs.byId[id].txHash, after.outs.byId[id].localIndex)
  {
    hide StoredAmount, RightRow, NextId, SlotRight, RowOwned;
    NewSlots(t, after, tx, txHash);
    if id in t.outs.byId {
      OldSlotsStay(t, after, tx, txHash, t.outs.byId[id].txHash);
    }
  }

  lemma NamesStay(t: Tables, after: Tables, tx: Tx, txHash: Hash, id: nat)
    requires Integrity(t) && TxAdded(t, after, tx, txHash)
    requires id in after.txs
    ensures Named(after, id)
  {
    hide HasSlots, SlotRight, RowOwned, OutputsAre, IsOutput;
    if id == |t.txs| {
      assert txHash in after.txIndices && after.txIndices[txHash].id == id;
    } else {
      assert Named(t, id);
      var h :| h in t.txIndices && t.txIndices[h].id == id;
      assert h in after.txIndices && after.txIndices[h].id == id;
    }
  }

  lemma AddTransactionIntegrity(t: Tables, after: Tables, tx: Tx, txHash: Hash)
    requires Integrity(t) && TxAdded(t, after, tx, txHash)
    ensures Integrity(after)
  {
    hide SlotRight, RowOwned, OutputsAre, Named;
    NewSlots(t, after, tx, txHash);
    forall h | h in after.txIndices
      ensures HasSlots(after, h)
      ensures h != txHash ==> after.txIndices[h].id != |t.txs|
    {
      if h != txHash { OldSlotsStay(t, after, tx, txHash, h); }
    }
    forall id | id in after.txs
      ensures Named(after, id)
    {
      NamesStay(t, after, tx, txHash, id);
    }
    forall h, i: nat | IsOutput(after, h, i)
      ensures SlotRight(after, h, i)
    {
      if h != txHash { OldSlotRight(t, after, tx, txHash, h, i); }
    }
    forall key | key in after.outs.byAmount
      ensures RowOwned(after, key)
    {
      if key in t.outs.byAmount {
        OldRowOwned(t, after, tx, txHash, key);
      } else {
        NewRowOwned(t, after, tx, txHash, key);
      }
    }
    forall id | id in after.outs.byId
      ensures IsOutput(after, after.outs.byId[id].txHash, after.outs.byId[id].localIndex)
    {
      IdsOwned(t, after, tx, txHash, id);
    }
  }
}
