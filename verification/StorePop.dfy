/**
 When `pop_block` returns: on a store whose indices lead to their rows, it throws exactly if a listed
 transaction is not stored or listed twice, or a row that the removal looks for is missing or wanted twice.
 */
module StorePop {
  import opened ChainTypes
  import opened StoreSpec
  import opened StoreExact
  import opened StoreIntegrity
  import opened StoreSound

  // ---------------------------------------------------------------- what removal relies on

  /** Every row has an id of its own, which is in the id table. */
  ghost predicate OutsKeyed(outs: Outs) {
    && (forall k :: k in outs.byAmount ==> outs.byAmount[k].outputId in outs.byId)
    && (forall k, l :: k in outs.byAmount && l in outs.byAmount && k != l ==>
          outs.byAmount[k].outputId != outs.byAmount[l].outputId)
  }

  ghost predicate Keyed(t: Tables) {
    && (forall h :: h in t.txIndices ==> HasSlots(t, h))
    && (forall g, h :: g in t.txIndices && h in t.txIndices && g != h ==> t.txIndices[g].id != t.txIndices[h].id)
    && OutsKeyed(t.outs)
  }

  lemma IntegrityIsKeyed(t: Tables)
    requires Integrity(t)
    ensures Keyed(t)
  {
    hide SlotRight, StoredAmount;
    forall k, l | k in t.outs.byAmount && l in t.outs.byAmount && k != l
      ensures t.outs.byAmount[k].outputId != t.outs.byAmount[l].outputId
    {
      assert RowOwned(t, k) && RowOwned(t, l);
    }
  }

  // ---------------------------------------------------------------- the outputs of one transaction

  /** The key under which the removal of output i looks for its row. */
  function RemovalKey(tx: Tx, indices: seq<nat>, i: nat): (nat, nat)
    requires i < |tx.vout| && i < |indices|
  {
    (RemovalAmount(tx, i), indices[i])
  }

  ghost predicate IsRemovalKey(tx: Tx, indices: seq<nat>, n: nat, key: (nat, nat))
    requires n <= |tx.vout| && n <= |indices|
  {
    exists i :: 0 <= i < n && RemovalKey(tx, indices, i) == key
  }

  /** The rows that the removal of the first n outputs looks for are there, each wanted once. */
  ghost predicate RowsThere(outs: Outs, tx: Tx, indices: seq<nat>, n: nat)
    requires n <= |tx.vout| && n <= |indices|
  {
    && (forall i :: 0 <= i < n ==> RemovalKey(tx, indices, i) in outs.byAmount)
    && (forall i, j :: 0 <= i < j < n ==> RemovalKey(tx, indices, i) != RemovalKey(tx, indices, j))
  }

  lemma RemoveOutputReturns(outs: Outs, amount: nat, index: nat)
    requires OutsKeyed(outs)
    ensures var step := RemoveOutput(outs, amount, index);
            && step.outcome == (if (amount, index) in outs.byAmount then Ok else Threw(OutputDne))
            && (step.outcome.Ok? ==> OutsKeyed(step.outs) && step.outs.byAmount == outs.byAmount - {(amount, index)})
            && (step.outcome.Threw? ==> step.outs == outs)
  {
  }

  lemma {:induction false} RemoveOutputsReturn(outs: Outs, tx: Tx, indices: seq<nat>, n: nat)
    requires n <= |tx.vout| && n <= |indices| && OutsKeyed(outs)
    ensures var step := RemoveTxOutputs(outs, tx, indices, n);
            && step.outcome == (if RowsThere(outs, tx, indices, n) then Ok else Threw(OutputDne))
            && (step.outcome.Ok? ==> OutsKeyed(step.outs))
            && (step.outcome.Ok? ==> forall key :: key in step.outs.byAmount <==>
                                       key in outs.byAmount && !IsRemovalKey(tx, indices, n, key))
    decreases n
  {
    hide RemoveOutput, RemovalAmount, OutsKeyed;
    if n == 0 {
    } else {
      var key := RemovalKey(tx, indices, n - 1);
      var step := RemoveOutput(outs, key.0, key.1);
      RemoveOutputReturns(outs, key.0, key.1);
      if step.outcome.Ok? {
        RemoveOutputsReturn(step.outs, tx, indices, n - 1);
        assert RowsThere(outs, tx, indices, n) <==> RowsThere(step.outs, tx, indices, n - 1);
        assert forall k :: IsRemovalKey(tx, indices, n, k) <==> IsRemovalKey(tx, indices, n - 1, k) || k == key;
      }
    }
  }

  /** A removal that throws stops at an output k whose row is missing, and has taken exactly the rows of
      the outputs after it. */
  lemma {:induction false} RemovalStopsAt(outs: Outs, tx: Tx, indices: seq<nat>, n: nat)
    requires n <= |tx.vout| && n <= |indices| && OutsKeyed(outs)
    requires RemoveTxOutputs(outs, tx, indices, n).outcome.Threw?
    ensures exists k :: 0 <= k < n && StoppedAt(outs, RemoveTxOutputs(outs, tx, indices, n).outs, tx, indices, k, n)
    decreases n
  {
    hide RemoveOutput, RemovalAmount, OutsKeyed;
    var key := RemovalKey(tx, indices, n - 1);
    var step := RemoveOutput(outs, key.0, key.1);
    var left := RemoveTxOutputs(outs, tx, indices, n).outs;
    RemoveOutputReturns(outs, key.0, key.1);
    if step.outcome.Ok? {
      RemovalStopsAt(step.outs, tx, indices, n - 1);
      var k :| 0 <= k < n - 1 && StoppedAt(step.outs, left, tx, indices, k, n - 1);
      assert StoppedAt(outs, left, tx, indices, k, n);
    } else {
      assert StoppedAt(outs, left, tx, indices, n - 1, n);
    }
  }

  ghost predicate StoppedAt(outs: Outs, left: Outs, tx: Tx, indices: seq<nat>, k: nat, n: nat)
    requires k < n <= |tx.vout| && n <= |indices|
  {
    && RemovalKey(tx, indices, k) !in left.byAmount
    && (forall key :: key in left.byAmount <==>
          key in outs.byAmount && forall i :: k < i < n ==> RemovalKey(tx, indices, i) != key)
  }

  // ---------------------------------------------------------------- one transaction

  /** A stored transaction whose rows are there. */
  ghost predicate Removable(t: Tables, h: Hash) {
    HasSlots(t, h) && RowsThere(t.outs, TxAt(t, h), Indices(t, h), |TxAt(t, h).vout|)
  }

  ghost function TxAt(t: Tables, h: Hash): Tx
    requires HasSlots(t, h)
  {
    t.txs[t.txIndices[h].id]
  }

  ghost function Indices(t: Tables, h: Hash): seq<nat>
    requires HasSlots(t, h)
  {
    t.txOutputs[t.txIndices[h].id]
  }

  ghost predicate WantsRow(t: Tables, h: Hash, key: (nat, nat)) {
    HasSlots(t, h) && IsRemovalKey(TxAt(t, h), Indices(t, h), |TxAt(t, h).vout|, key)
  }

  /** The removals of two transactions look for different rows. */
  ghost predicate Apart(t: Tables, g: Hash, h: Hash) {
    forall key :: WantsRow(t, g, key) ==> !WantsRow(t, h, key)
  }

  /** Without h, everything else stays as it was but for the rows that the removal of h takes. */
  ghost predicate Without(t: Tables, after: Tables, h: Hash) {
    && after.txIndices == t.txIndices - {h}
    && (forall g :: g in after.txIndices ==>
          HasSlots(after, g) && HasSlots(t, g) && TxAt(after, g) == TxAt(t, g) && Indices(after, g) == Indices(t, g))
    && (forall key :: key in after.outs.byAmount <==> key in t.outs.byAmount && !WantsRow(t, h, key))
  }

  lemma RemovalReturns(t: Tables, h: Hash)
    requires Keyed(t)
    ensures var step := RemoveTransaction(t, h);
            && step.outcome == (if Removable(t, h) then Ok else Threw(if h in t.txIndices then OutputDne else TxDne))
            && (step.outcome.Ok? ==> Keyed(step.tables) && Without(t, step.tables, h))
            && (step.outcome.Threw? && h in t.txIndices ==>
                  step.tables == t.(spent := t.spent - ImageSet(TxAt(t, h).vin), txs := t.txs - {t.txIndices[h].id},
                                    outs := RemoveTxOutputs(t.outs, TxAt(t, h), Indices(t, h), |TxAt(t, h).vout|).outs))
            && (h !in t.txIndices ==> step.tables == t)
  {
    hide RemoveTxOutputs, ImageSet, RowsThere, OutsKeyed, IsRemovalKey;
    if h in t.txIndices {
      RemoveOutputsReturn(t.outs, TxAt(t, h), Indices(t, h), |TxAt(t, h).vout|);
    }
  }

  lemma StillRemovable(t: Tables, after: Tables, h: Hash, g: Hash)
    requires Without(t, after, h) && g in after.txIndices
    ensures Removable(after, g) <==> Removable(t, g) && Apart(t, g, h)
  {
    hide RemovalKey;
    var tx, indices := TxAt(t, g), Indices(t, g);
    if Removable(t, g) && Apart(t, g, h) {
      forall i | 0 <= i < |tx.vout|
        ensures RemovalKey(tx, indices, i) in after.outs.byAmount
      {
        assert IsRemovalKey(tx, indices, |tx.vout|, RemovalKey(tx, indices, i));
        assert WantsRow(t, g, RemovalKey(tx, indices, i));
      }
    }
  }

  lemma StillApart(t: Tables, after: Tables, h: Hash, f: Hash, g: Hash)
    requires Without(t, after, h) && f in after.txIndices && g in after.txIndices
    ensures Apart(after, f, g) <==> Apart(t, f, g)
  {
    hide IsRemovalKey;
    assert forall key :: WantsRow(after, f, key) <==> WantsRow(t, f, key);
    assert forall key :: WantsRow(after, g, key) <==> WantsRow(t, g, key);
  }

  // ---------------------------------------------------------------- the transactions of a block

  /** The first n listed transactions are stored, each listed once, and the rows are there, each wanted once. */
  ghost predicate AllRemovable(t: Tables, hashes: seq<Hash>, n: nat)
    requires n <= |hashes|
  {
    && (forall i :: 0 <= i < n ==> Removable(t, hashes[i]))
    && (forall i, j :: 0 <= i < j < n ==> hashes[i] != hashes[j] && Apart(t, hashes[i], hashes[j]))
  }

  lemma StoredIsThere(t: Tables, h: Hash)
    requires Keyed(t)
    ensures h in t.txIndices ==> HasSlots(t, h) && StoredTx(t, h) == Some(TxAt(t, h))
    ensures h !in t.txIndices ==> StoredTx(t, h) == None
  {
  }

  lemma AllRemovableStep(t: Tables, after: Tables, hashes: seq<Hash>, n: nat)
    requires 0 < n <= |hashes| && Keyed(t)
    requires Removable(t, hashes[n - 1]) && Without(t, after, hashes[n - 1])
    ensures AllRemovable(t, hashes, n) <==> AllRemovable(after, hashes, n - 1)
  {
    hide RowsThere, IsRemovalKey, Apart, WantsRow;
    var h := hashes[n - 1];
    forall i | 0 <= i < n - 1
      ensures Removable(after, hashes[i]) <==> Removable(t, hashes[i]) && hashes[i] != h && Apart(t, hashes[i], h)
    {
      if hashes[i] in after.txIndices {
        StillRemovable(t, after, h, hashes[i]);
      }
    }
    forall i, j | 0 <= i < j < n - 1 && hashes[i] in after.txIndices && hashes[j] in after.txIndices
      ensures Apart(after, hashes[i], hashes[j]) <==> Apart(t, hashes[i], hashes[j])
    {
      StillApart(t, after, h, hashes[i], hashes[j]);
    }
  }

  lemma {:induction false} PopTxsReturns(t: Tables, hashes: seq<Hash>, n: nat, popped: seq<Tx>)
    requires n <= |hashes| && Keyed(t)
    ensures PopTxs(t, hashes, n, popped).outcome.Ok? <==> AllRemovable(t, hashes, n)
    ensures n > 0 && hashes[n - 1] !in t.txIndices ==>
              PopTxs(t, hashes, n, popped) == PopStep(t, popped, Threw(DbError))
    ensures n > 0 && hashes[n - 1] in t.txIndices && !Removable(t, hashes[n - 1]) ==>
              PopTxs(t, hashes, n, popped)
              == PopStep(RemoveTransaction(t, hashes[n - 1]).tables, popped + [TxAt(t, hashes[n - 1])],
                         Threw(OutputDne))
    decreases n
  {
    hide RemoveTransaction, Keyed, Without, Apart, RowsThere;
    if n == 0 {
    } else {
      var h := hashes[n - 1];
      RemovalReturns(t, h);
      StoredIsThere(t, h);
      var step := RemoveTransaction(t, h);
      if step.outcome.Ok? {
        var tx := StoredTx(t, h).value;
        PopTxsReturns(step.tables, hashes, n - 1, popped + [tx]);
        AllRemovableStep(t, step.tables, hashes, n);
      }
    }
  }

  /** Only the first n hashes matter. */
  lemma {:induction false} PopTxsOf(t: Tables, one: seq<Hash>, other: seq<Hash>, n: nat, popped: seq<Tx>)
    requires n <= |one| && n <= |other| && one[..n] == other[..n]
    ensures PopTxs(t, one, n, popped) == PopTxs(t, other, n, popped)
    decreases n
  {
    hide RemoveTransaction;
    if n == 0 {
    } else {
      assert one[n - 1] == one[..n][n - 1] == other[..n][n - 1] == other[n - 1];
      assert one[..n - 1] == one[..n][..n - 1] == other[..n][..n - 1] == other[..n - 1];
      if StoredTx(t, one[n - 1]).Some? {
        var tx := StoredTx(t, one[n - 1]).value;
        PopTxsOf(RemoveTransaction(t, one[n - 1]).tables, one, other, n - 1, popped + [tx]);
      }
    }
  }

  /** The transactions after number k have come off and are handed out, and number k is not stored, or a row
      that its removal looks for is missing: then it is handed out too, and half removed. */
  ghost predicate PopStopped(t: Tables, hashes: seq<Hash>, k: nat, n: nat, popped: seq<Tx>, end: PopStep)
    requires k < n <= |hashes|
  {
    var after := PopTxs(t, hashes[k + 1..n], n - k - 1, popped);
    && after.outcome.Ok? && Keyed(after.tables)
    && (if hashes[k] in after.tables.txIndices then
          && !Removable(after.tables, hashes[k])
          && end == PopStep(RemoveTransaction(after.tables, hashes[k]).tables,
                            after.popped + [TxAt(after.tables, hashes[k])], Threw(OutputDne))
        else end == PopStep(after.tables, after.popped, Threw(DbError)))
  }

  lemma {:induction false} PopStopsAt(t: Tables, hashes: seq<Hash>, n: nat, popped: seq<Tx>)
    requires n <= |hashes| && Keyed(t) && PopTxs(t, hashes, n, popped).outcome.Threw?
    ensures exists k :: 0 <= k < n && PopStopped(t, hashes, k, n, popped, PopTxs(t, hashes, n, popped))
    decreases n
  {
    hide RemoveTransaction, Keyed, Without, Removable, TxAt;
    var end := PopTxs(t, hashes, n, popped);
    var h := hashes[n - 1];
    RemovalReturns(t, h);
    StoredIsThere(t, h);
    if Removable(t, h) {
      RemovableIsStored(t, h);
      var left := RemoveTransaction(t, h).tables;
      var more := popped + [StoredTx(t, h).value];
      PopStopsAt(left, hashes, n - 1, more);
      var k :| 0 <= k < n - 1 && PopStopped(left, hashes, k, n - 1, more, end);
      PopStopMoves(t, hashes, k, n, popped, end);
    } else {
      assert hashes[n..n] == [];
      assert PopTxs(t, hashes[n..n], 0, popped) == PopStep(t, popped, Ok);
      PopTxsReturns(t, hashes, n, popped);
      assert PopStopped(t, hashes, n - 1, n, popped, end);
    }
  }

  lemma RemovableIsStored(t: Tables, h: Hash)
    requires Removable(t, h)
    ensures h in t.txIndices
  {
  }

  lemma PopStopMoves(t: Tables, hashes: seq<Hash>, k: nat, n: nat, popped: seq<Tx>, end: PopStep)
    requires k < n - 1 && n <= |hashes|
    requires StoredTx(t, hashes[n - 1]).Some? && RemoveTransaction(t, hashes[n - 1]).outcome.Ok?
    requires PopStopped(RemoveTransaction(t, hashes[n - 1]).tables, hashes, k, n - 1,
                        popped + [StoredTx(t, hashes[n - 1]).value], end)
    ensures PopStopped(t, hashes, k, n, popped, end)
  {
    hide RemoveTransaction, Keyed, Removable, TxAt, StoredTx;
    var rest := hashes[k + 1..n];
    var more := popped + [StoredTx(t, hashes[n - 1]).value];
    assert rest[n - k - 2] == hashes[n - 1];
    assert rest[..n - k - 2] == hashes[k + 1..n - 1] == hashes[k + 1..n - 1][..n - k - 2];
    PopTxsOf(RemoveTransaction(t, hashes[n - 1]).tables, rest, hashes[k + 1..n - 1], n - k - 2, more);
  }

  /** The miner transaction comes off last, as if it were the first of the list. */
  lemma {:induction false} MinerComesLast(t: Tables, h: Hash, hashes: seq<Hash>, n: nat, popped: seq<Tx>)
    requires n <= |hashes|
    ensures var listed := PopTxs(t, hashes, n, popped);
            PopTxs(t, [h] + hashes, n + 1, popped).outcome.Ok? <==>
              listed.outcome.Ok? && RemoveTransaction(listed.tables, h).outcome.Ok?
    decreases n
  {
    hide RemoveTransaction;
    if n == 0 {
      UnstoredThrows(t, h);
      if StoredTx(t, h).Some? {
        var step := RemoveTransaction(t, h);
        var next := popped + [StoredTx(t, h).value];
        assert PopTxs(step.tables, [h] + hashes, 0, next) == PopStep(step.tables, next, Ok);
      }
    } else {
      if StoredTx(t, hashes[n - 1]).Some? {
        var tx := StoredTx(t, hashes[n - 1]).value;
        MinerComesLast(RemoveTransaction(t, hashes[n - 1]).tables, h, hashes, n - 1, popped + [tx]);
      }
    }
  }

  // ---------------------------------------------------------------- the block

  /** There is a top block and all its transactions can be taken off. */
  ghost predicate PopReturns(t: Tables) {
    && t.rows != []
    && var hashes := AllHashes(t.rows[|t.rows| - 1].block);
       AllRemovable(t, hashes, |hashes|)
  }

  lemma AllRemovableIgnoresRows(t: Tables, after: Tables, hashes: seq<Hash>)
    requires after == t.(rows := after.rows, blockHeights := after.blockHeights)
    ensures Keyed(t) ==> Keyed(after)
    ensures AllRemovable(t, hashes, |hashes|) <==> AllRemovable(after, hashes, |hashes|)
  {
    hide RowsThere, IsRemovalKey, OutsKeyed;
    assert forall h, key :: WantsRow(t, h, key) <==> WantsRow(after, h, key);
    assert forall h :: Removable(t, h) <==> Removable(after, h);
  }

  lemma TopRowComesOff(t: Tables)
    requires Linked(t) && t.rows != []
    ensures RemoveRow(t).outcome.Ok?
  {
  }

  /** On a store with index integrity and linked blocks, a pop returns if and only if it is as
      `PopReturns` says. */
  lemma PopReturnsExactly(t: Tables)
    requires Integrity(t) && Linked(t)
    ensures PopBlock(t).outcome.Ok? <==> PopReturns(t)
    ensures t.rows == [] ==> PopBlock(t) == PopStep(t, [], Threw(BlockDne))
  {
    hide Integrity, Linked, PopTxs, RemoveTransaction, AllRemovable, Keyed;
    if t.rows != [] {
      IntegrityIsKeyed(t);
      TopRowComesOff(t);
      var block := t.rows[|t.rows| - 1].block;
      var row := RemoveRow(t).tables;
      var hashes := AllHashes(block);
      AllRemovableIgnoresRows(t, row, hashes);
      PopTxsReturns(row, hashes, |hashes|, []);
      MinerComesLast(row, block.minerTx.hash, block.txHashes, |block.txHashes|, []);
    }
  }

  /** What a pop that throws leaves, the block's row gone: a listed transaction has stopped it, with those
      after it off; or the miner transaction has, with all listed ones off. */
  lemma PopThrowLeaves(t: Tables)
    requires Integrity(t) && Linked(t) && t.rows != [] && PopBlock(t).outcome.Threw?
    ensures var block, row := t.rows[|t.rows| - 1].block, RemoveRow(t).tables;
            var n := |block.txHashes|;
            var listed := PopTxs(row, block.txHashes, n, []);
            if listed.outcome.Threw? then
              exists k :: 0 <= k < n && PopStopped(row, block.txHashes, k, n, [], PopBlock(t))
            else
              && PopBlock(t).popped == listed.popped
              && PopBlock(t).tables == RemoveTransaction(listed.tables, block.minerTx.hash).tables
  {
    hide Integrity, Linked, PopTxs, RemoveTransaction, Keyed, PopStopped;
    IntegrityIsKeyed(t);
    TopRowComesOff(t);
    var block, row := t.rows[|t.rows| - 1].block, RemoveRow(t).tables;
    AllRemovableIgnoresRows(t, row, []);
    if PopTxs(row, block.txHashes, |block.txHashes|, []).outcome.Threw? {
      PopStopsAt(row, block.txHashes, |block.txHashes|, []);
    }
  }
}
