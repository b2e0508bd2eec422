/**
 The cumulative RingCT count stored with each block is the number of outputs under amount 0
 up to that height.
 */
module StoreRct {
  import opened ChainTypes
  import opened StoreSpec
  import opened StoreUndo
  import opened StoreExact
  import opened StoreIntegrity
  import opened StoreSound

  // ---------------------------------------------------------------- one block

  /** Every output of the transaction goes under amount 0, whatever its own amount. */
  predicate AllUnderZero(tx: Tx) {
    tx.version >= V2_RINGCT && HasGen(tx.vin)
  }

  function NonZeroAmounts(tx: Tx): int {
    |tx.vout| - ZeroAmounts(tx.vout, |tx.vout|)
  }

  /** Outputs counted by `add_block` that do not go under amount 0: those of a v2 miner transaction
      without a generation input. */
  function OverCounted(b: BlockInput): int {
    var miner := b.block.minerTx;
    if miner.version >= V2_RINGCT && !HasGen(miner.vin) then NonZeroAmounts(miner) else 0
  }

  /** Outputs of the first n listed transactions that go under amount 0 without being counted:
      those of a v2 transaction with a generation input. */
  function UnderCounted(txs: seq<Tx>, n: nat): int
    requires n <= |txs|
  {
    if n == 0 then 0 else UnderCounted(txs, n - 1) + if AllUnderZero(txs[n - 1]) then NonZeroAmounts(txs[n - 1]) else 0
  }

  lemma AddedOutputsCommitted(outs: Outs, tx: Tx, txHash: Hash, height: nat, n: nat, i: nat)
    requires i < n <= |tx.vout|
    requires AddTxOutputs(outs, tx, txHash, height, n).outcome.Ok?
    ensures tx.version < V2_RINGCT ==> StoredAmount(tx, i) != 0
  {
    hide KeysAt, NextId, HasGen;
    if i == n - 1 {
    } else {
      AddedOutputsCommitted(outs, tx, txHash, height, n - 1, i);
    }
  }

  lemma {:induction false} StoredZerosAre(tx: Tx, n: nat)
    requires n <= |tx.vout|
    ensures StoredZeros(tx, n) == if AllUnderZero(tx) then n else ZeroAmounts(tx.vout, n)
    ensures ZeroAmounts(tx.vout, n) > 0 ==> exists i :: 0 <= i < n && tx.vout[i].amount == 0
  {
    if n == 0 {
    } else {
      StoredZerosAre(tx, n - 1);
    }
  }

  lemma MinerZeros(t: Tables, b: BlockInput)
    requires Supported(b.block.minerTx)
    requires AddTransaction(t, b.block.minerTx, b.block.minerTx.hash).outcome.Ok?
    ensures var miner := b.block.minerTx;
            StoredZeros(miner, |miner.vout|) + OverCounted(b) == if miner.version >= V2_RINGCT then |miner.vout| else 0
  {
    hide AddTransaction, AddTxOutputs, Supported, HasGen, ImageSet;
    var miner := b.block.minerTx;
    AddTransactionWrites(t, miner, miner.hash);
    StoredZerosAre(miner, |miner.vout|);
    if miner.version < V2_RINGCT && ZeroAmounts(miner.vout, |miner.vout|) > 0 {
      var i :| 0 <= i < |miner.vout| && miner.vout[i].amount == 0;
      AddedOutputsCommitted(t.outs, miner, miner.hash, |t.rows|, |miner.vout|, i);
    }
  }

  lemma {:induction false} ListedZeros(miner: Tx, txs: seq<Tx>, n: nat)
    requires n <= |txs|
    ensures AllStoredZeros([miner] + txs, n + 1)
            == StoredZeros(miner, |miner.vout|) + ListedRct(txs, n) + UnderCounted(txs, n)
  {
    hide AllUnderZero, StoredZeros, ZeroAmounts;
    if n == 0 {
      assert AllStoredZeros([miner] + txs, 0) == 0;
    } else {
      ListedZeros(miner, txs, n - 1);
      StoredZerosAre(txs[n - 1], |txs[n - 1].vout|);
    }
  }

  /** How far the count that `add_block` passes down is from the rows the block puts under amount 0. */
  lemma NumRctAgainstRows(t: Tables, b: BlockInput)
    requires AllSupported(b) && AddBlock(t, b).outcome.Ok?
    ensures ZeroRows(AddBlock(t, b).tables.outs) + OverCounted(b)
            == ZeroRows(t.outs) + NumRctOuts(b) + UnderCounted(b.txs, |b.txs|)
  {
    hide AddBlock, AddTxs, ZeroRows, AddTransaction, StoredZeros, Supported, OverCounted;
    AddBlockRow(t, b);
    AddBlockTxsIsAddTxs(t, b);
    AddTxsHeld(t, AllTxs(b), AllHashes(b.block), |b.txs| + 1);
    ListedZeros(b.block.minerTx, b.txs, |b.txs|);
    assert AllTxs(b)[0] == b.block.minerTx;
    MinerZeros(t, b);
  }

  // ---------------------------------------------------------------- rows carry the height they were added at

  /** Old rows stay, new ones carry the given height. */
  ghost predicate GrownAt(outs: Outs, after: Outs, height: nat) {
    && RowsStay(outs, after)
    && forall key :: key in after.byAmount && key !in outs.byAmount ==> after.byAmount[key].height == height
  }

  lemma {:induction false} OutputsGrow(outs: Outs, tx: Tx, txHash: Hash, height: nat, n: nat)
    requires n <= |tx.vout|
    requires AddTxOutputs(outs, tx, txHash, height, n).outcome.Ok?
    ensures GrownAt(outs, AddTxOutputs(outs, tx, txHash, height, n).outs, height)
  {
    hide AddTxOutput, StoredAmount, NextId, KeysAt;
    if n == 0 {
    } else {
      OutputsGrow(outs, tx, txHash, height, n - 1);
      AddTxOutputRow(AddTxOutputs(outs, tx, txHash, height, n - 1).outs, tx, txHash, height, n - 1);
    }
  }

  lemma {:induction false} TxsGrow(t: Tables, txs: seq<Tx>, hashes: seq<Hash>, n: nat)
    requires n <= |txs| && n <= |hashes|
    requires forall i :: 0 <= i < n ==> Supported(txs[i])
    requires AddTxs(t, txs, hashes, n).outcome.Ok?
    ensures GrownAt(t.outs, AddTxs(t, txs, hashes, n).tables.outs, |t.rows|)
  {
    hide AddTransaction, Supported, AddTxOutputs;
    if n == 0 {
    } else {
      TxsGrow(t, txs, hashes, n - 1);
      AddTxsKeepsRows(t, txs, hashes, n - 1);
      var before := AddTxs(t, txs, hashes, n - 1).tables;
      AddTransactionWrites(before, txs[n - 1], hashes[n - 1]);
      OutputsGrow(before.outs, txs[n - 1], hashes[n - 1], |t.rows|, |txs[n - 1].vout|);
    }
  }

  // ---------------------------------------------------------------- the whole chain

  ghost function ZeroKeysUpTo(outs: Outs, r: nat): set<(nat, nat)> {
    set key | key in outs.byAmount && key.0 == 0 && outs.byAmount[key].height <= r
  }

  ghost predicate RctSound(t: Tables) {
    forall r :: 0 <= r < |t.rows| ==> t.rows[r].info.cumRct == |ZeroKeysUpTo(t.outs, r)|
  }

  lemma HeightsBelow(t: Tables, key: (nat, nat))
    requires Sound(t) && key in t.outs.byAmount
    ensures t.outs.byAmount[key].height < |t.rows|
  {
    hide StoredAmount, SpentExact, Dense, Linked;
    assert RowOwned(t, key);
    var o := t.outs.byId[t.outs.byAmount[key].outputId];
    assert SlotRight(t, o.txHash, o.localIndex);
  }

  lemma AllZeroKeys(t: Tables)
    requires Sound(t) && |t.rows| > 0
    ensures ZeroKeysUpTo(t.outs, |t.rows| - 1) == KeysAt(t.outs, 0)
  {
    hide Sound;
    forall key | key in t.outs.byAmount
      ensures t.outs.byAmount[key].height < |t.rows|
    {
      HeightsBelow(t, key);
    }
  }

  lemma NoZeroKeys(t: Tables)
    requires Sound(t) && |t.rows| == 0
    ensures KeysAt(t.outs, 0) == {}
  {
    hide Sound;
    forall key | key in t.outs.byAmount
      ensures false
    {
      HeightsBelow(t, key);
    }
  }

  lemma EarlierZeroKeys(t: Tables, after: Outs, r: nat)
    requires r < |t.rows| && GrownAt(t.outs, after, |t.rows|)
    ensures ZeroKeysUpTo(after, r) == ZeroKeysUpTo(t.outs, r)
  {
  }

  /** Blocks before version 4 do not carry the count of the chain below on. */
  ghost function NotCarried(t: Tables, b: BlockInput): nat {
    if |t.rows| > 0 && b.block.majorVersion < 4 then ZeroRows(t.outs) else 0
  }

  lemma EarlierCounts(t: Tables, b: BlockInput, r: nat)
    requires r < |t.rows| && AllSupported(b) && AddBlock(t, b).outcome.Ok?
    ensures |AddBlock(t, b).tables.rows| == |t.rows| + 1 && AddBlock(t, b).tables.rows[r] == t.rows[r]
    ensures ZeroKeysUpTo(AddBlock(t, b).tables.outs, r) == ZeroKeysUpTo(t.outs, r)
  {
    hide AddBlock, AddBlockTxs, AllSupported, NumRctOuts;
    AddBlockRow(t, b);
    BlockGrows(t, b);
    EarlierZeroKeys(t, AddBlock(t, b).tables.outs, r);
  }

  lemma TopCount(t: Tables)
    requires Sound(t) && RctSound(t)
    ensures ZeroRows(t.outs) == if |t.rows| > 0 then t.rows[|t.rows| - 1].info.cumRct else 0
  {
    hide Sound;
    if |t.rows| > 0 {
      AllZeroKeys(t);
    } else {
      NoZeroKeys(t);
    }
  }

  /** A block keeps every stored count right exactly when its own miscounts cancel out. */
  lemma BlockKeepsRctExactly(t: Tables, b: BlockInput)
    requires Sound(t) && RctSound(t)
    requires AllSupported(b) && AddBlock(t, b).outcome.Ok?
    ensures RctSound(AddBlock(t, b).tables) <==> OverCounted(b) == UnderCounted(b.txs, |b.txs|) + NotCarried(t, b)
  {
    hide AddBlock, AddBlockTxs, Sound, AllSupported, ZeroKeysUpTo, KeysAt, NumRctOuts, OverCounted, UnderCounted;
    var after := AddBlock(t, b).tables;
    AddBlockRow(t, b);
    forall r | 0 <= r < |t.rows|
      ensures after.rows[r].info.cumRct == |ZeroKeysUpTo(after.outs, r)|
    {
      EarlierCounts(t, b, r);
    }
    BlockKeepsSound(t, b);
    AllZeroKeys(after);
    NumRctAgainstRows(t, b);
    TopCount(t);
  }

  /** The miner transaction has a generation input and no listed transaction has one. */
  predicate CoinbaseShape(b: BlockInput) {
    HasGen(b.block.minerTx.vin) && forall i :: 0 <= i < |b.txs| ==> !HasGen(b.txs[i].vin)
  }

  lemma {:induction false} NothingUnderCounted(txs: seq<Tx>, n: nat)
    requires n <= |txs| && forall i :: 0 <= i < n ==> !HasGen(txs[i].vin)
    ensures UnderCounted(txs, n) == 0
  {
    hide HasGen;
    if n == 0 {
    } else {
      NothingUnderCounted(txs, n - 1);
    }
  }

  lemma BlockKeepsRct(t: Tables, b: BlockInput)
    requires Sound(t) && RctSound(t)
    requires AllSupported(b) && CoinbaseShape(b)
    requires |t.rows| > 0 ==> b.block.majorVersion >= 4
    requires AddBlock(t, b).outcome.Ok?
    ensures RctSound(AddBlock(t, b).tables)
  {
    hide AddBlock, Sound, AllSupported, RctSound, HasGen, ZeroRows;
    BlockKeepsRctExactly(t, b);
    NothingUnderCounted(b.txs, |b.txs|);
  }

  lemma BlockGrows(t: Tables, b: BlockInput)
    requires AllSupported(b) && AddBlock(t, b).outcome.Ok?
    ensures GrownAt(t.outs, AddBlock(t, b).tables.outs, |t.rows|)
  {
    hide AddBlock, AddTxs, AddTransaction, Supported, NumRctOuts;
    AddBlockRow(t, b);
    AddBlockTxsIsAddTxs(t, b);
    TxsGrow(t, AllTxs(b), AllHashes(b.block), |b.txs| + 1);
  }
}
