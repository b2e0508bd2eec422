/**
 The tables of the block store and, as functions on them, every step of `add_block` and `pop_block`.

 A step that throws returns the tables as they stand at the throw: nothing is rolled back here,
 that is the job of the enclosing write transaction (module StoreHistory).
 */
module StoreSpec {
  import opened ChainTypes
  import opened Extrema

  datatype OutTx = OutTx(txHash: Hash, localIndex: nat)

  /** A row of `output_amounts`. Only rows under amount 0 hold a commitment. */
  datatype OutKey = OutKey(outputId: nat, pubkey: nat, unlockTime: nat, height: nat, commitment: Option<Commitment>)

  /** The tables `output_txs` (by output id) and `output_amounts` (by amount and amount index). */
  datatype Outs = Outs(byId: map<nat, OutTx>, byAmount: map<(nat, nat), OutKey>)

  datatype TxIndex = TxIndex(id: nat, unlockTime: nat, height: nat)

  datatype BlockInfo = BlockInfo(height: nat, timestamp: nat, coins: nat, weight: nat, difficulty: nat,
                                 hash: Hash, cumRct: nat, longTermWeight: nat)

  /** One row of `blocks` with the row of `block_info` at the same height. */
  datatype BlockRow = BlockRow(block: Block, info: BlockInfo)

  datatype Tables = Tables(
    spent: set<KeyImage>,
    txIndices: map<Hash, TxIndex>,
    txs: map<nat, Tx>,
    txOutputs: map<nat, seq<nat>>,
    outs: Outs,
    rows: seq<BlockRow>,
    blockHeights: map<Hash, nat>)

  const EMPTY_TABLES: Tables := Tables({}, map[], map[], map[], Outs(map[], map[]), [], map[])

  datatype Step = Step(tables: Tables, outcome: Outcome)

  // ---------------------------------------------------------------- outputs

  /** One more than the last output id in the table, 0 for an empty table. */
  function NextId(byId: map<nat, OutTx>): (id: nat)
    ensures forall k :: k in byId ==> k < id
    ensures id == 0 || id - 1 in byId
  {
    if byId.Keys == {} then 0 else Greatest(byId.Keys) + 1
  }

  /** The keys of the rows stored under an amount. */
  function KeysAt(outs: Outs, amount: nat): set<(nat, nat)> {
    set k | k in outs.byAmount && k.0 == amount
  }

  datatype OutStep = OutStep(outs: Outs, index: nat, outcome: Outcome)

  function AddOutput(outs: Outs, txHash: Hash, amount: nat, target: Target, localIndex: nat,
                     unlockTime: nat, height: nat, commitment: Option<Commitment>): OutStep
  {
    if target.OtherTarget? || (amount == 0 && commitment.None?) then
      OutStep(outs, 0, Threw(DbError))
    else
      var id := NextId(outs.byId);
      var byId := outs.byId[id := OutTx(txHash, localIndex)];
      var index := |KeysAt(outs, amount)|;
      if exists k :: k in outs.byAmount && k.0 == amount && k.1 >= index then
        OutStep(outs.(byId := byId), 0, Threw(DbError)) // MDB_APPENDDUP below the last row
      else
        var row := OutKey(id, target.key, unlockTime, height, if amount == 0 then commitment else None);
        OutStep(Outs(byId, outs.byAmount[(amount, index) := row]), index, Ok)
  }

  function RemoveOutput(outs: Outs, amount: nat, index: nat): OutStep {
    if (amount, index) !in outs.byAmount then
      OutStep(outs, index, Threw(OutputDne))
    else
      var id := outs.byAmount[(amount, index)].outputId;
      if id !in outs.byId then
        OutStep(outs, index, Threw(DbError))
      else
        OutStep(Outs(outs.byId - {id}, outs.byAmount - {(amount, index)}), index, Ok)
  }

  /** Some input is a generation input: how `add_transaction` recognises a miner transaction. */
  predicate HasGen(vin: seq<TxIn>) {
    exists i :: 0 <= i < |vin| && vin[i].Gen?
  }

  /** The only input is a generation input: how `remove_tx_outputs` recognises one. */
  predicate OnlyGen(vin: seq<TxIn>) {
    |vin| == 1 && vin[0].Gen?
  }

  function StoredAmount(tx: Tx, i: nat): nat
    requires i < |tx.vout|
  {
    if HasGen(tx.vin) && tx.version >= V2_RINGCT then 0 else tx.vout[i].amount
  }

  function RemovalAmount(tx: Tx, i: nat): nat
    requires i < |tx.vout|
  {
    if tx.version >= V2_RINGCT && OnlyGen(tx.vin) then 0 else tx.vout[i].amount
  }

  function StoredUnlockTime(tx: Tx, i: nat): nat
    requires i < |tx.vout|
  {
    if tx.version >= V3_PER_OUTPUT_UNLOCK_TIMES then tx.vout[i].unlockTime else tx.unlockTime
  }

  function PassedCommitment(tx: Tx, i: nat): Option<Commitment>
    requires i < |tx.vout|
  {
    if HasGen(tx.vin) && tx.version >= V2_RINGCT then Some(ZeroCommit(tx.vout[i].amount))
    else if tx.version >= V2_RINGCT then Some(Mask(tx.vout[i].mask))
    else None
  }

  datatype OutsStep = OutsStep(outs: Outs, indices: seq<nat>, outcome: Outcome)

  /** Adds output i of a transaction. */
  function AddTxOutput(outs: Outs, tx: Tx, txHash: Hash, height: nat, i: nat): OutStep
    requires i < |tx.vout|
  {
    AddOutput(outs, txHash, StoredAmount(tx, i), tx.vout[i].target, i, StoredUnlockTime(tx, i), height,
              PassedCommitment(tx, i))
  }

  /** The state after the first n outputs of a transaction. */
  function AddTxOutputs(outs: Outs, tx: Tx, txHash: Hash, height: nat, n: nat): (r: OutsStep)
    requires n <= |tx.vout|
    ensures r.outcome.Ok? ==> |r.indices| == n
  {
    if n == 0 then OutsStep(outs, [], Ok)
    else
      var before := AddTxOutputs(outs, tx, txHash, height, n - 1);
      if before.outcome.Threw? then before
      else
        var step := AddTxOutput(before.outs, tx, txHash, height, n - 1);
        if step.outcome.Threw? then OutsStep(step.outs, before.indices, step.outcome)
        else OutsStep(step.outs, before.indices + [step.index], Ok)
  }

  /** Removes outputs n-1 down to 0 of a transaction. */
  function RemoveTxOutputs(outs: Outs, tx: Tx, indices: seq<nat>, n: nat): OutsStep
    requires n <= |tx.vout| && n <= |indices|
    decreases n
  {
    if n == 0 then OutsStep(outs, indices, Ok)
    else
      var step := RemoveOutput(outs, RemovalAmount(tx, n - 1), indices[n - 1]);
      if step.outcome.Threw? then OutsStep(step.outs, indices, step.outcome)
      else RemoveTxOutputs(step.outs, tx, indices, n - 1)
  }

  // ---------------------------------------------------------------- inputs

  /** What the input loop of `add_transaction` ends in, with the spent set at that point. */
  datatype InputScan =
    | Scanned(spent: set<KeyImage>) | Repeated(spent: set<KeyImage>) | Unsupported(spent: set<KeyImage>)

  function ScanInputs(spent: set<KeyImage>, vin: seq<TxIn>, i: nat): InputScan
    requires i <= |vin|
    decreases |vin| - i
  {
    if i == |vin| then Scanned(spent)
    else match vin[i]
      case ToKey(image) => if image in spent then Repeated(spent) else ScanInputs(spent + {image}, vin, i + 1)
      case Gen(_) => ScanInputs(spent, vin, i + 1)
      case OtherIn => Unsupported(spent)
  }

  function ImageSet(vin: seq<TxIn>): set<KeyImage> {
    set i | 0 <= i < |vin| && vin[i].ToKey? :: vin[i].keyImage
  }

  // ---------------------------------------------------------------- transactions

  function AddTransactionData(t: Tables, tx: Tx, txHash: Hash): Step {
    if txHash in t.txIndices then Step(t, Threw(TxExists))
    else
      var id := |t.txs|;
      var indexed := t.(txIndices := t.txIndices[txHash := TxIndex(id, tx.unlockTime, |t.rows|)]);
      if exists k :: k in t.txs && k >= id then Step(indexed, Threw(DbError)) // MDB_APPEND below the last row
      else Step(indexed.(txs := t.txs[id := tx]), Ok)
  }

  function AddIndices(t: Tables, id: nat, indices: seq<nat>): Step {
    if exists k :: k in t.txOutputs && k >= id then Step(t, Threw(DbError))
    else Step(t.(txOutputs := t.txOutputs[id := indices]), Ok)
  }

  /** `add_transaction`. A transaction with an unsupported input is dropped without an error. */
  function AddTransaction(t: Tables, tx: Tx, txHash: Hash): Step {
    match ScanInputs(t.spent, tx.vin, 0)
    case Repeated(spent) => Step(t.(spent := spent), Threw(KeyImageExists))
    case Unsupported(spent) => Step(t.(spent := spent - ImageSet(tx.vin)), Ok)
    case Scanned(spent) =>
      var data := AddTransactionData(t.(spent := spent), tx, txHash);
      if data.outcome.Threw? then data
      else
        var added := AddTxOutputs(t.outs, tx, txHash, |t.rows|, |tx.vout|);
        var stored := data.tables.(outs := added.outs);
        if added.outcome.Threw? then Step(stored, added.outcome)
        else AddIndices(stored, |t.txs|, added.indices)
  }

  /** The amount indices that `add_transaction` puts on the output blacklist. */
  function BlacklistedBy(t: Tables, tx: Tx, txHash: Hash): set<nat> {
    if tx.version >= V2_RINGCT && tx.stakes && ScanInputs(t.spent, tx.vin, 0).Scanned?
       && AddTransactionData(t, tx, txHash).outcome.Ok? then
      var added := AddTxOutputs(t.outs, tx, txHash, |t.rows|, |tx.vout|);
      if added.outcome.Ok? then set i | 0 <= i < |added.indices| :: added.indices[i] else {}
    else {}
  }

  function StoredTx(t: Tables, txHash: Hash): Option<Tx> {
    if txHash in t.txIndices && t.txIndices[txHash].id in t.txs then Some(t.txs[t.txIndices[txHash].id]) else None
  }

  /** `remove_transaction` with `remove_transaction_data`. */
  function RemoveTransaction(t: Tables, txHash: Hash): Step {
    match StoredTx(t, txHash)
    case None => Step(t, Threw(TxDne))
    case Some(tx) =>
      var id := t.txIndices[txHash].id;
      var unspent := t.(spent := t.spent - ImageSet(tx.vin), txs := t.txs - {id});
      if id !in t.txOutputs || |t.txOutputs[id]| < |tx.vout| then Step(unspent, Threw(DbError))
      else
        var removed := RemoveTxOutputs(t.outs, tx, t.txOutputs[id], |tx.vout|);
        if removed.outcome.Threw? then Step(unspent.(outs := removed.outs), removed.outcome)
        else
          Step(unspent.(outs := removed.outs, txOutputs := t.txOutputs - {id}, txIndices := t.txIndices - {txHash}), Ok)
  }

  // ---------------------------------------------------------------- blocks

  /** The state after the first n listed transactions. */
  function AddTxs(t: Tables, txs: seq<Tx>, hashes: seq<Hash>, n: nat): Step
    requires n <= |txs| && n <= |hashes|
  {
    if n == 0 then Step(t, Ok)
    else
      var before := AddTxs(t, txs, hashes, n - 1);
      if before.outcome.Threw? then before else AddTransaction(before.tables, txs[n - 1], hashes[n - 1])
  }

  /** The amount indices that the first n listed transactions put on the output blacklist. */
  function BlacklistedByTxs(t: Tables, txs: seq<Tx>, hashes: seq<Hash>, n: nat): set<nat>
    requires n <= |txs| && n <= |hashes|
  {
    if n == 0 then {}
    else
      var before := AddTxs(t, txs, hashes, n - 1);
      BlacklistedByTxs(t, txs, hashes, n - 1)
      + if before.outcome.Threw? then {} else BlacklistedBy(before.tables, txs[n - 1], hashes[n - 1])
  }

  function ZeroAmounts(vout: seq<TxOut>, n: nat): nat
    requires n <= |vout|
  {
    if n == 0 then 0 else ZeroAmounts(vout, n - 1) + if vout[n - 1].amount == 0 then 1 else 0
  }

  function ListedRct(txs: seq<Tx>, n: nat): nat
    requires n <= |txs|
  {
    if n == 0 then 0 else ListedRct(txs, n - 1) + ZeroAmounts(txs[n - 1].vout, |txs[n - 1].vout|)
  }

  /** The `num_rct_outs` that `add_block` counts for a block. */
  function NumRctOuts(b: BlockInput): nat {
    (if b.block.minerTx.version >= V2_RINGCT then |b.block.minerTx.vout| else 0) + ListedRct(b.txs, |b.txs|)
  }

  /** The storage engine's `add_block`: the row with its metadata and the height by hash. */
  function AddRow(t: Tables, b: BlockInput, numRct: nat): Step {
    var height := |t.rows|;
    var block := b.block;
    if block.hash in t.blockHeights then Step(t, Threw(BlockExists))
    else if height > 0 && block.prevId !in t.blockHeights then Step(t, Threw(DbError))
    else if height > 0 && t.blockHeights[block.prevId] != height - 1 then Step(t, Threw(BlockParentDne))
    else
      var earlier := if block.majorVersion >= 4 && height > 0 then t.rows[height - 1].info.cumRct else 0;
      var info := BlockInfo(height, block.timestamp, b.coins, b.weight, b.cumulativeDifficulty, block.hash,
                            numRct + earlier, b.longTermWeight);
      Step(t.(rows := t.rows + [BlockRow(block, info)], blockHeights := t.blockHeights[block.hash := height]), Ok)
  }

  /** The tables once the miner transaction and every listed transaction are in. */
  function AddBlockTxs(t: Tables, b: BlockInput): Step
    requires |b.block.txHashes| == |b.txs|
  {
    var miner := AddTransaction(t, b.block.minerTx, b.block.minerTx.hash);
    if miner.outcome.Threw? then miner else AddTxs(miner.tables, b.txs, b.block.txHashes, |b.txs|)
  }

  function AddBlock(t: Tables, b: BlockInput): Step {
    if |b.block.txHashes| != |b.txs| then Step(t, Threw(SizeMismatch))
    else
      var txs := AddBlockTxs(t, b);
      if txs.outcome.Threw? then txs else AddRow(txs.tables, b, NumRctOuts(b))
  }

  /** The amount indices that a block puts on the output blacklist. */
  function BlacklistedByBlock(t: Tables, b: BlockInput): set<nat> {
    if |b.block.txHashes| != |b.txs| then {}
    else
      var miner := AddTransaction(t, b.block.minerTx, b.block.minerTx.hash);
      BlacklistedBy(t, b.block.minerTx, b.block.minerTx.hash)
      + if miner.outcome.Threw? then {} else BlacklistedByTxs(miner.tables, b.txs, b.block.txHashes, |b.txs|)
  }

  function RemoveRow(t: Tables): Step {
    if |t.rows| == 0 then Step(t, Threw(BlockDne))
    else
      var hash := t.rows[|t.rows| - 1].info.hash;
      if hash !in t.blockHeights then Step(t, Threw(DbError))
      else Step(t.(rows := t.rows[..|t.rows| - 1], blockHeights := t.blockHeights - {hash}), Ok)
  }

  datatype PopStep = PopStep(tables: Tables, popped: seq<Tx>, outcome: Outcome)

  /** Takes transactions n-1 down to 0 off, appending each to the popped ones. */
  function PopTxs(t: Tables, hashes: seq<Hash>, n: nat, popped: seq<Tx>): PopStep
    requires n <= |hashes|
    decreases n
  {
    if n == 0 then PopStep(t, popped, Ok)
    else match StoredTx(t, hashes[n - 1])
      case None => PopStep(t, popped, Threw(DbError))
      case Some(tx) =>
        var step := RemoveTransaction(t, hashes[n - 1]);
        if step.outcome.Threw? then PopStep(step.tables, popped + [tx], step.outcome)
        else PopTxs(step.tables, hashes, n - 1, popped + [tx])
  }

  /** The transactions of a block coming off, once its row is gone. */
  function PopBlockTxs(t: Tables, block: Block): PopStep {
    var txs := PopTxs(t, block.txHashes, |block.txHashes|, []);
    if txs.outcome.Threw? then txs
    else
      var miner := RemoveTransaction(txs.tables, block.minerTx.hash);
      PopStep(miner.tables, txs.popped, miner.outcome)
  }

  function PopBlock(t: Tables): PopStep {
    var row := RemoveRow(t);
    if row.outcome.Threw? then PopStep(row.tables, [], row.outcome)
    else PopBlockTxs(row.tables, t.rows[|t.rows| - 1].block)
  }
}
