/**
 Concrete runs on which the block store does not do what its callers would expect. The exact
 conditions are in StoreExact (undo), StoreUndo (abort), StoreRefusal and StoreHistory (what a throw
 leaves), StoreBlacklist and StoreClient (the blacklist), StoreRct and StoreRctChain (counts).
 */
module StoreFindings {
  import opened ChainTypes
  import opened StoreSpec
  import opened StoreUndo
  import opened StoreExact
  import opened StoreSound
  import opened StoreRct
  import History = StoreHistory

  function BlockOf(miner: Tx): BlockInput {
    BlockInput(Block(1, 0, 7, 0, miner, []), [], 0, 0, 0, 0)
  }

  function KeyOutput(amount: nat): TxOut {
    TxOut(amount, KeyTarget(0), 0, 0)
  }

  /** A block whose transaction was dropped is stored, but can never be popped again. */
  lemma DroppedTransactionBlocksPop()
    ensures var b := BlockOf(Tx(2, 2, 0, [OtherIn], [], false));
            var added := AddBlock(EMPTY_TABLES, b);
            added.outcome == Ok && PopBlock(added.tables).outcome == Threw(TxDne)
  {
    var tx := Tx(2, 2, 0, [OtherIn], [], false);
    var b := BlockOf(tx);
    assert ScanInputs({}, tx.vin, 0) == Unsupported({});
    assert ImageSet(tx.vin) == {};
    assert AddTxs(EMPTY_TABLES, [], [], 0) == Step(EMPTY_TABLES, Ok);
    var added := AddBlock(EMPTY_TABLES, b).tables;
    assert added.rows[..0] == [];
    var row := RemoveRow(added).tables;
    assert PopTxs(row, [], 0, []) == PopStep(row, [], Ok);
  }

  /** The abort on an unsupported input un-spends a key image that an earlier transaction spent. */
  lemma AbortUnspendsEarlierImage(t: Tables, image: KeyImage, tx: Tx, txHash: Hash)
    requires image in t.spent
    requires tx.vin == [OtherIn, ToKey(image)]
    ensures AddTransaction(t, tx, txHash).outcome == Ok
    ensures image !in AddTransaction(t, tx, txHash).tables.spent
  {
    assert tx.vin[1].keyImage in ImageSet(tx.vin);
    assert tx.vin[0].OtherIn? && tx.vin[..FirstOther(tx.vin)] == [];
    UnsupportedInputAbort(t, tx, txHash);
  }

  /** A first block whose miner transaction has the one generation input and the unlock time asked for,
      but an output that cannot be stored: it throws, and its guard commits what was written all the same. */
  lemma FirstBlockLeavesTransaction()
    ensures var tx := Tx(2, 1, 60, [Gen(0)], [KeyOutput(0)], false);
            var b := BlockOf(tx);
            var after := History.Apply(History.EMPTY_DB, History.Add(b));
            && UndoSafe(b)
            && AddBlock(EMPTY_TABLES, b).outcome == Threw(DbError)
            && after.committed
               == EMPTY_TABLES.(txIndices := map[2 := TxIndex(0, 60, 0)], txs := map[0 := tx])
  {
    var tx := Tx(2, 1, 60, [Gen(0)], [KeyOutput(0)], false);
    ScanOne(tx.vin);
    assert ScanInputs({}, tx.vin, 0) == ScanInputs({}, tx.vin, 1) == Scanned({});
    var empty := Outs(map[], map[]);
    assert AddTxOutputs(empty, tx, 2, 0, 0) == OutsStep(empty, [], Ok);
    assert AddTxOutputs(empty, tx, 2, 0, 1) == OutsStep(empty, [], Threw(DbError));
  }

  /** Adding and popping a block with a stake restores every table, but leaves its amount index on the
      output blacklist: whatever was on the list, it changes unless the index was there already. */
  lemma BlacklistOutlivesPop(list: set<nat>)
    ensures var b := BlockOf(Tx(2, 2, 0, [Gen(0)], [KeyOutput(5)], true));
            && UndoSafe(b)
            && AddBlock(EMPTY_TABLES, b).outcome == Ok
            && PopBlock(AddBlock(EMPTY_TABLES, b).tables).tables == EMPTY_TABLES
            && (list + BlacklistedByBlock(EMPTY_TABLES, b) == list <==> 0 in list)
  {
    var tx := Tx(2, 2, 0, [Gen(0)], [KeyOutput(5)], true);
    var b := BlockOf(tx);
    assert UndoSafe(b) by { assert OnlyGen(tx.vin); }
    hide AddBlock, PopBlock, BlacklistedByBlock, UndoSafe;
    OneOutput(tx);
    PopUndoesAdd(EMPTY_TABLES, b);
  }

  /** A misfiled output: stored under amount 0, looked for under amount 5. */
  lemma MisfiledOutputBlocksPop()
    ensures var b := BlockOf(Tx(2, 2, 0, [Gen(0), ToKey(9)], [KeyOutput(5)], true));
            && Misfiled(b.block.minerTx)
            && AddBlock(EMPTY_TABLES, b).outcome == Ok
            && !(PopBlock(AddBlock(EMPTY_TABLES, b).tables).outcome.Ok?
                 && PopBlock(AddBlock(EMPTY_TABLES, b).tables).tables == EMPTY_TABLES)
  {
    var tx := Tx(2, 2, 0, [Gen(0), ToKey(9)], [KeyOutput(5)], true);
    var b := BlockOf(tx);
    assert tx.vin[0].Gen? && tx.vout[0].amount != 0;
    hide AddBlock, PopBlock, BlacklistedByBlock;
    OneOutput(tx);
    PopUndoesAddExactly(EMPTY_TABLES, b);
  }

  /** A block of one miner transaction with one output goes into an empty store. */
  lemma OneOutput(tx: Tx)
    requires tx.version == 2 && tx.stakes && tx.vout == [KeyOutput(5)]
    requires tx.vin == [Gen(0)] || tx.vin == [Gen(0), ToKey(9)]
    ensures AddBlock(EMPTY_TABLES, BlockOf(tx)).outcome == Ok
    ensures BlacklistedByBlock(EMPTY_TABLES, BlockOf(tx)) == {0}
  {
    hide AddTxOutputs, ScanInputs, HasGen;
    ScanOne(tx.vin);
    FirstOutput(tx);
    assert (set i | 0 <= i < |[0]| :: [0][i]) == {0} by { assert [0][0] == 0; }
    assert BlacklistedBy(EMPTY_TABLES, tx, tx.hash) == {0};
    var miner := AddTransaction(EMPTY_TABLES, tx, tx.hash);
    assert AddTxs(miner.tables, [], [], 0) == Step(miner.tables, Ok);
    assert BlacklistedByTxs(miner.tables, [], [], 0) == {};
  }

  lemma ScanOne(vin: seq<TxIn>)
    requires vin == [Gen(0)] || vin == [Gen(0), ToKey(9)]
    ensures ScanInputs({}, vin, 0).Scanned? && HasGen(vin)
  {
    assert vin[0].Gen?;
    if |vin| == 2 {
      assert ScanInputs({} + {9}, vin, 2).Scanned?;
      assert ScanInputs({}, vin, 1).Scanned?;
    } else {
      assert ScanInputs({}, vin, 1).Scanned?;
    }
  }

  lemma FirstOutput(tx: Tx)
    requires tx.version == 2 && tx.vout == [KeyOutput(5)] && HasGen(tx.vin)
    ensures var added := AddTxOutputs(Outs(map[], map[]), tx, tx.hash, 0, 1); added.outcome.Ok? && added.indices == [0]
  {
    var empty := Outs(map[], map[]);
    assert AddTxOutputs(empty, tx, tx.hash, 0, 0) == OutsStep(empty, [], Ok);
    assert KeysAt(empty, 0) == {};
  }

  /** A miner transaction without a generation input: one output is counted, none is under amount 0. */
  lemma MinerWithoutGenerationInput()
    ensures var b := BlockOf(Tx(2, 2, 0, [], [KeyOutput(5)], false));
            && AddBlock(EMPTY_TABLES, b).outcome == Ok
            && !RctSound(AddBlock(EMPTY_TABLES, b).tables)
  {
    var tx := Tx(2, 2, 0, [], [KeyOutput(5)], false);
    var b := BlockOf(tx);
    PlainOutput(tx);
    EmptySound();
    assert AllSupported(b) by { assert AllTxs(b) == [tx]; }
    assert RctSound(EMPTY_TABLES);
    hide AddBlock, Sound, RctSound, AllSupported;
    BlockKeepsRctExactly(EMPTY_TABLES, b);
    assert ZeroAmounts(tx.vout, 1) == 0 by { assert ZeroAmounts(tx.vout, 0) == 0; }
    assert OverCounted(b) == 1 && UnderCounted(b.txs, 0) == 0;
  }

  lemma PlainOutput(tx: Tx)
    requires tx == Tx(2, 2, 0, [], [KeyOutput(5)], false)
    ensures AddBlock(EMPTY_TABLES, BlockOf(tx)).outcome == Ok
  {
    hide AddTxOutputs, ScanInputs;
    assert ScanInputs({}, tx.vin, 0).Scanned? by { NoInputs(tx.vin); }
    assert AddTxOutputs(Outs(map[], map[]), tx, 2, 0, 1).outcome.Ok? by { PlainFirstOutput(tx); }
    var miner := AddTransaction(EMPTY_TABLES, tx, tx.hash);
    assert AddTxs(miner.tables, [], [], 0) == Step(miner.tables, Ok);
  }

  lemma NoInputs(vin: seq<TxIn>)
    requires vin == []
    ensures ScanInputs({}, vin, 0).Scanned?
  {
  }

  lemma PlainFirstOutput(tx: Tx)
    requires tx == Tx(2, 2, 0, [], [KeyOutput(5)], false)
    ensures AddTxOutputs(Outs(map[], map[]), tx, 2, 0, 1).outcome.Ok?
  {
    var empty := Outs(map[], map[]);
    assert AddTxOutputs(empty, tx, 2, 0, 0) == OutsStep(empty, [], Ok);
  }
}
