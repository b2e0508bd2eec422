/**
 What a whole block puts on the output blacklist: the recorded indices of its version 2 stakes.
 */
module StoreBlacklist {
  import opened ChainTypes
  import opened StoreSpec
  import opened StoreUndo
  import opened StoreExact
  import opened StoreSound
  import opened StoreAccept

  /** An index recorded for a version 2 stake that is stored under a hash. */
  ghost predicate StakeIndex(t: Tables, tx: Tx, h: Hash, k: nat) {
    && tx.version >= 2 && tx.stakes
    && Recorded(t, h) && k in t.txOutputs[t.txIndices[h].id]
  }

  predicate Recorded(t: Tables, h: Hash) {
    h in t.txIndices && t.txIndices[h].id in t.txOutputs
  }

  ghost predicate StakedAmong(t: Tables, txs: seq<Tx>, hashes: seq<Hash>, n: nat, k: nat)
    requires n <= |txs| && n <= |hashes|
  {
    exists i :: 0 <= i < n && StakeIndex(t, txs[i], hashes[i], k)
  }

  /** A later transaction leaves the recorded indices of an earlier one alone. */
  lemma RecordedStays(t: Tables, tx: Tx, txHash: Hash, h: Hash)
    requires Supported(tx) && AddTransaction(t, tx, txHash).outcome.Ok? && Recorded(t, h)
    ensures var after := AddTransaction(t, tx, txHash).tables;
            && Recorded(after, h) && after.txIndices[h] == t.txIndices[h]
            && after.txOutputs[t.txIndices[h].id] == t.txOutputs[t.txIndices[h].id]
  {
    hide AddTransaction, AddTxOutputs, ImageSet, Supported;
    AddTransactionWrites(t, tx, txHash);
  }

  /** An added transaction's indices are recorded, and those of a version 2 stake are blacklisted. */
  lemma NewlyRecorded(t: Tables, tx: Tx, txHash: Hash)
    requires Supported(tx) && AddTransaction(t, tx, txHash).outcome.Ok?
    ensures var after := AddTransaction(t, tx, txHash).tables;
            && Recorded(after, txHash)
            && forall k :: k in BlacklistedBy(t, tx, txHash) <==> StakeIndex(after, tx, txHash, k)
  {
    hide AddTransaction, AddTxOutputs, ImageSet, Supported, BlacklistedBy;
    AddTransactionWrites(t, tx, txHash);
    BlacklistIsRecordedIndices(t, tx, txHash);
  }

  lemma {:induction false} TxsBlacklist(t: Tables, txs: seq<Tx>, hashes: seq<Hash>, n: nat)
    requires n <= |txs| && n <= |hashes|
    requires forall i :: 0 <= i < n ==> Supported(txs[i])
    requires AddTxs(t, txs, hashes, n).outcome.Ok?
    ensures var after := AddTxs(t, txs, hashes, n).tables;
            && (forall i :: 0 <= i < n ==> Recorded(after, hashes[i]))
            && (forall k :: k in BlacklistedByTxs(t, txs, hashes, n) <==> StakedAmong(after, txs, hashes, n, k))
  {
    hide AddTransaction, Supported, BlacklistedBy;
    if n == 0 {
    } else {
      TxsBlacklist(t, txs, hashes, n - 1);
      var before := AddTxs(t, txs, hashes, n - 1).tables;
      var after := AddTxs(t, txs, hashes, n).tables;
      NewlyRecorded(before, txs[n - 1], hashes[n - 1]);
      forall i | 0 <= i < n - 1
        ensures Recorded(after, hashes[i])
        ensures forall k :: StakeIndex(after, txs[i], hashes[i], k) <==> StakeIndex(before, txs[i], hashes[i], k)
      {
        RecordedStays(before, txs[n - 1], hashes[n - 1], hashes[i]);
      }
      hide StakeIndex, Recorded;
      assert forall k :: StakedAmong(after, txs, hashes, n, k) <==>
                           StakedAmong(before, txs, hashes, n - 1, k)
                           || StakeIndex(after, txs[n - 1], hashes[n - 1], k);
    }
  }

  lemma {:induction false} BlacklistShift(t: Tables, tx: Tx, h: Hash, txs: seq<Tx>, hashes: seq<Hash>, n: nat)
    requires n <= |txs| && n <= |hashes|
    requires AddTransaction(t, tx, h).outcome.Ok?
    ensures BlacklistedByTxs(t, [tx] + txs, [h] + hashes, n + 1)
            == BlacklistedBy(t, tx, h) + BlacklistedByTxs(AddTransaction(t, tx, h).tables, txs, hashes, n)
  {
    hide AddTransaction, BlacklistedBy, AddTxs;
    if n == 0 {
      assert AddTxs(t, [tx] + txs, [h] + hashes, 0) == Step(t, Ok) by { NoTxs(t, [tx] + txs, [h] + hashes); }
      assert BlacklistedByTxs(t, [tx] + txs, [h] + hashes, 0) == {};
    } else {
      BlacklistShift(t, tx, h, txs, hashes, n - 1);
      AddTxsShift(t, tx, h, txs, hashes, n - 1);
    }
  }

  lemma NoTxs(t: Tables, txs: seq<Tx>, hashes: seq<Hash>)
    ensures AddTxs(t, txs, hashes, 0) == Step(t, Ok)
  {
  }

  lemma FirstBlacklist(t: Tables, txs: seq<Tx>, hashes: seq<Hash>)
    requires |txs| > 0 && |hashes| > 0
    ensures BlacklistedByTxs(t, txs, hashes, 1) == BlacklistedBy(t, txs[0], hashes[0])
  {
    hide BlacklistedBy;
    NoTxs(t, txs, hashes);
    assert BlacklistedByTxs(t, txs, hashes, 0) == {};
  }

  /** After a throw nothing more is blacklisted. */
  lemma {:induction false} BlacklistEnds(t: Tables, txs: seq<Tx>, hashes: seq<Hash>, k: nat, n: nat)
    requires k <= n <= |txs| && n <= |hashes| && AddTxs(t, txs, hashes, k).outcome.Threw?
    ensures BlacklistedByTxs(t, txs, hashes, n) == BlacklistedByTxs(t, txs, hashes, k)
  {
    hide BlacklistedBy, AddTxs;
    if n == k {
    } else {
      BlacklistEnds(t, txs, hashes, k, n - 1);
      ThrowEnds(t, txs, hashes, k, n - 1);
    }
  }

  lemma BlacklistedByBlockIsTxs(t: Tables, b: BlockInput)
    requires |b.block.txHashes| == |b.txs|
    ensures BlacklistedByBlock(t, b) == BlacklistedByTxs(t, AllTxs(b), AllHashes(b.block), |b.txs| + 1)
  {
    hide AddTransaction, AddTxs, BlacklistedBy, BlacklistedByTxs;
    var miner := b.block.minerTx;
    if AddTransaction(t, miner, miner.hash).outcome.Ok? {
      BlacklistShift(t, miner, miner.hash, b.txs, b.block.txHashes, |b.txs|);
    } else {
      FirstTx(t, AllTxs(b), AllHashes(b.block));
      FirstBlacklist(t, AllTxs(b), AllHashes(b.block));
      BlacklistEnds(t, AllTxs(b), AllHashes(b.block), 1, |b.txs| + 1);
    }
  }

  /** Also a refused block leaves its mark on the blacklist: if transaction k is the first that is not
      taken, the indices recorded for the version 2 stakes among those before it are blacklisted. */
  lemma RefusedBlockBlacklist(t: Tables, b: BlockInput, k: nat, x: nat)
    requires Dense(t) && |b.block.txHashes| == |b.txs| && k <= |b.txs|
    requires forall i :: 0 <= i < k ==> Supported(AllTxs(b)[i])
    requires AddTxs(t, AllTxs(b), AllHashes(b.block), k).outcome.Ok?
    requires AddTxs(t, AllTxs(b), AllHashes(b.block), k + 1).outcome.Threw?
    ensures x in BlacklistedByBlock(t, b) <==>
              StakedAmong(AddTxs(t, AllTxs(b), AllHashes(b.block), k).tables, AllTxs(b), AllHashes(b.block), k, x)
  {
    hide AddTransaction, AddTxs, BlacklistedBy, BlacklistedByBlock, Supported, Dense, StakeIndex, AllTaken;
    var txs, hashes := AllTxs(b), AllHashes(b.block);
    BlacklistedByBlockIsTxs(t, b);
    BlacklistEnds(t, txs, hashes, k + 1, |b.txs| + 1);
    TxsBlacklist(t, txs, hashes, k);
    TxsAccepted(t, txs, hashes, k);
    NextTx(t, txs, hashes, k);
    TransactionOutcome(AddTxs(t, txs, hashes, k).tables, txs[k], hashes[k]);
  }

  /** An accepted block without unsupported inputs blacklists exactly the indices that are recorded for its
      version 2 stakes, the miner transaction among them. */
  lemma BlockBlacklist(t: Tables, b: BlockInput, k: nat)
    requires AllSupported(b) && AddBlock(t, b).outcome.Ok?
    ensures |AllTxs(b)| == |AllHashes(b.block)|
    ensures k in BlacklistedByBlock(t, b) <==>
              StakedAmong(AddBlock(t, b).tables, AllTxs(b), AllHashes(b.block), |AllTxs(b)|, k)
  {
    hide AddBlock, AddBlockTxs, AddTxs, AddTransaction, BlacklistedBy, BlacklistedByTxs, NumRctOuts, Records,
         StakeIndex, Supported;
    AddBlockRow(t, b);
    AddBlockTxsIsAddTxs(t, b);
    BlacklistedByBlockIsTxs(t, b);
    TxsBlacklist(t, AllTxs(b), AllHashes(b.block), |b.txs| + 1);
    StakesIgnoreRows(AddBlockTxs(t, b).tables, AddBlock(t, b).tables);
  }

  lemma StakesIgnoreRows(t: Tables, after: Tables)
    requires after == t.(rows := after.rows, blockHeights := after.blockHeights)
    ensures forall tx, h, k :: StakeIndex(t, tx, h, k) <==> StakeIndex(after, tx, h, k)
  {
  }
}
