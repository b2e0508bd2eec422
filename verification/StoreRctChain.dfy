/**
 The RingCT count over whole chains: the counts passed down against the rows under amount 0, and the
 cumulative counts stored with the blocks.
 */
module StoreRctChain {
  import opened ChainTypes
  import opened StoreSpec
  import opened StoreExact
  import opened StoreSound
  import opened StoreRct
  import opened StoreHistory

  // ---------------------------------------------------------------- the counts passed down

  /** The sum of the `num_rct_outs` values passed down for a chain. */
  function SumRct(chain: seq<BlockInput>): nat {
    if chain == [] then 0 else SumRct(chain[..|chain| - 1]) + NumRctOuts(chain[|chain| - 1])
  }

  function SumOver(chain: seq<BlockInput>): int {
    if chain == [] then 0 else SumOver(chain[..|chain| - 1]) + OverCounted(chain[|chain| - 1])
  }

  function SumUnder(chain: seq<BlockInput>): int {
    if chain == [] then 0
    else
      var last := chain[|chain| - 1];
      SumUnder(chain[..|chain| - 1]) + UnderCounted(last.txs, |last.txs|)
  }

  /** The passed counts of a chain, less what they count too much and more what they miss, are the rows
      under amount 0. */
  lemma {:induction false} PassedCountsAgainstRows(t: Tables, chain: seq<BlockInput>)
    requires BuiltFrom(t, chain) && SupportedChain(chain)
    ensures ZeroRows(t.outs) + SumOver(chain) == SumRct(chain) + SumUnder(chain)
    decreases |chain|
  {
    hide AddBlock, AllSupported, NumRctOuts, OverCounted, UnderCounted;
    if chain == [] {
      assert KeysAt(t.outs, 0) == {};
    } else {
      hide ZeroRows;
      var before := Build(chain[..|chain| - 1]).tables;
      PassedCountsAgainstRows(before, chain[..|chain| - 1]);
      NumRctAgainstRows(before, chain[|chain| - 1]);
    }
  }

  ghost predicate CoinbaseChain(chain: seq<BlockInput>) {
    forall i :: 0 <= i < |chain| ==> CoinbaseShape(chain[i])
  }

  lemma {:induction false} NothingMiscounted(chain: seq<BlockInput>)
    requires CoinbaseChain(chain)
    ensures SumOver(chain) == 0 && SumUnder(chain) == 0
  {
    hide HasGen;
    if chain == [] {
    } else {
      var last := chain[|chain| - 1];
      NothingMiscounted(chain[..|chain| - 1]);
      NothingUnderCounted(last.txs, |last.txs|);
    }
  }

  /** In every reachable state the passed counts add up to the rows under amount 0, up to exactly the
      outputs over- and under-counted; with well-formed coinbases they are equal. */
  lemma ReachablePassedCounts(events: seq<Event>)
    requires SafeEvents(events) && SupportedChain(RunOf(events).chains.committed)
    ensures var r := RunOf(events);
            ZeroRows(r.db.committed.outs) + SumOver(r.chains.committed)
            == SumRct(r.chains.committed) + SumUnder(r.chains.committed)
    ensures var r := RunOf(events);
            CoinbaseChain(r.chains.committed) ==> ZeroRows(r.db.committed.outs) == SumRct(r.chains.committed)
  {
    hide RunOf, SupportedChain, BuiltFrom, SumRct, SumOver, SumUnder, CoinbaseShape, ZeroRows, SafeEvents;
    HistoryIndependent(events);
    var r := RunOf(events);
    PassedCountsAgainstRows(r.db.committed, r.chains.committed);
    if CoinbaseChain(r.chains.committed) {
      NothingMiscounted(r.chains.committed);
    }
  }

  // ---------------------------------------------------------------- the counts stored with the blocks

  /** What the block at a height does not carry on of the rows below it. */
  function LostAt(chain: seq<BlockInput>, r: nat): int
    requires r < |chain|
  {
    if r > 0 && chain[r].block.majorVersion < 4 then SumRct(chain[..r]) + SumUnder(chain[..r]) - SumOver(chain[..r])
    else 0
  }

  /** The miscounts of the block at a height cancel out. */
  predicate CountedRight(chain: seq<BlockInput>, r: nat)
    requires r < |chain|
  {
    OverCounted(chain[r]) == UnderCounted(chain[r].txs, |chain[r].txs|) + LostAt(chain, r)
  }

  lemma NotCarriedIsLost(before: Tables, front: seq<BlockInput>, b: BlockInput)
    requires BuiltFrom(before, front) && SupportedChain(front)
    ensures NotCarried(before, b) == LostAt(front + [b], |front|)
  {
    hide BuiltFrom, SupportedChain, SumRct, SumOver, SumUnder, ZeroRows;
    BuiltRows(before, front);
    PassedCountsAgainstRows(before, front);
    assert (front + [b])[..|front|] == front;
  }

  /** A block does not repair the counts stored below it. */
  lemma RctSoundBelow(t: Tables, b: BlockInput)
    requires AllSupported(b) && AddBlock(t, b).outcome.Ok?
    requires RctSound(AddBlock(t, b).tables)
    ensures RctSound(t)
  {
    hide AddBlock, AllSupported, ZeroKeysUpTo;
    forall r | 0 <= r < |t.rows|
      ensures t.rows[r].info.cumRct == |ZeroKeysUpTo(t.outs, r)|
    {
      EarlierCounts(t, b, r);
    }
  }

  /** The count stored at each height is the number of outputs under amount 0 up to it, exactly when
      the miscounts of every block of the chain cancel out. */
  lemma {:induction false} StoredCountsExactly(t: Tables, chain: seq<BlockInput>)
    requires BuiltFrom(t, chain) && SupportedChain(chain)
    ensures RctSound(t) <==> forall r :: 0 <= r < |chain| ==> CountedRight(chain, r)
    decreases |chain|
  {
    hide AddBlock, Sound, AllSupported, RctSound, OverCounted, UnderCounted, NotCarried;
    if chain == [] {
      assert RctSound(t) by { NoRows(t); }
    } else {
      var front, b := chain[..|chain| - 1], chain[|chain| - 1];
      var before := Build(front).tables;
      StoredCountsExactly(before, front);
      assert front + [b] == chain;
      NotCarriedIsLost(before, front, b);
      forall r | 0 <= r < |front|
        ensures CountedRight(front, r) <==> CountedRight(chain, r)
      {
        assert front[..r] == chain[..r];
      }
      assert CountedRight(chain, |front|) <==> OverCounted(b) == UnderCounted(b.txs, |b.txs|) + NotCarried(before, b);
      hide CountedRight;
      assert (forall r :: 0 <= r < |chain| ==> CountedRight(chain, r)) <==>
             (forall r :: 0 <= r < |front| ==> CountedRight(front, r)) && CountedRight(chain, |front|);
      BuiltIsSound(before, front);
      if RctSound(before) {
        BlockKeepsRctExactly(before, b);
      } else if RctSound(t) {
        RctSoundBelow(before, b);
      }
    }
  }

  lemma NoRows(t: Tables)
    requires t.rows == []
    ensures RctSound(t)
  {
  }

  lemma ReachableStoredCounts(events: seq<Event>)
    requires SafeEvents(events) && SupportedChain(RunOf(events).chains.committed)
    ensures var r := RunOf(events);
            RctSound(r.db.committed) <==>
              forall k :: 0 <= k < |r.chains.committed| ==> CountedRight(r.chains.committed, k)
  {
    hide RunOf, SupportedChain, BuiltFrom, RctSound, CountedRight, SafeEvents;
    HistoryIndependent(events);
    StoredCountsExactly(RunOf(events).db.committed, RunOf(events).chains.committed);
  }

  /** So it is with well-formed coinbases and blocks of version 4 or later above the first. */
  lemma ReachableRctSound(events: seq<Event>)
    requires SafeEvents(events) && SupportedChain(RunOf(events).chains.committed)
    requires CoinbaseChain(RunOf(events).chains.committed)
    requires forall k :: 0 < k < |RunOf(events).chains.committed| ==>
               RunOf(events).chains.committed[k].block.majorVersion >= 4
    ensures RctSound(RunOf(events).db.committed)
  {
    hide RunOf, SupportedChain, RctSound, HasGen, SafeEvents, SumRct, SumOver, SumUnder;
    var chain := RunOf(events).chains.committed;
    ReachableStoredCounts(events);
    forall k | 0 <= k < |chain|
      ensures CountedRight(chain, k)
    {
      NothingUnderCounted(chain[k].txs, |chain[k].txs|);
    }
  }
}
