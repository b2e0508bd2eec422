/**
 The main theorems on the store object: what its callers see when they add a block and pop it again,
 and when they switch to another chain.
 */
module StoreClient {
  import opened ChainTypes
  import opened BlockStore
  import opened StoreUndo
  import opened StoreHistory
  import opened StoreBlacklist
  import opened StoreSound
  import Exact = StoreExact

  /** The list holds every index recorded for a version 2 stake of the block. */
  ghost predicate StakesListed(t: Spec.Tables, b: BlockInput, list: set<nat>) {
    var txs, hashes := Exact.AllTxs(b), Exact.AllHashes(b.block);
    forall i, k :: 0 <= i < |txs| && i < |hashes| && StakeIndex(t, txs[i], hashes[i], k) ==> k in list
  }

  lemma ListedIffUnchanged(t: Spec.Tables, b: BlockInput, list: set<nat>, before: set<nat>)
    requires AllSupported(b) && Spec.AddBlock(t, b).outcome.Ok?
    requires list == before + Spec.BlacklistedByBlock(t, b)
    ensures list == before <==> StakesListed(Spec.AddBlock(t, b).tables, b, before)
  {
    hide Spec.AddBlock, Spec.BlacklistedByBlock, AllSupported, StakeIndex, Exact.AllTxs, Exact.AllHashes;
    forall k
      ensures |Exact.AllTxs(b)| == |Exact.AllHashes(b.block)|
      ensures k in Spec.BlacklistedByBlock(t, b) <==>
                StakedAmong(Spec.AddBlock(t, b).tables, Exact.AllTxs(b), Exact.AllHashes(b.block), |Exact.AllTxs(b)|, k)
    {
      BlockBlacklist(t, b, k);
    }
    assert list == before <==> forall k :: k in Spec.BlacklistedByBlock(t, b) ==> k in before;
  }

  /** Adds a block and, if it was taken, pops it. The tables are as before exactly for an `UndoSafe`
      block; the blacklist is as before exactly if it held the indices that the add recorded for the
      block's version 2 stakes. */
  method AddThenPop(store: Store, b: BlockInput)
    returns (added: Outcome, block: Option<Block>, popped: seq<Tx>, outcome: Outcome)
    modifies store
    ensures added == Spec.AddBlock(old(store.Contents()), b).outcome
    ensures added == Ok ==> (outcome == Ok && store.Contents() == old(store.Contents()) <==> UndoSafe(b))
    ensures added == Ok && UndoSafe(b) ==> block == Some(b.block) && popped == Reversed(b.txs)
    ensures store.outputBlacklist == old(store.outputBlacklist) + Spec.BlacklistedByBlock(old(store.Contents()), b)
    ensures added == Ok && AllSupported(b) ==>
              (store.outputBlacklist == old(store.outputBlacklist) <==>
                 StakesListed(Spec.AddBlock(old(store.Contents()), b).tables, b, old(store.outputBlacklist)))
  {
    hide Spec.AddBlock, Spec.PopBlock, Spec.BlacklistedByBlock, UndoSafe, AllSupported, StakesListed;
    ghost var before := store.Contents();
    var height;
    height, added := store.AddBlock(b);
    if added.Threw? {
      return added, None, [], added;
    }
    Exact.PopUndoesAddExactly(before, b);
    assert UndoSafe(b) ==> Spec.PopBlock(store.Contents()) == Spec.PopStep(before, Reversed(b.txs), Ok)
                           && |store.rows| > 0 && store.rows[|store.rows| - 1].block == b.block by {
      if UndoSafe(b) {
        PopUndoesAdd(before, b);
      }
    }
    if AllSupported(b) {
      ListedIffUnchanged(before, b, store.outputBlacklist, old(store.outputBlacklist));
    }
    block, popped, outcome := store.PopBlock();
  }

  /** Pops n blocks. */
  method PopBlocks(store: Store, ghost chain: seq<BlockInput>, n: nat)
    requires n <= |chain| && TopSafe(chain, n) && BuiltFrom(store.Contents(), chain)
    modifies store
    ensures BuiltFrom(store.Contents(), chain[..|chain| - n])
  {
    hide Spec.PopBlock, BuiltFrom, UndoSafe;
    assert chain[..|chain|] == chain;
    for i := 0 to n
      invariant BuiltFrom(store.Contents(), chain[..|chain| - i])
    {
      ghost var left := chain[..|chain| - i];
      PopBuilt(store.Contents(), left);
      var block, popped, outcome := store.PopBlock();
      assert DropLast(left) == chain[..|chain| - (i + 1)];
    }
  }

  /** Switches to another chain: pops n blocks and adds others until one throws. The tables are those
      of building the new chain from nothing, and it throws exactly if that does. */
  method SwitchChain(store: Store, ghost chain: seq<BlockInput>, n: nat, blocks: seq<BlockInput>)
    returns (outcome: Outcome)
    requires n <= |chain| && TopSafe(chain, n) && BuiltFrom(store.Contents(), chain)
    modifies store
    ensures Spec.Step(store.Contents(), outcome) == Build(chain[..|chain| - n] + blocks)
  {
    hide Spec.AddBlock, Build, BuiltFrom, TopSafe, Spec.BlacklistedByBlock;
    PopBlocks(store, chain, n);
    ghost var left := chain[..|chain| - n];
    BuiltIsBuild(store.Contents(), left);
    outcome := Ok;
    assert left + blocks[..0] == left;
    for i := 0 to |blocks|
      invariant outcome == Ok
      invariant Build(left + blocks[..i]) == Spec.Step(store.Contents(), Ok)
    {
      BuildNext(left, blocks, i, store.Contents());
      var height;
      height, outcome := store.AddBlock(blocks[i]);
      if outcome.Threw? {
        return;
      }
    }
    assert blocks[..|blocks|] == blocks;
  }

  lemma BuildNext(left: seq<BlockInput>, blocks: seq<BlockInput>, i: nat, t: Spec.Tables)
    requires i < |blocks| && Build(left + blocks[..i]) == Spec.Step(t, Ok)
    ensures Build(left + blocks[..i + 1]) == Spec.AddBlock(t, blocks[i])
    ensures Spec.AddBlock(t, blocks[i]).outcome.Threw? ==> Build(left + blocks) == Spec.AddBlock(t, blocks[i])
  {
    hide Spec.AddBlock;
    var next := left + blocks[..i + 1];
    assert next[..|next| - 1] == left + blocks[..i] && next[|next| - 1] == blocks[i];
    assert (left + blocks)[..|next|] == next;
    BuildThrows(left + blocks, |next|);
  }

  /** Building stops at the first block that throws. */
  lemma {:induction false} BuildThrows(chain: seq<BlockInput>, n: nat)
    requires n <= |chain|
    ensures Build(chain[..n]).outcome.Threw? ==> Build(chain) == Build(chain[..n])
    decreases |chain|
  {
    hide Spec.AddBlock;
    if n == |chain| {
      assert chain[..n] == chain;
    } else {
      BuildThrows(chain[..|chain| - 1], n);
      assert chain[..|chain| - 1][..n] == chain[..n];
    }
  }
}
