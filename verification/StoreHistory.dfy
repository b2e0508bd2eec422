/**
 Runs of the block store: batches are started and ended, blocks are added and popped, and some of
 these calls throw. Whatever the run, the tables are those of building the surviving chain directly.
 */
module StoreHistory {
  import opened ChainTypes
  import opened StoreSpec
  import opened StoreUndo
  import opened StoreExact
  import opened StoreIntegrity
  import opened StoreSound
  import opened StoreAccept
  import opened StoreRefusal
  import opened StorePop

  /** The committed tables, the batch's own view of them while a batch is active, and whether adding
      a block threw in this batch (the negation of `m_batch_success`). */
  datatype Db = Db(committed: Tables, batch: Option<Tables>, failed: bool)

  /** `BatchEnd` is the end of a batch as its callers do it: abort if adding a block threw, else stop. */
  datatype Event = BatchStart | Add(input: BlockInput) | Pop | BatchEnd | BatchAbort | Reset

  const EMPTY_DB: Db := Db(EMPTY_TABLES, None, false)

  /** One call. Inside a batch, a throw leaves what the call wrote in the batch. Outside one, a call is
      a write transaction of its own: a pop aborts it on a throw, but an add (of the first block, under
      a guard that commits when it goes out of scope) keeps what was written. */
  function Apply(db: Db, e: Event): Db {
    match e
    case BatchStart => if db.batch.Some? then db else Db(db.committed, Some(db.committed), false)
    case Add(b) =>
      if db.batch.None? then db.(committed := AddBlock(db.committed, b).tables)
      else
        var step := AddBlock(db.batch.value, b);
        db.(batch := Some(step.tables), failed := db.failed || step.outcome.Threw?)
    case Pop =>
      if db.batch.None? then
        var step := PopBlock(db.committed);
        if step.outcome.Ok? then db.(committed := step.tables) else db
      else
        db.(batch := Some(PopBlock(db.batch.value).tables))
    case BatchEnd =>
      if db.batch.None? then db
      else if db.failed then Db(db.committed, None, false)
      else Db(db.batch.value, None, false)
    case BatchAbort => Db(db.committed, None, false)
    case Reset => if db.batch.Some? then db else db.(committed := EMPTY_TABLES)
  }

  /** The chain that survives, committed and in the batch, as the calls' outcomes tell it. */
  datatype Chains = Chains(committed: seq<BlockInput>, batch: seq<BlockInput>)

  function DropLast<T>(s: seq<T>): seq<T> {
    if s == [] then [] else s[..|s| - 1]
  }

  function Survive(chains: Chains, db: Db, e: Event): Chains {
    match e
    case BatchStart => if db.batch.Some? then chains else chains.(batch := chains.committed)
    case Add(b) =>
      if db.batch.None? then
        if AddBlock(db.committed, b).outcome.Ok? then chains.(committed := chains.committed + [b]) else chains
      else
        if AddBlock(db.batch.value, b).outcome.Ok? then chains.(batch := chains.batch + [b]) else chains
    case Pop =>
      if db.batch.None? then
        if PopBlock(db.committed).outcome.Ok? then chains.(committed := DropLast(chains.committed)) else chains
      else
        if PopBlock(db.batch.value).outcome.Ok? then chains.(batch := DropLast(chains.batch)) else chains
    case BatchEnd =>
      if db.batch.Some? && !db.failed then chains.(committed := chains.batch) else chains
    case BatchAbort => chains
    case Reset => if db.batch.Some? then chains else chains.(committed := [])
  }

  datatype Run = Run(db: Db, chains: Chains)

  /** The database and surviving chains after a sequence of calls on an empty store. */
  function RunOf(events: seq<Event>): Run {
    if events == [] then Run(EMPTY_DB, Chains([], []))
    else
      var before := RunOf(events[..|events| - 1]);
      var e := events[|events| - 1];
      Run(Apply(before.db, e), Survive(before.chains, before.db, e))
  }

  /** Building a chain from nothing, one block after the other. */
  function Build(chain: seq<BlockInput>): Step {
    if chain == [] then Step(EMPTY_TABLES, Ok)
    else
      var before := Build(chain[..|chain| - 1]);
      if before.outcome.Threw? then before else AddBlock(before.tables, chain[|chain| - 1])
  }

  // ---------------------------------------------------------------- history independence

  /** The tables are those of building the chain, and building it works. */
  ghost predicate BuiltFrom(t: Tables, chain: seq<BlockInput>) {
    Build(chain) == Step(t, Ok)
  }

  ghost predicate RunBuilt(r: Run) {
    && BuiltFrom(r.db.committed, r.chains.committed)
    && (r.db.batch.Some? && !r.db.failed ==> BuiltFrom(r.db.batch.value, r.chains.batch))
  }

  /** The last block of the chain, if any, is one that a pop undoes. */
  predicate PopSafe(chain: seq<BlockInput>) {
    chain != [] ==> UndoSafe(chain[|chain| - 1])
  }

  /** A block added outside a batch must be taken or refused at once. A pop in a clean batch must find a
      block that it undoes, and so must a pop outside a batch that returns; a throw is rolled back there. */
  ghost predicate KeepsBuilt(r: Run, e: Event) {
    match e
    case Add(b) => r.db.batch.None? ==> RefusedAtOnce(r.db.committed, b) || BlockTaken(r.db.committed, b)
    case Pop =>
      if r.db.batch.None? then PopReturns(r.db.committed) ==> PopSafe(r.chains.committed)
      else !r.db.failed ==> PopSafe(r.chains.batch)
    case _ => true
  }

  /** A block added outside a batch has a miner transaction without unsupported inputs. */
  predicate OwnMinerSupported(db: Db, e: Event) {
    e.Add? && db.batch.None? ==> Supported(e.input.block.minerTx)
  }

  ghost predicate SafeEvents(events: seq<Event>) {
    forall i :: 0 <= i < |events| ==> KeepsBuilt(RunOf(events[..i]), events[i])
  }

  lemma AddBuilt(t: Tables, chain: seq<BlockInput>, b: BlockInput)
    requires BuiltFrom(t, chain)
    requires AddBlock(t, b).outcome.Ok?
    ensures BuiltFrom(AddBlock(t, b).tables, chain + [b])
  {
    hide AddBlock;
    assert (chain + [b])[..|chain + [b]| - 1] == chain;
  }

  /** Index integrity, dense ids and linked blocks, which any block keeps that is taken. */
  ghost predicate Indexed(t: Tables) {
    Integrity(t) && Dense(t) && Linked(t)
  }

  lemma {:induction false} BuiltIsIndexed(t: Tables, chain: seq<BlockInput>)
    requires BuiltFrom(t, chain)
    ensures Indexed(t)
    decreases |chain|
  {
    hide AddBlock, Integrity, Dense, Linked;
    if chain == [] {
      assert Sound(t) by { EmptySound(); }
    } else {
      var before := Build(chain[..|chain| - 1]).tables;
      BuiltIsIndexed(before, chain[..|chain| - 1]);
      BlockLeaves(before, chain[|chain| - 1]);
      BlockKeepsIntegrity(before, chain[|chain| - 1]);
    }
  }

  /** Popping a built chain takes its last block off exactly if that block is `UndoSafe`, and then it
      throws only on the empty chain. */
  lemma PopBuilt(t: Tables, chain: seq<BlockInput>)
    requires BuiltFrom(t, chain)
    ensures PopSafe(chain) ==> (PopBlock(t).outcome.Ok? <==> chain != [])
    ensures chain != [] ==>
              (PopBlock(t).outcome.Ok? && BuiltFrom(PopBlock(t).tables, DropLast(chain)) <==> PopSafe(chain))
    ensures chain != [] && PopSafe(chain) ==> PopBlock(t).popped == Reversed(chain[|chain| - 1].txs)
    ensures BuiltFrom(PopBlock(t).tables, chain) <==> chain == []
  {
    if chain == [] {
      hide AddBlock, PopBlockTxs;
    } else {
      hide AddBlock, PopBlock, UndoSafe;
      var before, b := Build(DropLast(chain)).tables, chain[|chain| - 1];
      PopUndoesAddExactly(before, b);
      if UndoSafe(b) {
        PopUndoesAdd(before, b);
      }
      UndoRow(before, b);
      PopShortens(t);
    }
  }

  lemma PopOfBuilt(t: Tables, chain: seq<BlockInput>)
    requires BuiltFrom(t, chain)
    ensures PopBlock(t).outcome.Ok? <==> PopReturns(t)
  {
    hide BuiltFrom, Integrity, Dense, Linked, PopBlock, PopReturns;
    BuiltIsIndexed(t, chain);
    PopReturnsExactly(t);
  }

  lemma RemovalKeepsRows(t: Tables, txHash: Hash)
    ensures RemoveTransaction(t, txHash).tables.rows == t.rows
  {
    hide RemoveTxOutputs, ImageSet;
  }

  lemma {:induction false} PopTxsKeepsRows(t: Tables, hashes: seq<Hash>, n: nat, popped: seq<Tx>)
    requires n <= |hashes|
    ensures PopTxs(t, hashes, n, popped).tables.rows == t.rows
    decreases n
  {
    hide RemoveTransaction;
    if n == 0 {
    } else {
      RemovalKeepsRows(t, hashes[n - 1]);
      if StoredTx(t, hashes[n - 1]).Some? {
        var tx := StoredTx(t, hashes[n - 1]).value;
        PopTxsKeepsRows(RemoveTransaction(t, hashes[n - 1]).tables, hashes, n - 1, popped + [tx]);
      }
    }
  }

  lemma PopShortens(t: Tables)
    requires RemoveRow(t).outcome.Ok?
    ensures |PopBlock(t).tables.rows| < |t.rows|
  {
    hide RemoveTransaction, PopTxs;
    var block := t.rows[|t.rows| - 1].block;
    var row := RemoveRow(t).tables;
    PopTxsKeepsRows(row, block.txHashes, |block.txHashes|, []);
    RemovalKeepsRows(PopTxs(row, block.txHashes, |block.txHashes|, []).tables, block.minerTx.hash);
  }

  /** A call keeps the tables those of the surviving chain if, and with a supported miner transaction only
      if, it is as `KeepsBuilt` says: every call in a batch but the pop of a block that no pop undoes. */
  lemma StepBuilt(r: Run, e: Event)
    requires RunBuilt(r)
    ensures var after := Run(Apply(r.db, e), Survive(r.chains, r.db, e));
            && (KeepsBuilt(r, e) ==> RunBuilt(after))
            && (OwnMinerSupported(r.db, e) ==> (RunBuilt(after) <==> KeepsBuilt(r, e)))
  {
    hide AddBlock, PopBlock, BuiltFrom, RefusedAtOnce, BlockTaken, PopReturns, PopSafe, Supported, Indexed;
    match e
    case Add(b) =>
      if r.db.batch.None? {
        OwnAddBuilt(r.db.committed, r.chains.committed, b);
      } else if !r.db.failed && AddBlock(r.db.batch.value, b).outcome.Ok? {
        AddBuilt(r.db.batch.value, r.chains.batch, b);
      }
    case Pop =>
      if r.db.batch.None? {
        PopBuilt(r.db.committed, r.chains.committed);
        PopOfBuilt(r.db.committed, r.chains.committed);
        EmptyPopSafe(r.chains.committed);
      } else if !r.db.failed {
        PopBuilt(r.db.batch.value, r.chains.batch);
        EmptyPopSafe(r.chains.batch);
      }
    case Reset => NothingBuilt();
    case _ =>
  }

  lemma NothingBuilt()
    ensures BuiltFrom(EMPTY_TABLES, [])
  {
  }

  lemma EmptyPopSafe(chain: seq<BlockInput>)
    ensures chain == [] ==> PopSafe(chain)
  {
  }

  lemma OwnAddBuilt(t: Tables, chain: seq<BlockInput>, b: BlockInput)
    requires BuiltFrom(t, chain)
    ensures var built := BuiltFrom(AddBlock(t, b).tables, if AddBlock(t, b).outcome.Ok? then chain + [b] else chain);
            && (RefusedAtOnce(t, b) || BlockTaken(t, b) ==> built)
            && (Supported(b.block.minerTx) ==> (built <==> RefusedAtOnce(t, b) || BlockTaken(t, b)))
  {
    BuiltIsIndexed(t, chain);
    TakenOrRefusedAtOnce(t, b);
    if AddBlock(t, b).outcome.Ok? {
      AddBuilt(t, chain, b);
    }
    hide AddBlock, RefusedAtOnce, BlockTaken, Supported, Indexed;
  }

  /** In every reachable state the tables, committed and in a clean batch, are those of building the
      surviving chain on an empty store. */
  lemma {:induction false} HistoryIndependent(events: seq<Event>)
    requires SafeEvents(events)
    ensures RunBuilt(RunOf(events))
  {
    hide RunBuilt, Apply, Survive, KeepsBuilt;
    if events == [] {
      EmptyBuilt();
    } else {
      var front := events[..|events| - 1];
      SafeFront(events);
      HistoryIndependent(front);
      StepBuilt(RunOf(front), events[|events| - 1]);
    }
  }

  /** They are so all along a run exactly if each of its calls is as `KeepsBuilt` says. */
  lemma HistoryIndependentExactly(events: seq<Event>)
    requires forall i :: 0 <= i < |events| ==> OwnMinerSupported(RunOf(events[..i]).db, events[i])
    ensures (forall k :: 0 <= k <= |events| ==> RunBuilt(RunOf(events[..k]))) <==> SafeEvents(events)
  {
    hide RunBuilt, RunOf, Apply, Survive, KeepsBuilt, OwnMinerSupported;
    if SafeEvents(events) {
      forall k | 0 <= k <= |events|
        ensures RunBuilt(RunOf(events[..k]))
      {
        SafePrefix(events, k);
        HistoryIndependent(events[..k]);
      }
    }
    if forall k :: 0 <= k <= |events| ==> RunBuilt(RunOf(events[..k])) {
      forall i | 0 <= i < |events|
        ensures KeepsBuilt(RunOf(events[..i]), events[i])
      {
        assert RunBuilt(RunOf(events[..i])) && RunBuilt(RunOf(events[..i + 1]));
        StepBuilt(RunOf(events[..i]), events[i]);
        RunStep(events, i);
      }
    }
  }

  lemma RunStep(events: seq<Event>, i: nat)
    requires i < |events|
    ensures var before := RunOf(events[..i]);
            RunOf(events[..i + 1]) == Run(Apply(before.db, events[i]), Survive(before.chains, before.db, events[i]))
  {
    hide Apply, Survive;
    assert events[..i + 1][..i] == events[..i];
  }

  lemma SafePrefix(events: seq<Event>, k: nat)
    requires k <= |events| && SafeEvents(events)
    ensures SafeEvents(events[..k])
  {
    hide RunOf, KeepsBuilt;
    assert forall i :: 0 <= i < k ==> events[..k][i] == events[i] && events[..k][..i] == events[..i];
  }

  lemma SafeFront(events: seq<Event>)
    requires events != [] && SafeEvents(events)
    ensures SafeEvents(events[..|events| - 1])
    ensures KeepsBuilt(RunOf(events[..|events| - 1]), events[|events| - 1])
  {
    hide RunOf, KeepsBuilt;
    SafePrefix(events, |events| - 1);
  }

  lemma EmptyBuilt()
    ensures RunBuilt(Run(EMPTY_DB, Chains([], [])))
  {
  }

  /** Two runs that leave the same chain leave the same tables. */
  lemma SameChainSameTables(one: seq<Event>, other: seq<Event>)
    requires SafeEvents(one) && SafeEvents(other)
    requires RunOf(one).chains.committed == RunOf(other).chains.committed
    ensures RunOf(one).db.committed == RunOf(other).db.committed
  {
    hide RunOf, Build, KeepsBuilt;
    HistoryIndependent(one);
    HistoryIndependent(other);
  }

  // ---------------------------------------------------------------- reorganisations

  function Adds(blocks: seq<BlockInput>): seq<Event> {
    seq(|blocks|, i requires 0 <= i < |blocks| => Add(blocks[i]))
  }

  function Pops(n: nat): seq<Event> {
    seq(n, _ => Pop)
  }

  /** A batch on top of a run. */
  function ApplyAll(r: Run, events: seq<Event>): Run {
    if events == [] then r
    else
      var before := ApplyAll(r, events[..|events| - 1]);
      var e := events[|events| - 1];
      Run(Apply(before.db, e), Survive(before.chains, before.db, e))
  }

  /** An open batch without a throw in it, on a given chain. */
  ghost predicate CleanBatch(r: Run, chain: seq<BlockInput>) {
    r.db.batch.Some? && !r.db.failed && r.chains.batch == chain && BuiltFrom(r.db.batch.value, chain)
  }

  /** Each of the last n blocks of the chain is one that a pop undoes. */
  ghost predicate TopSafe(chain: seq<BlockInput>, n: nat)
    requires n <= |chain|
  {
    forall i :: |chain| - n <= i < |chain| ==> UndoSafe(chain[i])
  }

  lemma {:induction false} PopsInBatch(r: Run, chain: seq<BlockInput>, n: nat)
    requires CleanBatch(r, chain) && n <= |chain| && TopSafe(chain, n)
    ensures CleanBatch(ApplyAll(r, Pops(n)), chain[..|chain| - n])
  {
    hide BuiltFrom, PopBlock, UndoSafe;
    if n == 0 {
      assert Pops(0) == [] && chain[..|chain|] == chain;
    } else {
      assert Pops(n)[..n - 1] == Pops(n - 1);
      PopsInBatch(r, chain, n - 1);
      var before := ApplyAll(r, Pops(n - 1));
      PopBuilt(before.db.batch.value, chain[..|chain| - (n - 1)]);
      assert DropLast(chain[..|chain| - (n - 1)]) == chain[..|chain| - n];
    }
  }

  lemma {:induction false} AddsInBatch(r: Run, chain: seq<BlockInput>, blocks: seq<BlockInput>)
    requires CleanBatch(r, chain)
    requires Build(chain + blocks).outcome.Ok?
    ensures CleanBatch(ApplyAll(r, Adds(blocks)), chain + blocks)
    decreases |blocks|
  {
    hide BuiltFrom, AddBlock;
    if blocks == [] {
      assert Adds(blocks) == [] && chain + blocks == chain;
    } else {
      var front := blocks[..|blocks| - 1];
      var last := blocks[|blocks| - 1];
      assert Adds(blocks)[..|blocks| - 1] == Adds(front);
      assert chain + blocks == chain + front + [last];
      assert (chain + blocks)[..|chain + blocks| - 1] == chain + front;
      AddsInBatch(r, chain, front);
      var before := ApplyAll(r, Adds(front));
      BuiltIsBuild(before.db.batch.value, chain + front);
      AddBuilt(before.db.batch.value, chain + front, last);
    }
  }

  lemma BuiltIsBuild(t: Tables, chain: seq<BlockInput>)
    requires BuiltFrom(t, chain)
    ensures Build(chain) == Step(t, Ok)
  {
  }

  /** An open batch in which adding a block threw, over unchanged committed tables. */
  ghost predicate FailedBatch(r: Run, before: Run) {
    r.db.batch.Some? && r.db.failed && r.db.committed == before.db.committed
    && r.chains.committed == before.chains.committed
  }

  lemma BatchLeavesCommitted(r: Run, e: Event)
    requires r.db.batch.Some? && (e.Add? || e.Pop?)
    ensures var after := Run(Apply(r.db, e), Survive(r.chains, r.db, e));
            && after.db.batch.Some? && (r.db.failed ==> after.db.failed)
            && after.db.committed == r.db.committed && after.chains.committed == r.chains.committed
  {
    hide AddBlock, PopBlock;
  }

  lemma {:induction false} BatchCallsLeaveCommitted(r: Run, events: seq<Event>)
    requires r.db.batch.Some? && forall i :: 0 <= i < |events| ==> events[i].Add? || events[i].Pop?
    ensures var after := ApplyAll(r, events);
            after.db.batch.Some? && after.db.committed == r.db.committed && after.chains.committed == r.chains.committed
  {
    hide Apply, Survive;
    if events == [] {
    } else {
      BatchCallsLeaveCommitted(r, events[..|events| - 1]);
      BatchLeavesCommitted(ApplyAll(r, events[..|events| - 1]), events[|events| - 1]);
    }
  }

  /** If the new chain cannot be built, one of its blocks throws, and the batch stays failed from there on. */
  lemma {:induction false} AddsFailInBatch(r: Run, chain: seq<BlockInput>, blocks: seq<BlockInput>)
    requires CleanBatch(r, chain)
    requires Build(chain + blocks).outcome.Threw?
    ensures FailedBatch(ApplyAll(r, Adds(blocks)), r)
    decreases |blocks|
  {
    hide BuiltFrom, AddBlock;
    if blocks == [] {
      assert chain + blocks == chain;
      BuiltIsBuild(r.db.batch.value, chain);
    } else {
      var front := blocks[..|blocks| - 1];
      var last := blocks[|blocks| - 1];
      assert Adds(blocks)[..|blocks| - 1] == Adds(front);
      assert (chain + blocks)[..|chain + blocks| - 1] == chain + front;
      BatchCallsLeaveCommitted(r, Adds(front));
      if Build(chain + front).outcome.Threw? {
        AddsFailInBatch(r, chain, front);
      } else {
        AddsInBatch(r, chain, front);
        BuiltIsBuild(ApplyAll(r, Adds(front)).db.batch.value, chain + front);
      }
    }
  }

  /** Adds and pops in a row, on a copy of the tables, and whether one of the adds threw. */
  function Played(t: Tables, calls: seq<Event>): (Tables, bool)
    requires forall i :: 0 <= i < |calls| ==> calls[i].Add? || calls[i].Pop?
  {
    if calls == [] then (t, false)
    else
      var (before, failed) := Played(t, calls[..|calls| - 1]);
      var last := calls[|calls| - 1];
      if last.Pop? then (PopBlock(before).tables, failed)
      else (AddBlock(before, last.input).tables, failed || AddBlock(before, last.input).outcome.Threw?)
  }

  lemma {:induction false} BatchIsPlayed(r: Run, calls: seq<Event>)
    requires r.db.batch.Some? && !r.db.failed
    requires forall i :: 0 <= i < |calls| ==> calls[i].Add? || calls[i].Pop?
    ensures var (tables, failed) := Played(r.db.batch.value, calls);
            ApplyAll(r, calls).db == Db(r.db.committed, Some(tables), failed)
  {
    hide AddBlock, PopBlock, Survive;
    if calls == [] {
    } else {
      BatchIsPlayed(r, calls[..|calls| - 1]);
    }
  }

  /** A batch works on a copy: an abort leaves the committed tables and chain as they were, and so does its
      end if an add threw; otherwise its end makes the copy the committed tables. A further start in an
      active batch does nothing. */
  lemma BatchIsAllOrNothing(r: Run, calls: seq<Event>)
    requires r.db.batch.None?
    requires forall i :: 0 <= i < |calls| ==> calls[i].Add? || calls[i].Pop?
    ensures var open := ApplyAll(ApplyAll(r, [BatchStart]), calls);
            var (tables, failed) := Played(r.db.committed, calls);
            && ApplyAll(open, [BatchStart]) == open
            && ApplyAll(open, [BatchAbort]).db == Db(r.db.committed, None, false)
            && ApplyAll(open, [BatchAbort]).chains.committed == r.chains.committed
            && ApplyAll(open, [BatchEnd]).db == Db(if failed then r.db.committed else tables, None, false)
            && (failed ==> ApplyAll(open, [BatchEnd]).chains.committed == r.chains.committed)
  {
    hide AddBlock, PopBlock, Played;
    OneCall(r, BatchStart);
    var started := ApplyAll(r, [BatchStart]);
    BatchIsPlayed(started, calls);
    BatchCallsLeaveCommitted(started, calls);
    var open := ApplyAll(started, calls);
    OneCall(open, BatchStart);
    OneCall(open, BatchAbort);
    OneCall(open, BatchEnd);
  }

  lemma OneCall(r: Run, e: Event)
    ensures ApplyAll(r, [e]) == Run(Apply(r.db, e), Survive(r.chains, r.db, e))
  {
    hide Apply, Survive;
    assert [e][..0] == [];
    assert ApplyAll(r, []) == r;
  }

  /** A reset outside a batch leaves an empty store, whatever came before; in a batch it does nothing. */
  lemma ResetForgets(r: Run)
    ensures ApplyAll(r, [Reset])
            == if r.db.batch.Some? then r
               else Run(r.db.(committed := EMPTY_TABLES), r.chains.(committed := []))
  {
    OneCall(r, Reset);
  }

  /** A reorganisation in a batch: pop n blocks, add others, end the batch. */
  function Reorganised(r: Run, n: nat, blocks: seq<BlockInput>): Run {
    ApplyAll(ApplyAll(ApplyAll(ApplyAll(r, [BatchStart]), Pops(n)), Adds(blocks)), [BatchEnd])
  }

  /** A reorganisation equals building the new chain directly; if that cannot be built, it changes
      neither the committed tables nor the chain. */
  lemma ReorganisationIsRebuild(events: seq<Event>, n: nat, blocks: seq<BlockInput>)
    requires SafeEvents(events) && RunOf(events).db.batch.None?
    requires n <= |RunOf(events).chains.committed| && TopSafe(RunOf(events).chains.committed, n)
    ensures var r := RunOf(events);
            var chain := r.chains.committed[..|r.chains.committed| - n] + blocks;
            var done := Reorganised(r, n, blocks);
            && done.db.batch.None?
            && (if Build(chain).outcome.Ok?
                then done.db.committed == Build(chain).tables && done.chains.committed == chain
                else done.db.committed == r.db.committed && done.chains.committed == r.chains.committed)
  {
    hide RunOf, AddBlock, PopBlock, UndoSafe, BuiltFrom, Build, Adds, Pops, SafeEvents;
    var r := RunOf(events);
    HistoryIndependent(events);
    var started := ApplyAll(r, [BatchStart]);
    assert [BatchStart][..0] == [];
    assert ApplyAll(r, []) == r;
    var chain := r.chains.committed;
    PopsInBatch(started, chain, n);
    var popped := ApplyAll(started, Pops(n));
    var left := chain[..|chain| - n];
    assert popped.db.committed == r.db.committed && popped.chains.committed == r.chains.committed by {
      OnlyPops(n);
      BatchCallsLeaveCommitted(started, Pops(n));
    }
    var added := ApplyAll(popped, Adds(blocks));
    if Build(left + blocks).outcome.Ok? {
      AddsInBatch(popped, left, blocks);
      BuiltIsBuild(added.db.batch.value, left + blocks);
    } else {
      AddsFailInBatch(popped, left, blocks);
    }
    assert [BatchEnd][..0] == [];
    assert ApplyAll(added, []) == added;
  }

  lemma OnlyPops(n: nat)
    ensures forall i :: 0 <= i < |Pops(n)| ==> Pops(n)[i].Pop?
  {
  }

  // ---------------------------------------------------------------- the invariant in every reachable state

  ghost predicate SupportedChain(chain: seq<BlockInput>) {
    forall i :: 0 <= i < |chain| ==> AllSupported(chain[i])
  }

  lemma {:induction false} BuiltIsSound(t: Tables, chain: seq<BlockInput>)
    requires BuiltFrom(t, chain) && SupportedChain(chain)
    ensures Sound(t)
    decreases |chain|
  {
    hide AddBlock, Sound, AllSupported;
    if chain == [] {
      EmptySound();
    } else {
      var before := Build(chain[..|chain| - 1]).tables;
      BuiltIsSound(before, chain[..|chain| - 1]);
      BlockKeepsSound(before, chain[|chain| - 1]);
    }
  }

  // ---------------------------------------------------------------- the tables hold the chain

  /** Every transaction of a block is stored under its hash, at the block's height. */
  ghost predicate Stores(t: Tables, b: BlockInput, height: nat) {
    && |b.block.txHashes| == |b.txs|
    && forall i :: 0 <= i <= |b.txs| ==>
         && StoredTx(t, AllHashes(b.block)[i]) == Some(AllTxs(b)[i])
         && t.txIndices[AllHashes(b.block)[i]].height == height
  }

  /** Adding transactions leaves those already stored as they are. */
  lemma {:induction false} StoredStays(t: Tables, txs: seq<Tx>, hashes: seq<Hash>, n: nat, h: Hash)
    requires n <= |txs| && n <= |hashes|
    requires forall i :: 0 <= i < n ==> Supported(txs[i])
    requires AddTxs(t, txs, hashes, n).outcome.Ok? && StoredTx(t, h).Some?
    ensures StoredTx(AddTxs(t, txs, hashes, n).tables, h) == StoredTx(t, h)
    ensures AddTxs(t, txs, hashes, n).tables.txIndices[h] == t.txIndices[h]
  {
    hide AddTransaction, Supported, ZeroRows, StoredZeros;
    if n == 0 {
    } else {
      StoredStays(t, txs, hashes, n - 1, h);
      AddTransactionStores(AddTxs(t, txs, hashes, n - 1).tables, txs[n - 1], hashes[n - 1]);
    }
  }

  lemma AddBlockStores(t: Tables, b: BlockInput)
    requires AllSupported(b) && AddBlock(t, b).outcome.Ok?
    ensures Stores(AddBlock(t, b).tables, b, |t.rows|)
  {
    hide AddBlock, AddBlockTxs, AddTxs, NumRctOuts, Supported, ZeroRows, AllStoredZeros, Records;
    AddBlockRow(t, b);
    AddBlockTxsIsAddTxs(t, b);
    var n := |b.txs| + 1;
    AddTxsHeld(t, AllTxs(b), AllHashes(b.block), n);
    TxsFiledAt(t, AllTxs(b), AllHashes(b.block), n);
    assert AllHashes(b.block)[..n] == AllHashes(b.block);
  }

  lemma AddBlockKeepsStored(t: Tables, b: BlockInput, h: Hash)
    requires AllSupported(b) && AddBlock(t, b).outcome.Ok? && StoredTx(t, h).Some?
    ensures StoredTx(AddBlock(t, b).tables, h) == StoredTx(t, h)
    ensures AddBlock(t, b).tables.txIndices[h] == t.txIndices[h]
  {
    hide AddBlock, AddBlockTxs, AddTxs, NumRctOuts, Supported, Records;
    AddBlockRow(t, b);
    AddBlockTxsIsAddTxs(t, b);
    StoredStays(t, AllTxs(b), AllHashes(b.block), |b.txs| + 1, h);
  }

  /** The transaction table holds every transaction of the chain, as it was given, at its block's height. */
  lemma {:induction false} BuiltStores(t: Tables, chain: seq<BlockInput>, r: nat)
    requires BuiltFrom(t, chain) && SupportedChain(chain) && r < |chain|
    ensures Stores(t, chain[r], r)
    decreases |chain|
  {
    hide AddBlock, AllSupported;
    var front := chain[..|chain| - 1];
    var before := Build(front).tables;
    if r == |front| {
      BuiltRows(before, front);
      AddBlockStores(before, chain[r]);
    } else {
      BuiltStores(before, front, r);
      forall i | 0 <= i <= |chain[r].txs|
        ensures StoredTx(t, AllHashes(chain[r].block)[i]) == Some(AllTxs(chain[r])[i])
        ensures t.txIndices[AllHashes(chain[r].block)[i]].height == r
      {
        AddBlockKeepsStored(before, chain[|chain| - 1], AllHashes(chain[r].block)[i]);
      }
    }
  }

  ghost predicate SpentIn(chain: seq<BlockInput>, image: KeyImage) {
    exists r, i :: 0 <= r < |chain| && 0 <= i < |AllTxs(chain[r])| && ToKey(image) in AllTxs(chain[r])[i].vin
  }

  /** Exactly the key images of the chain's transactions are spent. */
  lemma SpentIsChainImages(t: Tables, chain: seq<BlockInput>, image: KeyImage)
    requires BuiltFrom(t, chain) && SupportedChain(chain)
    ensures image in t.spent <==> SpentIn(chain, image)
  {
    hide Build, AllSupported, ImageSet, AllTxs, AllHashes, Linked, Dense, BuiltFrom;
    BuiltIsSound(t, chain);
    if image in t.spent {
      var id :| id in t.txs && image in ImageSet(t.txs[id].vin);
      assert Named(t, id);
      var h :| h in t.txIndices && t.txIndices[h].id == id;
      SpentByBlock(t, chain, h, image);
    }
    if SpentIn(chain, image) {
      var r, i :| 0 <= r < |chain| && 0 <= i < |AllTxs(chain[r])| && ToKey(image) in AllTxs(chain[r])[i].vin;
      ImagesAreInputs(AllTxs(chain[r])[i].vin);
      BuiltStores(t, chain, r);
      AllSizes(chain[r]);
      assert StoredTx(t, AllHashes(chain[r].block)[i]) == Some(AllTxs(chain[r])[i]);
      assert t.txIndices[AllHashes(chain[r].block)[i]].id in t.txs;
    }
  }

  lemma AllSizes(b: BlockInput)
    ensures |AllTxs(b)| == |b.txs| + 1 && |AllHashes(b.block)| == |b.block.txHashes| + 1
  {
  }

  /** A stored transaction that spends an image is one of the chain's. */
  lemma SpentByBlock(t: Tables, chain: seq<BlockInput>, h: Hash, image: KeyImage)
    requires BuiltFrom(t, chain) && SupportedChain(chain) && Sound(t)
    requires StoredTx(t, h).Some? && image in ImageSet(StoredTx(t, h).value.vin)
    ensures SpentIn(chain, image)
  {
    hide Build, AllSupported, ImageSet, TxSound, Linked, AllTxs, AllHashes, BuiltFrom, Records;
    var r := t.txIndices[h].height;
    BuiltRows(t, chain);
    assert h in AllHashes(t.rows[r].block);
    BuiltStores(t, chain, r);
    AllSizes(chain[r]);
    var i :| 0 <= i < |AllHashes(chain[r].block)| && AllHashes(chain[r].block)[i] == h;
    assert StoredTx(t, h) == Some(AllTxs(chain[r])[i]);
    ImagesAreInputs(AllTxs(chain[r])[i].vin);
  }

  /** Index integrity, dense ids and linked blocks hold in every reachable state. If its surviving chain has
      no unsupported inputs, the spent set is exact and every transaction is filed, too. */
  lemma ReachableIsSound(events: seq<Event>)
    requires SafeEvents(events)
    ensures var r := RunOf(events);
            Indexed(r.db.committed) && (r.db.batch.Some? && !r.db.failed ==> Indexed(r.db.batch.value))
    ensures var r := RunOf(events); SupportedChain(r.chains.committed) ==> Sound(r.db.committed)
    ensures var r := RunOf(events);
            r.db.batch.Some? && !r.db.failed && SupportedChain(r.chains.batch) ==> Sound(r.db.batch.value)
  {
    hide RunOf, Sound, SupportedChain, BuiltFrom, SafeEvents, Indexed;
    HistoryIndependent(events);
    var r := RunOf(events);
    BuiltIsIndexed(r.db.committed, r.chains.committed);
    if r.db.batch.Some? && !r.db.failed {
      BuiltIsIndexed(r.db.batch.value, r.chains.batch);
    }
    if SupportedChain(r.chains.committed) {
      BuiltIsSound(r.db.committed, r.chains.committed);
    }
    if r.db.batch.Some? && !r.db.failed && SupportedChain(r.chains.batch) {
      BuiltIsSound(r.db.batch.value, r.chains.batch);
    }
  }

  lemma {:induction false} BuiltRows(t: Tables, chain: seq<BlockInput>)
    requires BuiltFrom(t, chain)
    ensures |t.rows| == |chain|
    ensures forall i :: 0 <= i < |chain| ==> t.rows[i].block == chain[i].block && Records(t.rows[i].info, chain[i])
    decreases |chain|
  {
    hide AddBlock, AddBlockTxs, NumRctOuts, Records;
    if chain == [] {
    } else {
      var before := Build(chain[..|chain| - 1]).tables;
      BuiltRows(before, chain[..|chain| - 1]);
      AddBlockRow(before, chain[|chain| - 1]);
    }
  }
}
