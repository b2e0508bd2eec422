/**
 Batch ownership: a handle starts a database batch unless one is active, may be moved, and ends the
 batch it owns by commit, by abort, or by abort on destruction.
 */
module LockedTxn {
  import opened ChainTypes

  /** A write transaction in progress: its number and what was written in it. */
  datatype Batch = Batch(id: nat, writes: seq<int>)

  /** How a batch ended; only a kept batch's writes reach the database. */
  datatype Ended = Ended(id: nat, kept: bool, writes: seq<int>)

  datatype DbState = DbState(committed: seq<int>, batch: Option<Batch>, started: nat, ended: seq<Ended>)

  datatype DbStep = DbStep(db: DbState, threw: bool)

  // ---------------------------------------------------------------- the database

  function Started(db: DbState): DbState {
    if db.batch.Some? then db else db.(batch := Some(Batch(db.started, [])), started := db.started + 1)
  }

  function End(db: DbState, kept: bool): DbState
    requires db.batch.Some?
  {
    var b := db.batch.value;
    DbState(db.committed + if kept then b.writes else [], None, db.started, db.ended + [Ended(b.id, kept, b.writes)])
  }

  /** `batch_stop`. A commit that fails also ends the batch, losing its writes, and throws. */
  function Stopped(db: DbState, fails: bool): DbStep {
    if db.batch.None? then DbStep(db, true) else DbStep(End(db, !fails), fails)
  }

  function Aborted(db: DbState): DbStep {
    if db.batch.None? then DbStep(db, true) else DbStep(End(db, false), false)
  }

  function Written(db: DbState, x: int): DbState {
    if db.batch.None? then db else db.(batch := Some(db.batch.value.(writes := db.batch.value.writes + [x])))
  }

  class Database {
    var state: DbState

    constructor ()
      ensures state == EMPTY_DB
    {
      state := EMPTY_DB;
    }

    method BatchStart() returns (started: bool)
      modifies this
      ensures state == Started(old(state)) && started == old(state).batch.None?
    {
      if state.batch.Some? {
        return false;
      }
      state := state.(batch := Some(Batch(state.started, [])), started := state.started + 1);
      return true;
    }

    method BatchStop(commitFails: bool) returns (threw: bool)
      modifies this
      ensures DbStep(state, threw) == Stopped(old(state), commitFails)
    {
      if state.batch.None? {
        return true;
      }
      var b := state.batch.value;
      if !commitFails {
        state := state.(committed := state.committed + b.writes);
      }
      state := state.(batch := None, ended := state.ended + [Ended(b.id, !commitFails, b.writes)]);
      return commitFails;
    }

    method BatchAbort() returns (threw: bool)
      modifies this
      ensures DbStep(state, threw) == Aborted(old(state))
    {
      if state.batch.None? {
        return true;
      }
      var b := state.batch.value;
      state := state.(batch := None, ended := state.ended + [Ended(b.id, false, b.writes)]);
      return false;
    }
  }

  // ---------------------------------------------------------------- one handle

  datatype HandleStep = HandleStep(db: DbState, owns: bool)

  function Committed(db: DbState, owns: bool, fails: bool): HandleStep {
    if !owns then HandleStep(db, owns)
    else var step := Stopped(db, fails); HandleStep(step.db, step.threw)
  }

  function AbortedBy(db: DbState, owns: bool): HandleStep {
    if !owns then HandleStep(db, owns)
    else var step := Aborted(db); HandleStep(step.db, step.threw)
  }

  class Handle {
    const db: Database
    var owns: bool

    constructor (db: Database)
      modifies db
      ensures this.db == db
      ensures db.state == Started(old(db.state)) && owns == old(db.state).batch.None?
    {
      this.db := db;
      var started := db.BatchStart();
      owns := started;
    }

    constructor Move(other: Handle)
      modifies other
      ensures db == other.db && owns == old(other.owns) && !other.owns
    {
      db := other.db;
      owns := other.owns;
      new;
      other.owns := false;
    }

    /** The exception of a failing stop is swallowed before the handle gives up the batch. */
    method Commit(commitFails: bool)
      modifies this, db
      ensures HandleStep(db.state, owns) == Committed(old(db.state), old(owns), commitFails)
    {
      if owns {
        var threw := db.BatchStop(commitFails);
        if !threw {
          owns := false;
        }
      }
    }

    method Abort()
      modifies this, db
      ensures HandleStep(db.state, owns) == AbortedBy(old(db.state), old(owns))
    {
      if owns {
        var threw := db.BatchAbort();
        if !threw {
          owns := false;
        }
      }
    }

    /** The destructor. */
    method Destroy()
      modifies this, db
      ensures HandleStep(db.state, owns) == AbortedBy(old(db.state), old(owns))
    {
      Abort();
    }
  }

  // ---------------------------------------------------------------- any number of handles

  const EMPTY_DB: DbState := DbState([], None, 0, [])

  /** The live handles with their flags, and whether other code holds a batch it started itself. */
  datatype World = World(db: DbState, handles: map<nat, bool>, outer: bool)

  datatype Event =
    | Construct(h: nat)
    | Move(from: nat, to: nat)
    | Commit(h: nat, fails: bool)
    | Abort(h: nat)
    | Destroy(h: nat)
    | Write(x: int)
    | OuterStart
    | OuterStop(fails: bool)
    | OuterAbort

  function After(w: World, e: Event): World {
    match e
    case Construct(h) =>
      if h in w.handles then w else World(Started(w.db), w.handles[h := w.db.batch.None?], w.outer)
    case Move(from, to) =>
      if from !in w.handles || to in w.handles then w
      else w.(handles := w.handles[to := w.handles[from]][from := false])
    case Commit(h, fails) =>
      if h !in w.handles then w
      else var step := Committed(w.db, w.handles[h], fails); w.(db := step.db, handles := w.handles[h := step.owns])
    case Abort(h) =>
      if h !in w.handles then w
      else var step := AbortedBy(w.db, w.handles[h]); w.(db := step.db, handles := w.handles[h := step.owns])
    case Destroy(h) =>
      if h !in w.handles then w
      else w.(db := AbortedBy(w.db, w.handles[h]).db, handles := w.handles - {h})
    case Write(x) => w.(db := Written(w.db, x))
    case OuterStart => World(Started(w.db), w.handles, w.outer || w.db.batch.None?)
    case OuterStop(fails) => if w.outer then w.(db := Stopped(w.db, fails).db, outer := false) else w
    case OuterAbort => if w.outer then w.(db := Aborted(w.db).db, outer := false) else w
  }

  function AfterAll(w: World, events: seq<Event>): World {
    if events == [] then w else After(AfterAll(w, events[..|events| - 1]), events[|events| - 1])
  }

  const START: World := World(EMPTY_DB, map[], false)

  // ---------------------------------------------------------------- batches end once, and only kept writes stay

  function KeptWrites(ended: seq<Ended>): seq<int> {
    if ended == [] then []
    else KeptWrites(ended[..|ended| - 1]) + if ended[|ended| - 1].kept then ended[|ended| - 1].writes else []
  }

  /** Batches have ended one after the other, each once, all but a batch still active, and the
      database holds the writes of the kept ones. */
  ghost predicate Accounted(db: DbState) {
    && (forall i :: 0 <= i < |db.ended| ==> db.ended[i].id == i)
    && db.started == |db.ended| + (if db.batch.Some? then 1 else 0)
    && (db.batch.Some? ==> db.batch.value.id == |db.ended|)
    && db.committed == KeptWrites(db.ended)
  }

  lemma EndAccounted(db: DbState, kept: bool)
    requires Accounted(db) && db.batch.Some?
    ensures Accounted(End(db, kept))
  {
    var ended := db.ended + [Ended(db.batch.value.id, kept, db.batch.value.writes)];
    assert ended[..|ended| - 1] == db.ended;
  }

  /** A step starts a batch, ends it, writes in it, or leaves the database alone. */
  lemma StepOnDb(w: World, e: Event)
    ensures var db := After(w, e).db;
            || db == w.db
            || db == Started(w.db)
            || (w.db.batch.Some? && (db == End(w.db, true) || db == End(w.db, false)))
            || (e.Write? && db == Written(w.db, e.x))
  {
  }

  lemma StepAccounted(w: World, e: Event)
    requires Accounted(w.db)
    ensures Accounted(After(w, e).db)
  {
    hide After;
    StepOnDb(w, e);
    StartedAccounted(w.db);
    hide Accounted, Started, End, Written;
    if w.db.batch.Some? {
      EndAccounted(w.db, true);
      EndAccounted(w.db, false);
    }
    if e.Write? {
      WrittenAccounted(w.db, e.x);
    }
  }

  lemma StartedAccounted(db: DbState)
    requires Accounted(db)
    ensures Accounted(Started(db))
  {
  }

  lemma WrittenAccounted(db: DbState, x: int)
    requires Accounted(db)
    ensures Accounted(Written(db, x))
  {
  }

  /** This holds over every run, also where commits fail. */
  lemma {:induction false} RunAccounted(events: seq<Event>)
    ensures Accounted(AfterAll(START, events).db)
  {
    hide After;
    if events == [] {
    } else {
      RunAccounted(events[..|events| - 1]);
      StepAccounted(AfterAll(START, events[..|events| - 1]), events[|events| - 1]);
    }
  }

  // ---------------------------------------------------------------- what each step keeps

  /** Whoever holds the batch stops it, and the commit does not fail. */
  predicate Commits(w: World, e: Event) {
    match e
    case Commit(h, fails) => h in w.handles && w.handles[h] && !fails
    case OuterStop(fails) => w.outer && !fails
    case _ => false
  }

  /** Whoever holds the batch stops or aborts it, or is destroyed. */
  predicate Ends(w: World, e: Event) {
    match e
    case Commit(h, _) => h in w.handles && w.handles[h]
    case Abort(h) => h in w.handles && w.handles[h]
    case Destroy(h) => h in w.handles && w.handles[h]
    case OuterStop(_) => w.outer
    case OuterAbort => w.outer
    case _ => false
  }

  /** A new handle or other code asks for a batch. */
  predicate Starts(w: World, e: Event) {
    e.OuterStart? || (e.Construct? && e.h !in w.handles)
  }

  /** A successful commit adds the batch's writes to the database. No other step changes it. */
  lemma CommitKeepsWrites(w: World, e: Event)
    ensures After(w, e).db.committed
            == w.db.committed + if w.db.batch.Some? && Commits(w, e) then w.db.batch.value.writes else []
  {
    assert w.db.committed + [] == w.db.committed;
  }

  /** A batch starts empty, takes every write, and lasts until whoever holds it ends it. */
  lemma BatchLasts(w: World, e: Event)
    ensures match w.db.batch
            case None => After(w, e).db.batch == if Starts(w, e) then Some(Batch(w.db.started, [])) else None
            case Some(b) =>
              After(w, e).db.batch
              == if Ends(w, e) then None else if e.Write? then Some(Batch(b.id, b.writes + [e.x])) else Some(b)
  {
  }

  /** A handle gives its batch up when it ends it, and only then: it stays an owner if the stop fails, and
      also if there is no batch to end, which throws. No other handle's flag changes. */
  lemma OwnerUntilEnded(w: World, h: nat, fails: bool)
    requires h in w.handles
    ensures After(w, Commit(h, fails)).handles == w.handles[h := w.handles[h] && (fails || w.db.batch.None?)]
    ensures After(w, Abort(h)).handles == w.handles[h := w.handles[h] && w.db.batch.None?]
  {
  }

  function Writes(xs: seq<int>): seq<Event> {
    seq(|xs|, i requires 0 <= i < |xs| => Write(xs[i]))
  }

  lemma {:induction false} WritesGather(w: World, xs: seq<int>)
    requires w.db.batch.Some?
    ensures AfterAll(w, Writes(xs))
            == w.(db := w.db.(batch := Some(w.db.batch.value.(writes := w.db.batch.value.writes + xs))))
  {
    if xs == [] {
      assert w.db.batch.value.writes + xs == w.db.batch.value.writes;
    } else {
      var front, last := xs[..|xs| - 1], xs[|xs| - 1];
      assert Writes(xs)[..|xs| - 1] == Writes(front);
      WritesGather(w, front);
      assert w.db.batch.value.writes + front + [last] == w.db.batch.value.writes + xs;
    }
  }

  /** A handle made without an active batch, any writes, and its end: a commit that does not fail keeps
      them all in order, a failing commit, an abort or the destructor none. */
  lemma SessionKeepsAllOrNothing(w: World, h: nat, xs: seq<int>, end: Event)
    requires w.db.batch.None? && h !in w.handles
    requires end == Abort(h) || end == Destroy(h) || (end.Commit? && end.h == h)
    ensures var after := After(AfterAll(After(w, Construct(h)), Writes(xs)), end);
            && after.db.batch.None?
            && after.db.committed == w.db.committed + if end.Commit? && !end.fails then xs else []
  {
    var begun := After(w, Construct(h));
    WritesGather(begun, xs);
    assert [] + xs == xs;
    assert w.db.committed + [] == w.db.committed;
  }

  // ---------------------------------------------------------------- ownership

  /** The active batch has exactly one owner, a live handle or other code; without a batch nobody owns one. */
  ghost predicate Owned(w: World) {
    && (forall g, h :: g in w.handles && h in w.handles && w.handles[g] && w.handles[h] ==> g == h)
    && (forall h :: h in w.handles && w.handles[h] ==> w.db.batch.Some? && !w.outer)
    && (w.outer ==> w.db.batch.Some?)
    && (w.db.batch.Some? && !w.outer ==> exists h :: h in w.handles && w.handles[h])
  }

  /** An owner's commit whose stop throws. */
  predicate FailedCommit(w: World, e: Event) {
    e.Commit? && e.fails && e.h in w.handles && w.handles[e.h]
  }

  /** Every step keeps single ownership, except exactly a commit whose stop throws. */
  lemma StepOwned(w: World, e: Event)
    requires Owned(w)
    ensures Owned(After(w, e)) <==> !FailedCommit(w, e)
  {
    var v := After(w, e);
    if w.db.batch.Some? && !w.outer {
      var o :| o in w.handles && w.handles[o];
      match e
      case Move(from, to) =>
        if from in w.handles && to !in w.handles {
          assert v.handles[to] == w.handles[from];
          assert from != o ==> o in v.handles && v.handles[o];
        }
      case Construct(h) => assert o in v.handles && v.handles[o];
      case Commit(h, fails) =>
        assert h != o ==> o in v.handles && (h in w.handles ==> v.handles[o]);
        assert h == o ==> v.db.batch.None? && v.handles[h] == fails;
      case Abort(h) => assert h != o ==> o in v.handles && (h in w.handles ==> v.handles[o]);
      case Destroy(h) => assert h != o ==> o in v.handles;
      case _ => assert o in v.handles && v.handles[o];
    } else if e.Construct? && e.h !in w.handles {
      assert e.h in v.handles;
    }
  }

  ghost predicate NoFailedCommit(w: World, events: seq<Event>) {
    forall i :: 0 <= i < |events| ==> !FailedCommit(AfterAll(w, events[..i]), events[i])
  }

  lemma NoFailureBefore(w: World, events: seq<Event>, k: nat)
    requires k <= |events| && NoFailedCommit(w, events)
    ensures NoFailedCommit(w, events[..k])
  {
    hide AfterAll, FailedCommit;
    assert forall i :: 0 <= i < k ==> events[..k][i] == events[i] && events[..k][..i] == events[..i];
  }

  lemma {:induction false} OwnedAfter(events: seq<Event>)
    requires NoFailedCommit(START, events)
    ensures Owned(AfterAll(START, events))
  {
    hide After, FailedCommit;
    if events == [] {
    } else {
      var front := events[..|events| - 1];
      NoFailureBefore(START, events, |front|);
      OwnedAfter(front);
      hide Owned;
      StepOwned(AfterAll(START, front), events[|front|]);
    }
  }

  /** For any interleaving on any number of handles, a batch has one owner all along exactly if no
      owner's commit fails. */
  lemma RunOwned(events: seq<Event>)
    ensures (forall k :: 0 <= k <= |events| ==> Owned(AfterAll(START, events[..k]))) <==> NoFailedCommit(START, events)
  {
    hide Owned, After, AfterAll, FailedCommit;
    if NoFailedCommit(START, events) {
      forall k | 0 <= k <= |events|
        ensures Owned(AfterAll(START, events[..k]))
      {
        NoFailureBefore(START, events, k);
        OwnedAfter(events[..k]);
      }
    }
    if forall k :: 0 <= k <= |events| ==> Owned(AfterAll(START, events[..k])) {
      forall i | 0 <= i < |events|
        ensures !FailedCommit(AfterAll(START, events[..i]), events[i])
      {
        assert Owned(AfterAll(START, events[..i])) && Owned(AfterAll(START, events[..i + 1]));
        NextWorld(START, events, i);
        StepOwned(AfterAll(START, events[..i]), events[i]);
      }
    }
  }

  lemma NextWorld(w: World, events: seq<Event>, i: nat)
    requires i < |events|
    ensures AfterAll(w, events[..i + 1]) == After(AfterAll(w, events[..i]), events[i])
  {
    hide After;
    assert events[..i + 1][..i] == events[..i];
  }

  /** An active batch that no other code holds has a live handle that will end it. */
  ghost predicate Held(w: World) {
    w.db.batch.Some? && !w.outer ==> exists h :: h in w.handles && w.handles[h]
  }

  lemma StepHeld(w: World, e: Event)
    requires Held(w)
    ensures Held(After(w, e))
  {
    var v := After(w, e);
    if w.db.batch.Some? && !w.outer {
      var o :| o in w.handles && w.handles[o];
      match e
      case Move(from, to) =>
        if from == o && to !in w.handles {
          assert v.handles[to];
        } else {
          assert o in v.handles && v.handles[o];
        }
      case Commit(h, _) => assert h != o ==> o in v.handles && v.handles[o];
      case Abort(h) => assert h != o ==> o in v.handles && v.handles[o];
      case Destroy(h) => assert h != o ==> o in v.handles && v.handles[o];
      case _ => assert o in v.handles && v.handles[o];
    } else if e.Construct? && e.h !in w.handles {
      assert e.h in v.handles;
    }
  }

  lemma {:induction false} RunHeld(events: seq<Event>)
    ensures Held(AfterAll(START, events))
  {
    hide After;
    if events == [] {
    } else {
      RunHeld(events[..|events| - 1]);
      StepHeld(AfterAll(START, events[..|events| - 1]), events[|events| - 1]);
    }
  }

  /** Once every handle is destroyed and no other code holds a batch, each batch ever started has
      ended exactly once, also where commits failed and stale owners ended batches of others. */
  lemma AllBatchesEnd(events: seq<Event>)
    requires AfterAll(START, events).handles == map[] && !AfterAll(START, events).outer
    ensures var db := AfterAll(START, events).db;
            db.batch.None? && |db.ended| == db.started && forall i :: 0 <= i < |db.ended| ==> db.ended[i].id == i
  {
    RunHeld(events);
    RunAccounted(events);
  }

  /** Destroying a handle that still owns its batch makes the batch's writes vanish. */
  lemma UncommittedWritesVanish(w: World, h: nat)
    requires Owned(w) && h in w.handles && w.handles[h]
    ensures var v := After(w, Destroy(h));
            && v.db.committed == w.db.committed && v.db.batch.None?
            && v.db.ended == w.db.ended + [Ended(w.db.batch.value.id, false, w.db.batch.value.writes)]
  {
  }

  /** A handle that is made while a batch is active never owns one, whatever happens until it is
      destroyed, so its commits and aborts leave the database alone. */
  lemma {:induction false} NestedHandleIsInert(w: World, h: nat, events: seq<Event>, fails: bool)
    requires w.db.batch.Some? && h !in w.handles
    requires forall i :: 0 <= i < |events| ==> events[i] != Destroy(h)
    ensures var v := AfterAll(After(w, Construct(h)), events);
            && h in v.handles && !v.handles[h]
            && After(v, Commit(h, fails)).db == v.db
            && After(v, Abort(h)).db == v.db
            && After(v, Destroy(h)).db == v.db
  {
    if events == [] {
    } else {
      NestedHandleIsInert(w, h, events[..|events| - 1], fails);
    }
  }

  /** After a failing commit a handle still believes it owns a batch. When it is destroyed, it aborts
      the batch that another handle has started in the meantime. */
  lemma StaleOwnerAbortsAnother(x: int)
    ensures var stale := AfterAll(START, [Construct(1), Commit(1, true), Construct(2), Write(x)]);
            var after := After(stale, Destroy(1));
            && stale.handles == map[1 := true, 2 := true]
            && stale.db.batch == Some(Batch(1, [x]))
            && after.db.batch == None && after.handles == map[2 := true]
            && After(after, Commit(2, false)).db.committed == []
  {
    var events := [Construct(1), Commit(1, true), Construct(2), Write(x)];
    assert events[..3] == [Construct(1), Commit(1, true), Construct(2)];
    assert events[..3][..2] == [Construct(1), Commit(1, true)];
    assert events[..3][..2][..1] == [Construct(1)];
    assert AfterAll(START, []) == START;
    var one := After(START, Construct(1));
    assert AfterAll(START, [Construct(1)]) == one by { assert [Construct(1)][..0] == []; }
    var two := After(one, Commit(1, true));
    assert AfterAll(START, [Construct(1), Commit(1, true)]) == two;
    assert two.handles == map[1 := true] && two.db.batch == None && two.db.started == 1;
    var three := After(two, Construct(2));
    assert AfterAll(START, [Construct(1), Commit(1, true), Construct(2)]) == three;
    var four := After(three, Write(x));
    assert AfterAll(START, events) == four;
    assert four.handles == map[1 := true, 2 := true];
    assert three.db.batch == Some(Batch(1, []));
    assert four.db.batch == Some(Batch(1, [] + [x])) && [] + [x] == [x];
    var five := After(four, Destroy(1));
    assert five.handles == map[2 := true] && five.db.batch == None;
    assert five.db.committed == [];
  }
}
