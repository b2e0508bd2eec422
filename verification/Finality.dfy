/**
 Two checkpoints suffice for finality, and finality does not move back. Both hold except below the
 lowest stored checkpoint, where the range query returns that checkpoint although it is above the
 height asked for.
 */
module Finality {
  import opened ChainTypes
  import opened Extrema
  import opened Checkpoints

  /** A checkpoint at or below the height that is hard-coded or has another one above it, still at
      or below the height. */
  predicate IsFinal(table: Table, h: nat, k: nat) {
    k in table && k <= h && (table[k].signatures == 0 || exists j :: j in table && k < j <= h)
  }

  function FinalOnes(table: Table, h: nat): set<nat> {
    set k | k in table && IsFinal(table, h, k)
  }

  /** The answer of a scan over the whole table. */
  function Scan(table: Table, h: nat): Option<Checkpoint> {
    if FinalOnes(table, h) == {} then None else Some(table[Greatest(FinalOnes(table, h))])
  }

  /** The height lies below a lowest checkpoint that is hard-coded. */
  predicate Overreach(table: Table, h: nat) {
    table.Keys != {} && h < Bottom(table) && table[Bottom(table)].signatures == 0
  }

  lemma NearestAbove(table: Table, h: nat)
    requires table.Keys != {} && h >= Bottom(table)
    ensures Nearest(table, h) <= h
    ensures forall k :: k in table && k <= h ==> k <= Nearest(table, h)
  {
    assert Bottom(table) in AtOrBelow(table, h);
    assert forall k :: k in table && k <= h ==> k in AtOrBelow(table, h);
  }

  lemma ScanInside(table: Table, h: nat)
    requires table.Keys != {} && h >= Bottom(table)
    ensures Immutable(table, h) == Scan(table, h)
  {
    var near := Nearest(table, h);
    NearestAbove(table, h);
    var below := StrictlyBelow(table, near);
    forall k | k in table
      ensures k in FinalOnes(table, h) <==> k in below || (k == near && Hardcoded(table[near]))
    {
      if k in below {
        assert near in table && k < near <= h;
      }
    }
    if Hardcoded(table[near]) {
      assert near in FinalOnes(table, h);
    } else {
      assert FinalOnes(table, h) == below;
    }
  }

  lemma ScanBelow(table: Table, h: nat)
    requires table.Keys != {} && h < Bottom(table)
    ensures Scan(table, h) == None
    ensures Immutable(table, h)
            == if Hardcoded(table[Bottom(table)]) then Some(table[Bottom(table)]) else None
  {
    assert forall k :: k in table ==> k > h;
    assert FinalOnes(table, h) == {};
    assert AtOrBelow(table, h) == {};
    assert StrictlyBelow(table, Bottom(table)) == {};
  }

  /** Looking at two checkpoints gives what a scan of all of them gives, exactly when the height does
      not lie below a hard-coded lowest checkpoint. */
  lemma TwoCheckpointsSuffice(table: Table, h: nat)
    ensures Immutable(table, h) == Scan(table, h) <==> !Overreach(table, h)
  {
    if table.Keys != {} {
      if h < Bottom(table) {
        ScanBelow(table, h);
      } else {
        ScanInside(table, h);
      }
    } else {
      assert FinalOnes(table, h) == {};
    }
  }

  // ---------------------------------------------------------------- finality does not move back

  function FinalHeight(o: Option<Checkpoint>): int {
    if o.None? then -1 else o.value.height
  }

  lemma NeverBelowScan(table: Table, h: nat)
    requires Keyed(table)
    ensures FinalHeight(Immutable(table, h)) >= FinalHeight(Scan(table, h))
  {
    TwoCheckpointsSuffice(table, h);
    if Overreach(table, h) {
      ScanBelow(table, h);
    }
  }

  /** More final checkpoints put the scan's answer no lower. */
  lemma ScanGrows(table: Table, h: nat, after: Table, g: nat)
    requires Keyed(table) && Keyed(after)
    requires FinalOnes(table, h) <= FinalOnes(after, g)
    ensures FinalHeight(Scan(table, h)) <= FinalHeight(Scan(after, g))
  {
    if FinalOnes(table, h) != {} {
      assert Greatest(FinalOnes(table, h)) in FinalOnes(after, g);
    }
  }

  /** The immutable checkpoint never moves down as the height grows. */
  lemma FinalityGrowsWithHeight(table: Table, h: nat, g: nat)
    requires Keyed(table) && h <= g
    ensures FinalHeight(Immutable(table, h)) <= FinalHeight(Immutable(table, g))
  {
    NeverBelowScan(table, g);
    TwoCheckpointsSuffice(table, h);
    if Overreach(table, h) {
      ScanBelow(table, h);
      if g < Bottom(table) {
        ScanBelow(table, g);
      } else {
        assert Bottom(table) in FinalOnes(table, g);
      }
    } else {
      forall k | k in FinalOnes(table, h)
        ensures k in FinalOnes(table, g)
      {
        if !Hardcoded(table[k]) {
          var j :| j in table && k < j <= h;
          assert j <= g;
        }
      }
      ScanGrows(table, h, table, g);
    }
  }

  lemma BottomAfterInsert(table: Table, c: Checkpoint)
    requires table.Keys != {}
    ensures Bottom(table[c.height := c]) == if c.height < Bottom(table) then c.height else Bottom(table)
  {
    var after := table[c.height := c];
    assert c.height in after.Keys && Bottom(table) in after.Keys;
    assert Bottom(after) == c.height || Bottom(after) in table.Keys;
  }

  /** Storing a checkpoint at a new height moves the immutable one back exactly when it goes below a
      hard-coded lowest checkpoint that is itself above the height asked for. */
  lemma InsertionMovesForwardExactly(table: Table, h: nat, c: Checkpoint)
    requires Keyed(table) && c.height !in table
    ensures FinalHeight(Immutable(table, h)) <= FinalHeight(Immutable(table[c.height := c], h))
            <==> !(Overreach(table, h) && c.height < Bottom(table))
  {
    var after := table[c.height := c];
    if Overreach(table, h) {
      ScanBelow(table, h);
      BottomAfterInsert(table, c);
      if h < Bottom(after) {
        ScanBelow(after, h);
      } else {
        OnlyCheckpoint(table, h, c);
      }
    } else {
      TwoCheckpointsSuffice(table, h);
      NeverBelowScan(after, h);
      forall k | k in FinalOnes(table, h)
        ensures k in FinalOnes(after, h)
      {
        if !Hardcoded(table[k]) {
          var j :| j in table && k < j <= h;
          assert j in after;
        }
      }
      ScanGrows(table, h, after, h);
    }
  }

  /** A replacement takes a hard-coded checkpoint's place by a masternode one, where it was the nearest. */
  predicate Demotes(table: Table, h: nat, c: Checkpoint) {
    c.height in table && c.height == Nearest(table, h) && table[c.height].signatures == 0 && c.signatures != 0
  }

  /** Replacing a checkpoint moves the immutable one back exactly when it demotes the nearest one. */
  lemma ReplacementMovesForwardExactly(table: Table, h: nat, c: Checkpoint)
    requires Keyed(table) && c.height in table
    ensures FinalHeight(Immutable(table, h)) <= FinalHeight(Immutable(table[c.height := c], h)) <==>
              !Demotes(table, h, c)
  {
    var after := table[c.height := c];
    assert after.Keys == table.Keys;
    assert AtOrBelow(after, h) == AtOrBelow(table, h);
    var near := Nearest(table, h);
    assert Nearest(after, h) == near;
    assert StrictlyBelow(after, near) == StrictlyBelow(table, near);
  }

  /** The new checkpoint is the only one at or below the height. */
  lemma OnlyCheckpoint(table: Table, h: nat, c: Checkpoint)
    requires Keyed(table) && table.Keys != {} && h < Bottom(table) && c.height <= h
    ensures FinalHeight(Immutable(table[c.height := c], h)) <= c.height
  {
    var after := table[c.height := c];
    BottomAfterInsert(table, c);
    NearestAbove(after, h);
    assert Nearest(after, h) == c.height by { assert forall k :: k in table ==> k > h; }
    assert StrictlyBelow(after, c.height) == {} by { assert forall k :: k in after ==> k >= c.height; }
  }

  // ---------------------------------------------------------------- runs

  /** A node stores or replaces checkpoints and asks at growing heights. */
  datatype Event = Store(checkpoint: Checkpoint) | Reach(height: nat)

  datatype State = State(table: Table, height: nat)

  predicate Allowed(s: State, e: Event) {
    match e
    case Store(c) => !Demotes(s.table, s.height, c) && !(Overreach(s.table, s.height) && c.height < Bottom(s.table))
    case Reach(h) => h >= s.height
  }

  function After(s: State, e: Event): State {
    match e
    case Store(c) => s.(table := s.table[c.height := c])
    case Reach(h) => s.(height := h)
  }

  function AfterAll(s: State, events: seq<Event>): State {
    if events == [] then s else After(AfterAll(s, events[..|events| - 1]), events[|events| - 1])
  }

  ghost predicate AllAllowed(s: State, events: seq<Event>) {
    forall i :: 0 <= i < |events| ==> Allowed(AfterAll(s, events[..i]), events[i])
  }

  /** Over every run of such steps finality only moves forward. */
  lemma {:induction false} FinalityNeverMovesBack(s: State, events: seq<Event>)
    requires Keyed(s.table) && AllAllowed(s, events)
    ensures Keyed(AfterAll(s, events).table)
    ensures FinalHeight(Immutable(s.table, s.height))
            <= FinalHeight(Immutable(AfterAll(s, events).table, AfterAll(s, events).height))
  {
    if events == [] {
    } else {
      var front := events[..|events| - 1];
      var last := events[|events| - 1];
      assert forall i :: 0 <= i < |front| ==> front[..i] == events[..i];
      FinalityNeverMovesBack(s, front);
      var mid := AfterAll(s, front);
      assert Allowed(mid, last);
      match last
      case Store(c) =>
        if c.height in mid.table {
          ReplacementMovesForwardExactly(mid.table, mid.height, c);
        } else {
          InsertionMovesForwardExactly(mid.table, mid.height, c);
        }
      case Reach(h) => FinalityGrowsWithHeight(mid.table, mid.height, h);
    }
  }

  /** The failing family is not empty: storing a masternode checkpoint at height 10 takes back the
      finality that height 50 had from a hard-coded checkpoint at 100. */
  lemma FinalityMovesBackBelowBottom()
    ensures var table := map[100 := Checkpoint(100, 0, 0)];
            && Immutable(table, 50) == Some(Checkpoint(100, 0, 0))
            && Immutable(table[10 := Checkpoint(10, 0, 13)], 50) == None
  {
    var table := map[100 := Checkpoint(100, 0, 0)];
    assert 100 in table.Keys;
    ScanBelow(table, 50);
    var c := Checkpoint(10, 0, 13);
    var after := table[10 := c];
    BottomAfterInsert(table, c);
    NearestAbove(after, 50);
    assert Nearest(after, 50) == 10;
    assert StrictlyBelow(after, 10) == {};
  }

  // ---------------------------------------------------------------- pruning

  lemma NearestAfterPrune(table: Table, h: nat, pruned: set<nat>)
    requires table.Keys != {} && h >= Bottom(table)
    requires Nearest(table, h) !in pruned
    ensures (table - pruned).Keys != {} && Nearest(table - pruned, h) == Nearest(table, h)
  {
    var near := Nearest(table, h);
    var after := table - pruned;
    NearestAbove(table, h);
    assert near in after.Keys;
    assert h >= Bottom(after);
    NearestAbove(after, h);
  }

  /** Pruning checkpoints below the immutable one changes no answer at this height or a higher one. */
  lemma PruningKeepsFinality(table: Table, h: nat, pruned: set<nat>, g: nat)
    requires Keyed(table) && h <= g
    requires forall k :: k in pruned ==> k < FinalHeight(Immutable(table, h))
    ensures Immutable(table - pruned, g) == Immutable(table, g)
  {
    FinalityGrowsWithHeight(table, h, g);
    var after := table - pruned;
    if table.Keys == {} {
      assert after == table;
    } else if g < Bottom(table) {
      ScanBelow(table, h);
      assert after == table by { assert forall k :: k in pruned ==> k !in table; }
    } else {
      var near := Nearest(table, g);
      NearestAbove(table, g);
      ImmutableAtMostNearest(table, g);
      assert near !in pruned;
      NearestAfterPrune(table, g, pruned);
      if !Hardcoded(table[near]) {
        var below, left := StrictlyBelow(table, near), StrictlyBelow(after, near);
        assert left <= below;
        if below != {} {
          assert Greatest(below) in left;
        }
      }
    }
  }

  lemma ImmutableAtMostNearest(table: Table, h: nat)
    requires Keyed(table) && table.Keys != {}
    ensures FinalHeight(Immutable(table, h)) <= Nearest(table, h)
  {
  }
}
