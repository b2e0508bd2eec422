/**
 The checkpoint table and the immutable checkpoint: the one at or below a height that a
 reorganisation may not go behind.
 */
module Checkpoints {
  import opened ChainTypes
  import opened Extrema

  /** A stored checkpoint. Only masternode checkpoints have signatures. */
  datatype Checkpoint = Checkpoint(height: nat, blockHash: Hash, signatures: nat)

  predicate Hardcoded(c: Checkpoint) {
    c.signatures == 0
  }

  type Table = map<nat, Checkpoint>

  ghost predicate Keyed(table: Table) {
    forall h :: h in table ==> table[h].height == h
  }

  // ---------------------------------------------------------------- order in the table

  function Bottom(table: Table): nat
    requires table.Keys != {}
  {
    Least(table.Keys)
  }

  function Top(table: Table): nat
    requires table.Keys != {}
  {
    Greatest(table.Keys)
  }

  function Clamp(x: nat, lo: nat, hi: nat): nat {
    if x < lo then lo else if x > hi then hi else x
  }

  // ---------------------------------------------------------------- ranges

  /** Coming before on the way from one height to another. */
  predicate Before(x: nat, y: nat, start: nat, end: nat) {
    if start > end then x > y else x < y
  }

  predicate Between(k: nat, start: nat, end: nat) {
    start <= k <= end || end <= k <= start
  }

  ghost predicate Has(result: seq<Checkpoint>, k: nat) {
    exists i :: 0 <= i < |result| && result[i].height == k
  }

  /** The first `num` checkpoints on the way from start to end, all of them if num is 0. */
  ghost predicate Collected(result: seq<Checkpoint>, table: Table, start: nat, end: nat, num: nat) {
    && (forall i :: 0 <= i < |result| ==>
          result[i].height in table && result[i] == table[result[i].height] && Between(result[i].height, start, end))
    && (forall i, j :: 0 <= i < j < |result| ==> Before(result[i].height, result[j].height, start, end))
    && (num != 0 ==> |result| <= num)
    && (forall k :: k in table && Between(k, start, end) && !Has(result, k) ==>
          num != 0 && |result| == num && forall i :: 0 <= i < |result| ==> Before(result[i].height, k, start, end))
  }

  /** Every checkpoint of the range up to the cursor, in order. */
  ghost predicate Gathered(result: seq<Checkpoint>, table: Table, start: nat, end: nat, cursor: nat) {
    && (forall i :: 0 <= i < |result| ==>
          && result[i].height in table && result[i] == table[result[i].height] && Between(result[i].height, start, end)
          && !Before(cursor, result[i].height, start, end))
    && (forall i, j :: 0 <= i < j < |result| ==> Before(result[i].height, result[j].height, start, end))
    && (forall k :: k in table && Between(k, start, end) && !Before(cursor, k, start, end) ==> Has(result, k))
  }

  class CheckpointTable {
    var table: Table

    ghost predicate Valid()
      reads this
    {
      Keyed(table)
    }

    constructor ()
      ensures Valid() && table == map[]
    {
      table := map[];
    }

    method UpdateBlockCheckpoint(c: Checkpoint)
      requires Valid()
      modifies this
      ensures Valid() && table == old(table)[c.height := c]
    {
      table := table[c.height := c];
    }

    method RemoveBlockCheckpoint(height: nat)
      requires Valid()
      modifies this
      ensures Valid() && table == old(table) - {height}
    {
      if height in table {
        table := table - {height};
      }
    }

    /** The row after a row, in the given direction: the cursor's MDB_NEXT or MDB_PREV. */
    method Advance(cursor: nat, down: bool) returns (next: Option<nat>)
      ensures next.None? ==> forall k :: k in table ==> if down then k >= cursor else k <= cursor
      ensures next.Some? ==>
                && next.value in table
                && (if down then next.value < cursor else next.value > cursor)
                && forall k :: k in table ==>
                     if down then k >= cursor || k <= next.value else k <= cursor || k >= next.value
    {
      if down {
        var below := set k | k in table && k < cursor;
        next := if below == {} then None else Some(Greatest(below));
        assert forall k :: k in table && k < cursor ==> k in below;
      } else {
        var above := set k | k in table && k > cursor;
        next := if above == {} then None else Some(Least(above));
        assert forall k :: k in table && k > cursor ==> k in above;
      }
    }

    /** Looks for the first checkpoint from start to end, one height at a time. */
    method FirstInRange(start: nat, end: nat) returns (first: Option<Checkpoint>)
      requires Valid()
      ensures first.None? ==> forall k :: k in table ==> !Between(k, start, end)
      ensures first.Some? ==>
                && first.value.height in table && table[first.value.height] == first.value
                && Between(first.value.height, start, end)
                && forall k :: k in table && Between(k, start, end) ==> !Before(k, first.value.height, start, end)
    {
      var height: nat := start;
      while height != end
        invariant Between(height, start, end)
        invariant forall k :: k in table && Between(k, start, end) ==> !Before(k, height, start, end)
        decreases if start > end then height - end else end - height
      {
        if height in table {
          return Some(table[height]);
        }
        if end >= start {
          height := height + 1;
        } else {
          height := height - 1;
        }
      }
      if end in table {
        return Some(table[end]);
      }
      return None;
    }

    /** `get_checkpoints_range`. The given heights are moved into the range of stored ones first. */
    method GetCheckpointsRange(from: nat, to: nat, num: nat) returns (result: seq<Checkpoint>)
      requires Valid()
      ensures table.Keys == {} ==> result == []
      ensures table.Keys != {} ==>
                var bottom, top := Least(table.Keys), Greatest(table.Keys);
                var start := if from < bottom then bottom else if from > top then top else from;
                var end := if to < bottom then bottom else if to > top then top else to;
                Collected(result, table, start, end, num)
    {
      result := [];
      if table.Keys == {} {
        return;
      }
      var start := Clamp(from, Bottom(table), Top(table));
      var end := Clamp(to, Bottom(table), Top(table));
      var first := FirstInRange(start, end);
      if first.None? {
        return;
      }
      result := [first.value];
      var cursor := first.value.height;
      assert result[0].height == cursor && Has(result, cursor);
      var lo, hi := if start < end then start else end, if start < end then end else start;
      while num == 0 || |result| < num
        invariant num != 0 ==> |result| <= num
        invariant Gathered(result, table, start, end, cursor)
        decreases Ahead(table, cursor, start, end)
      {
        var next := Advance(cursor, start > end);
        if next.None? {
          break;
        }
        assert next.value in Ahead(table, cursor, start, end) && next.value !in Ahead(table, next.value, start, end);
        GatherNext(result, table, start, end, cursor, next.value);
        cursor := next.value;
        if lo <= cursor <= hi {
          result := result + [table[cursor]];
        }
      }
      assert (num != 0 && |result| == num) || forall k :: k in table ==> !Before(cursor, k, start, end);
      GatheredIsCollected(result, table, start, end, cursor, num);
    }

    /** `get_immutable_checkpoint`. */
    method GetImmutableCheckpoint(blockHeight: nat) returns (immutable: Option<Checkpoint>)
      requires Valid()
      ensures immutable == Immutable(table, blockHeight)
    {
      var checkpoints := GetCheckpointsRange(blockHeight, 0, 2);
      RangeOfTwo(table, blockHeight, checkpoints);
      if |checkpoints| == 0 {
        return None;
      }
      if Hardcoded(checkpoints[0]) {
        return Some(checkpoints[0]);
      } else if |checkpoints| == 2 {
        return Some(checkpoints[1]);
      } else {
        return None;
      }
    }
  }

  ghost function Ahead(table: Table, cursor: nat, start: nat, end: nat): set<nat> {
    set k | k in table && Before(cursor, k, start, end)
  }

  lemma GatherNext(result: seq<Checkpoint>, table: Table, start: nat, end: nat, cursor: nat, next: nat)
    requires Keyed(table) && Gathered(result, table, start, end, cursor)
    requires next in table && Before(cursor, next, start, end)
    requires forall k :: k in table ==> !Before(cursor, k, start, end) || !Before(k, next, start, end)
    ensures Gathered(if Between(next, start, end) then result + [table[next]] else result, table, start, end, next)
  {
    if Between(next, start, end) {
      var after := result + [table[next]];
      HasMore(result, table[next]);
      assert after[|result|].height == next && Has(after, next);
      forall k | k in table && Between(k, start, end) && !Before(next, k, start, end)
        ensures Has(after, k)
      {
        if k != next {
          assert Has(result, k);
        }
      }
    }
  }

  lemma GatheredIsCollected(result: seq<Checkpoint>, table: Table, start: nat, end: nat, cursor: nat, num: nat)
    requires Gathered(result, table, start, end, cursor)
    requires num != 0 ==> |result| <= num
    requires (num != 0 && |result| == num) || forall k :: k in table ==> !Before(cursor, k, start, end)
    ensures Collected(result, table, start, end, num)
  {
    forall k | k in table && Between(k, start, end) && !Has(result, k)
      ensures num != 0 && |result| == num && forall i :: 0 <= i < |result| ==> Before(result[i].height, k, start, end)
    {
      assert Before(cursor, k, start, end);
    }
  }

  lemma HasMore(result: seq<Checkpoint>, c: Checkpoint)
    ensures forall k :: Has(result, k) ==> Has(result + [c], k)
  {
    forall k | Has(result, k)
      ensures Has(result + [c], k)
    {
      var i :| 0 <= i < |result| && result[i].height == k;
      assert (result + [c])[i].height == k;
    }
  }

  // ---------------------------------------------------------------- the immutable checkpoint

  function AtOrBelow(table: Table, h: nat): set<nat> {
    set k | k in table && k <= h
  }

  function StrictlyBelow(table: Table, h: nat): set<nat> {
    set k | k in table && k < h
  }

  /** The highest checkpoint at or below the height, or the lowest one if there is none. */
  function Nearest(table: Table, h: nat): (k: nat)
    requires table.Keys != {}
    ensures k in table
  {
    if AtOrBelow(table, h) == {} then Bottom(table) else Greatest(AtOrBelow(table, h))
  }

  /** What two checkpoints tell: the nearest one if it is hard-coded, else the one below it. */
  function Immutable(table: Table, h: nat): Option<Checkpoint> {
    if table.Keys == {} then None
    else
      var near := Nearest(table, h);
      if Hardcoded(table[near]) then Some(table[near])
      else if StrictlyBelow(table, near) == {} then None
      else Some(table[Greatest(StrictlyBelow(table, near))])
  }

  /** The two checkpoints that the range query returns are the nearest one and the one below it. */
  lemma RangeOfTwo(table: Table, h: nat, result: seq<Checkpoint>)
    requires Keyed(table)
    requires table.Keys == {} ==> result == []
    requires table.Keys != {} ==>
               Collected(result, table, Clamp(h, Bottom(table), Top(table)), Clamp(0, Bottom(table), Top(table)), 2)
    ensures table.Keys == {} <==> result == []
    ensures table.Keys != {} ==>
              var near := Nearest(table, h);
              && result[0] == table[near]
              && (|result| == 1 <==> StrictlyBelow(table, near) == {})
              && (|result| == 2 <==> StrictlyBelow(table, near) != {})
              && (|result| == 2 ==> result[1] == table[Greatest(StrictlyBelow(table, near))])
  {
    if table.Keys != {} {
      var bottom := Bottom(table);
      var start := Clamp(h, bottom, Top(table));
      assert Clamp(0, bottom, Top(table)) == bottom;
      var near := Nearest(table, h);
      NearestInRange(table, h);
      assert near in table && Between(near, start, bottom);
      assert |result| > 0;
      assert result[0].height == near by { FirstIsNearest(table, h, result); }
      SecondIsBelow(table, near, start, result);
    }
  }

  lemma NearestInRange(table: Table, h: nat)
    requires table.Keys != {}
    ensures Bottom(table) <= Nearest(table, h) <= Clamp(h, Bottom(table), Top(table))
  {
    if AtOrBelow(table, h) == {} {
      assert Bottom(table) !in AtOrBelow(table, h);
    }
  }

  lemma NearestIsHighest(table: Table, h: nat, k: nat)
    requires k in table && k <= Clamp(h, Bottom(table), Top(table))
    ensures k <= Nearest(table, h)
  {
    if k <= h {
      assert k in AtOrBelow(table, h);
    }
  }

  lemma FirstReaches(table: Table, k: nat, start: nat, end: nat, result: seq<Checkpoint>)
    requires |result| > 0 && k in table && Between(k, start, end)
    requires Collected(result, table, start, end, 2)
    ensures !Before(k, result[0].height, start, end)
  {
    if Has(result, k) {
      var i :| 0 <= i < |result| && result[i].height == k;
      assert i == 0 || Before(result[0].height, result[i].height, start, end);
    }
  }

  lemma FirstIsNearest(table: Table, h: nat, result: seq<Checkpoint>)
    requires Keyed(table) && table.Keys != {} && |result| > 0
    requires Collected(result, table, Clamp(h, Bottom(table), Top(table)), Bottom(table), 2)
    ensures result[0].height == Nearest(table, h)
  {
    var start, end := Clamp(h, Bottom(table), Top(table)), Bottom(table);
    NearestInRange(table, h);
    FirstReaches(table, Nearest(table, h), start, end, result);
    NearestIsHighest(table, h, result[0].height);
  }

  lemma SecondIsBelow(table: Table, near: nat, start: nat, result: seq<Checkpoint>)
    requires Keyed(table) && near in table && Bottom(table) <= near <= start
    requires |result| > 0 && result[0].height == near
    requires Collected(result, table, start, Bottom(table), 2)
    ensures |result| == 1 <==> StrictlyBelow(table, near) == {}
    ensures |result| == 2 ==> result[1] == table[Greatest(StrictlyBelow(table, near))]
  {
    var below := StrictlyBelow(table, near);
    var bottom := Bottom(table);
    assert |result| == 2 ==> Before(result[0].height, result[1].height, start, bottom);
    assert |result| == 2 ==> result[1].height in below;
    if below != {} {
      var second := Greatest(below);
      assert second in table && second < near && Between(second, start, bottom);
      assert !Has(result, second) ==> |result| == 2 && Before(result[1].height, second, start, bottom);
      var i :| 0 <= i < |result| && result[i].height == second;
      assert i == 1;
    }
  }
}
