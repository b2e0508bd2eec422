/**
 The sliding window of timestamps and cumulative difficulties that the proof-of-work difficulty is
 computed from, and the cache that avoids reading it anew for every block.
 */
module PowCache {

  datatype Stamp = Stamp(timestamp: nat, difficulty: nat)

  const DIFFICULTY_WINDOW: nat := 59
  const MIN_CHAIN_HEIGHT: nat := 2

  function DifficultyBlocksCount(beforeHf16: bool): nat {
    if beforeHf16 then DIFFICULTY_WINDOW + 2 else DIFFICULTY_WINDOW + 1
  }

  /** The window size at a chain height, on a network whose hard fork 16 is at the given height. */
  function BlockCount(hf16: nat, height: nat): nat {
    DifficultyBlocksCount(height < hf16)
  }

  function Times(s: seq<Stamp>): (r: seq<nat>)
    ensures |r| == |s|
  {
    seq(|s|, i requires 0 <= i < |s| => s[i].timestamp)
  }

  function Difficulties(s: seq<Stamp>): (r: seq<nat>)
    ensures |r| == |s|
  {
    seq(|s|, i requires 0 <= i < |s| => s[i].difficulty)
  }

  function Trim(v: seq<nat>, count: nat): seq<nat> {
    if |v| > count then v[|v| - count..] else v
  }

  /** Where a rebuild of the window starts. */
  function StartHeight(height: nat, count: nat): nat {
    var start := height - if height < count then height else count;
    if start < 1 then 1 else start
  }

  datatype Vectors = Vectors(timestamps: seq<nat>, difficulties: seq<nat>)

  /** The cache must be rebuilt. (The program subtracts unsigned; the difference is 1 for the same
      heights, as the chain height is at least 2 here.) */
  predicate Invalidated(v: Vectors, height: nat, cachedHeight: nat, count: nat) {
    cachedHeight == 0 || height - cachedHeight != 1 || |v.timestamps| > count || |v.difficulties| > count
  }

  /** What the fill leaves in the vectors. */
  function Filled(v: Vectors, chain: seq<Stamp>, height: nat, cachedHeight: nat, count: nat): Vectors
    requires height <= |chain|
  {
    if height < MIN_CHAIN_HEIGHT then v
    else
      var start := StartHeight(height, count);
      var base :=
        if !Invalidated(v, height, cachedHeight, count) then v
        else if start <= height - 1 then
          Vectors(Times(chain[start..height - 1]), Difficulties(chain[start..height - 1]))
        else Vectors([], []);
      Vectors(Trim(base.timestamps + [chain[height - 1].timestamp], count),
              Trim(base.difficulties + [chain[height - 1].difficulty], count))
  }

  class Cache {
    var timestamps: seq<nat>
    var difficulties: seq<nat>

    constructor ()
      ensures timestamps == [] && difficulties == []
    {
      timestamps, difficulties := [], [];
    }

    method AddTimestampAndDifficulty(count: nat, timestamp: nat, difficulty: nat)
      modifies this
      ensures timestamps == Trim(old(timestamps) + [timestamp], count)
      ensures difficulties == Trim(old(difficulties) + [difficulty], count)
    {
      timestamps := timestamps + [timestamp];
      difficulties := difficulties + [difficulty];
      while |timestamps| > count
        invariant difficulties == old(difficulties) + [difficulty]
        invariant Trim(timestamps, count) == Trim(old(timestamps) + [timestamp], count)
        decreases |timestamps|
      {
        timestamps := timestamps[1..];
      }
      while |difficulties| > count
        invariant timestamps == Trim(old(timestamps) + [timestamp], count)
        invariant Trim(difficulties, count) == Trim(old(difficulties) + [difficulty], count)
        decreases |difficulties|
      {
        difficulties := difficulties[1..];
      }
    }

    method FillForPow(hf16: nat, chain: seq<Stamp>, height: nat, cachedHeight: nat)
      requires height <= |chain|
      modifies this
      ensures Vectors(timestamps, difficulties)
              == Filled(Vectors(old(timestamps), old(difficulties)), chain, height, cachedHeight,
                        BlockCount(hf16, height))
    {
      hide Times, Difficulties, Trim;
      if height < MIN_CHAIN_HEIGHT {
        return;
      }
      var top := height - 1;
      var count := BlockCount(hf16, height);
      if cachedHeight == 0 || height - cachedHeight != 1 || |timestamps| > count || |difficulties| > count {
        timestamps, difficulties := [], [];
        var start := height - if height < count then height else count;
        start := if start < 1 then 1 else start;
        var h := start;
        while h < top
          invariant start <= h && (h <= top || h == start)
          invariant start <= top ==>
                      timestamps == Times(chain[start..h]) && difficulties == Difficulties(chain[start..h])
          invariant start > top ==> timestamps == [] && difficulties == []
        {
          PushStamp(chain, start, h);
          timestamps := timestamps + [chain[h].timestamp];
          difficulties := difficulties + [chain[h].difficulty];
          h := h + 1;
        }
      }
      AddTimestampAndDifficulty(count, chain[top].timestamp, chain[top].difficulty);
    }
  }

  // ---------------------------------------------------------------- the window

  /** The blocks that the difficulty at a chain height is computed from. */
  function Window(chain: seq<Stamp>, hf16: nat, height: nat): seq<Stamp>
    requires MIN_CHAIN_HEIGHT <= height <= |chain|
  {
    chain[StartHeight(height, BlockCount(hf16, height))..height]
  }

  function Fresh(chain: seq<Stamp>, hf16: nat, height: nat): Vectors
    requires MIN_CHAIN_HEIGHT <= height <= |chain|
  {
    Vectors(Times(Window(chain, hf16, height)), Difficulties(Window(chain, hf16, height)))
  }

  lemma PushStamp(chain: seq<Stamp>, lo: nat, hi: nat)
    requires lo <= hi < |chain|
    ensures Times(chain[lo..hi]) + [chain[hi].timestamp] == Times(chain[lo..hi + 1])
    ensures Difficulties(chain[lo..hi]) + [chain[hi].difficulty] == Difficulties(chain[lo..hi + 1])
  {
  }

  lemma TrimOne(chain: seq<Stamp>, lo: nat, hi: nat, count: nat)
    requires lo < hi <= |chain|
    ensures var from := if hi - lo > count then hi - count else lo;
            && Trim(Times(chain[lo..hi - 1]) + [chain[hi - 1].timestamp], count) == Times(chain[from..hi])
            && Trim(Difficulties(chain[lo..hi - 1]) + [chain[hi - 1].difficulty], count)
               == Difficulties(chain[from..hi])
  {
    hide Times, Difficulties;
    PushStamp(chain, lo, hi - 1);
    if hi - lo > count {
      DropStamps(chain[lo..hi], hi - lo - count);
      assert chain[lo..hi][hi - lo - count..] == chain[hi - count..hi];
    }
  }

  lemma DropStamps(s: seq<Stamp>, k: nat)
    requires k <= |s|
    ensures Times(s)[k..] == Times(s[k..]) && Difficulties(s)[k..] == Difficulties(s[k..])
  {
  }

  /** A rebuild gives the window: heights max(1, height - count) to height - 1, each once, in order,
      with both vectors as long as there are such heights. */
  lemma RebuildIsWindow(v: Vectors, chain: seq<Stamp>, hf16: nat, height: nat, cachedHeight: nat)
    requires MIN_CHAIN_HEIGHT <= height <= |chain|
    requires Invalidated(v, height, cachedHeight, BlockCount(hf16, height))
    ensures var count := BlockCount(hf16, height);
            var filled := Filled(v, chain, height, cachedHeight, count);
            var first := if height > count then height - count else 1;
            && filled == Fresh(chain, hf16, height)
            && |filled.timestamps| == |filled.difficulties| == (if height - 1 < count then height - 1 else count)
            && forall i :: 0 <= i < |filled.timestamps| ==>
                 chain[first + i] == Stamp(filled.timestamps[i], filled.difficulties[i])
  {
    var count := BlockCount(hf16, height);
    TrimOne(chain, StartHeight(height, count), height, count);
  }

  /** What a fill leaves, with the sizes written out: below height 2 the vectors as they are; from there on
      the window, the blocks from height - 61 up to hard fork 16 and from height - 60 after it, but never
      the first one; or, if the vectors belong to the height before and are not too long, their newest
      entries with the top block added. */
  lemma FillExactly(v: Vectors, chain: seq<Stamp>, hf16: nat, height: nat, cachedHeight: nat)
    requires height <= |chain|
    ensures var count := if height < hf16 then 61 else 60;
            var filled := Filled(v, chain, height, cachedHeight, BlockCount(hf16, height));
            if height < 2 then filled == v
            else if cachedHeight > 0 && height == cachedHeight + 1
                    && |v.timestamps| <= count && |v.difficulties| <= count then
              var times := v.timestamps + [chain[height - 1].timestamp];
              var difficulties := v.difficulties + [chain[height - 1].difficulty];
              && filled.timestamps == times[if |times| > count then |times| - count else 0..]
              && filled.difficulties == difficulties[if |difficulties| > count then |difficulties| - count else 0..]
            else
              var first := if height > count then height - count else 1;
              && |filled.timestamps| == |filled.difficulties| == height - first
              && forall i :: 0 <= i < height - first ==>
                   && filled.timestamps[i] == chain[first + i].timestamp
                   && filled.difficulties[i] == chain[first + i].difficulty
  {
    if height >= 2 && Invalidated(v, height, cachedHeight, BlockCount(hf16, height)) {
      RebuildIsWindow(v, chain, hf16, height, cachedHeight);
    }
  }

  /** The freshly read window, written out. */
  lemma FreshExactly(chain: seq<Stamp>, hf16: nat, height: nat)
    requires 2 <= height <= |chain|
    ensures var count := if height < hf16 then 61 else 60;
            var first := if height > count then height - count else 1;
            var v := Fresh(chain, hf16, height);
            && |v.timestamps| == |v.difficulties| == height - first
            && forall i :: 0 <= i < height - first ==>
                 v.timestamps[i] == chain[first + i].timestamp && v.difficulties[i] == chain[first + i].difficulty
  {
  }

  /** One more block on an up-to-date cache gives the window again, also where the window shrinks. */
  lemma SlideIsWindow(chain: seq<Stamp>, hf16: nat, height: nat)
    requires MIN_CHAIN_HEIGHT < height <= |chain|
    ensures Filled(Fresh(chain, hf16, height - 1), chain, height, height - 1, BlockCount(hf16, height))
            == Fresh(chain, hf16, height)
  {
    var count := BlockCount(hf16, height);
    var v := Fresh(chain, hf16, height - 1);
    if Invalidated(v, height, height - 1, count) {
      RebuildIsWindow(v, chain, hf16, height, height - 1);
    } else {
      var lo := StartHeight(height - 1, BlockCount(hf16, height - 1));
      TrimOne(chain, lo, height, count);
      assert (if height - lo > count then height - count else lo) == StartHeight(height, count);
    }
  }

  /** At hard fork 16 the window drops its two oldest blocks for the new one: 61 entries become 60. */
  lemma WindowAtHf16(chain: seq<Stamp>, hf16: nat)
    requires 62 < hf16 <= |chain|
    ensures var before, after := Fresh(chain, hf16, hf16 - 1), Fresh(chain, hf16, hf16);
            && |before.timestamps| == |before.difficulties| == 61
            && |after.timestamps| == |after.difficulties| == 60
            && after.timestamps == before.timestamps[2..] + [chain[hf16 - 1].timestamp]
            && after.difficulties == before.difficulties[2..] + [chain[hf16 - 1].difficulty]
  {
    hide Times, Difficulties;
    DropStamps(chain[hf16 - 62..hf16 - 1], 2);
    assert chain[hf16 - 62..hf16 - 1][2..] == chain[hf16 - 60..hf16 - 1];
    PushStamp(chain, hf16 - 60, hf16 - 1);
  }

  // ---------------------------------------------------------------- runs

  /** A chain, the cached vectors, and the chain height of the last fill, 0 if it was dropped. */
  datatype State = State(chain: seq<Stamp>, vectors: Vectors, cachedHeight: nat)

  /** Blocks arrive, blocks are rolled back (never the first one), the cache is dropped, and the
      difficulty after some height of the chain is asked for. */
  datatype Event = Append(stamp: Stamp) | Rollback(height: nat) | Drop | Query(height: nat)

  function After(s: State, hf16: nat, e: Event): State {
    match e
    case Append(stamp) => s.(chain := s.chain + [stamp])
    case Rollback(height) => if 1 <= height <= |s.chain| then s.(chain := s.chain[..height], cachedHeight := 0) else s
    case Drop => s.(cachedHeight := 0)
    case Query(height) =>
      if 1 <= height <= |s.chain| then
        State(s.chain, Filled(s.vectors, s.chain, height, s.cachedHeight, BlockCount(hf16, height)), height)
      else s
  }

  function AfterAll(s: State, hf16: nat, events: seq<Event>): State {
    if events == [] then s else After(AfterAll(s, hf16, events[..|events| - 1]), hf16, events[|events| - 1])
  }

  function Start(genesis: Stamp): State {
    State([genesis], Vectors([], []), 0)
  }

  /** A cache that counts as filled holds the window of its height. */
  ghost predicate UpToDate(s: State, hf16: nat)
    requires s.cachedHeight <= |s.chain|
  {
    && (s.cachedHeight == 1 ==> s.vectors == Vectors([], []))
    && (s.cachedHeight >= 2 ==> s.vectors == Fresh(s.chain, hf16, s.cachedHeight))
  }

  /** The last entries of the vectors are the whole chain up to the cached height, without the first block. */
  ghost predicate EndsInChain(s: State)
    requires 1 <= s.cachedHeight <= |s.chain|
  {
    var n := s.cachedHeight - 1;
    && |s.vectors.timestamps| >= n && |s.vectors.difficulties| >= n
    && s.vectors.timestamps[|s.vectors.timestamps| - n..] == Times(s.chain[1..s.cachedHeight])
    && s.vectors.difficulties[|s.vectors.difficulties| - n..] == Difficulties(s.chain[1..s.cachedHeight])
  }

  /** A query at height 1 leaves the vectors alone, yet marks them as filled. If they were not empty,
      they keep entries from before the chain's second block. */
  ghost predicate Stale(s: State)
    requires s.cachedHeight <= |s.chain|
  {
    1 <= s.cachedHeight <= |s.vectors.timestamps| && EndsInChain(s)
  }

  ghost predicate Tracked(s: State, hf16: nat) {
    && |s.chain| >= 1 && s.cachedHeight <= |s.chain|
    && |s.vectors.timestamps| == |s.vectors.difficulties|
    && (UpToDate(s, hf16) || Stale(s))
  }

  /** The next fill extends vectors that hold more than the blocks after the first one, and the window
      has room for more than those. A caller can tell this before asking. */
  predicate Misled(s: State, hf16: nat, height: nat) {
    var count := BlockCount(hf16, height);
    && s.cachedHeight >= 1 && height == s.cachedHeight + 1
    && s.cachedHeight - 1 < |s.vectors.timestamps| <= count
    && s.cachedHeight < count
  }

  lemma FreshSize(chain: seq<Stamp>, hf16: nat, height: nat)
    requires 2 <= height <= |chain|
    ensures var count := BlockCount(hf16, height);
            var v := Fresh(chain, hf16, height);
            |v.timestamps| == |v.difficulties| == (if height - 1 < count then height - 1 else count)
  {
  }

  lemma FirstWindow(chain: seq<Stamp>, hf16: nat)
    requires |chain| >= 2
    ensures Filled(Vectors([], []), chain, 2, 1, BlockCount(hf16, 2)) == Fresh(chain, hf16, 2)
  {
    assert chain[1..2] == [chain[1]];
  }

  lemma UpToDateQuery(s: State, hf16: nat, height: nat)
    requires Tracked(s, hf16) && UpToDate(s, hf16) && 2 <= height <= |s.chain|
    ensures !Misled(s, hf16, height)
    ensures After(s, hf16, Query(height)).vectors == Fresh(s.chain, hf16, height)
  {
    hide Fresh, Filled;
    if s.cachedHeight >= 2 {
      FreshSize(s.chain, hf16, s.cachedHeight);
    }
    if Invalidated(s.vectors, height, s.cachedHeight, BlockCount(hf16, height)) {
      RebuildIsWindow(s.vectors, s.chain, hf16, height, s.cachedHeight);
    } else if s.cachedHeight >= 2 {
      SlideIsWindow(s.chain, hf16, height);
    } else {
      FirstWindow(s.chain, hf16);
    }
  }

  /** Extending a sequence that ends in another, and cutting it down to no less than that. */
  lemma TrimmedEnd(v: seq<nat>, end: seq<nat>, x: nat, count: nat)
    requires |end| <= |v| && v[|v| - |end|..] == end && |end| + 1 <= count
    ensures var w := Trim(v + [x], count);
            |w| == (if |v| + 1 > count then count else |v| + 1) && w[|w| - (|end| + 1)..] == end + [x]
  {
    assert (v + [x])[|v| - |end|..] == end + [x];
  }

  /** A stale cache that is extended stays stale while the window has room, and then is right again. */
  lemma StaleExtended(s: State, hf16: nat)
    requires Tracked(s, hf16) && Stale(s) && s.cachedHeight < |s.chain|
    requires !Invalidated(s.vectors, s.cachedHeight + 1, s.cachedHeight, BlockCount(hf16, s.cachedHeight + 1))
    ensures var height := s.cachedHeight + 1;
            var after := After(s, hf16, Query(height));
            && |after.vectors.timestamps| == |after.vectors.difficulties|
            && EndsInChain(after)
            && |after.vectors.timestamps|
               == (if |s.vectors.timestamps| < BlockCount(hf16, height) then |s.vectors.timestamps| + 1
                   else BlockCount(hf16, height))
  {
    hide Times, Difficulties, Trim;
    var c := s.cachedHeight;
    var count := BlockCount(hf16, c + 1);
    PushStamp(s.chain, 1, c);
    TrimmedEnd(s.vectors.timestamps, Times(s.chain[1..c]), s.chain[c].timestamp, count);
    TrimmedEnd(s.vectors.difficulties, Difficulties(s.chain[1..c]), s.chain[c].difficulty, count);
  }

  lemma StaleQuery(s: State, hf16: nat, height: nat)
    requires Tracked(s, hf16) && Stale(s) && 2 <= height <= |s.chain|
    ensures var after := After(s, hf16, Query(height));
            && |after.vectors.timestamps| == |after.vectors.difficulties|
            && (if Misled(s, hf16, height) then Stale(after) && after.vectors != Fresh(s.chain, hf16, height)
                else after.vectors == Fresh(s.chain, hf16, height))
  {
    hide Fresh, Filled, EndsInChain;
    var count := BlockCount(hf16, height);
    var after := After(s, hf16, Query(height));
    FreshSize(s.chain, hf16, height);
    if Invalidated(s.vectors, height, s.cachedHeight, count) {
      RebuildIsWindow(s.vectors, s.chain, hf16, height, s.cachedHeight);
    } else {
      StaleExtended(s, hf16);
      if !Misled(s, hf16, height) {
        WholeWindow(after, hf16);
      }
    }
  }

  /** Vectors that end in the chain and are no longer than that are the window, if it reaches back that far. */
  lemma WholeWindow(s: State, hf16: nat)
    requires 2 <= s.cachedHeight <= |s.chain| && EndsInChain(s)
    requires |s.vectors.timestamps| == |s.vectors.difficulties| == s.cachedHeight - 1
    requires s.cachedHeight - 1 <= BlockCount(hf16, s.cachedHeight)
    ensures s.vectors == Fresh(s.chain, hf16, s.cachedHeight)
  {
    assert s.vectors.timestamps[0..] == s.vectors.timestamps;
    assert s.vectors.difficulties[0..] == s.vectors.difficulties;
  }

  lemma QueryTracked(s: State, hf16: nat, height: nat)
    requires Tracked(s, hf16) && 1 <= height <= |s.chain|
    ensures Tracked(After(s, hf16, Query(height)), hf16)
  {
    if height == 1 {
      assert s.chain[1..1] == [];
      assert s.vectors.timestamps == [] ==> s.vectors == Vectors([], []);
    } else {
      hide Fresh, Filled, EndsInChain;
      FreshSize(s.chain, hf16, height);
      if UpToDate(s, hf16) {
        UpToDateQuery(s, hf16, height);
      } else {
        StaleQuery(s, hf16, height);
      }
    }
  }

  lemma StepTracked(s: State, hf16: nat, e: Event)
    requires Tracked(s, hf16)
    ensures Tracked(After(s, hf16, e), hf16)
  {
    match e
    case Append(stamp) =>
      var chain := s.chain + [stamp];
      if s.cachedHeight >= 2 {
        assert Window(chain, hf16, s.cachedHeight) == Window(s.chain, hf16, s.cachedHeight);
      }
      if s.cachedHeight >= 1 {
        assert chain[1..s.cachedHeight] == s.chain[1..s.cachedHeight];
      }
    case Query(height) => if 1 <= height <= |s.chain| { QueryTracked(s, hf16, height); }
    case _ =>
  }

  lemma {:induction false} RunTracked(genesis: Stamp, hf16: nat, events: seq<Event>)
    ensures Tracked(AfterAll(Start(genesis), hf16, events), hf16)
  {
    hide Tracked, After;
    if events == [] {
      assert Tracked(Start(genesis), hf16) by { StartTracked(genesis, hf16); }
    } else {
      RunTracked(genesis, hf16, events[..|events| - 1]);
      StepTracked(AfterAll(Start(genesis), hf16, events[..|events| - 1]), hf16, events[|events| - 1]);
    }
  }

  lemma StartTracked(genesis: Stamp, hf16: nat)
    ensures Tracked(Start(genesis), hf16)
  {
  }

  /** Whatever blocks come and go and whatever was asked before: a query from height 2 on gives the
      freshly read window, exactly when the cache does not mislead it. */
  lemma CacheEqualsRecompute(genesis: Stamp, hf16: nat, events: seq<Event>, height: nat)
    requires 2 <= height <= |AfterAll(Start(genesis), hf16, events).chain|
    ensures var s := AfterAll(Start(genesis), hf16, events);
            After(s, hf16, Query(height)).vectors == Fresh(s.chain, hf16, height) <==> !Misled(s, hf16, height)
  {
    hide AfterAll, After, Fresh, Misled, EndsInChain;
    RunTracked(genesis, hf16, events);
    var s := AfterAll(Start(genesis), hf16, events);
    if UpToDate(s, hf16) {
      UpToDateQuery(s, hf16, height);
    } else {
      StaleQuery(s, hf16, height);
    }
  }

  /** Dropping the cache or rolling back always heals it: the next query from height 2 on is right,
      whatever the vectors hold. */
  lemma DroppedIsFresh(s: State, hf16: nat, e: Event, height: nat)
    requires e.Drop? || (e.Rollback? && 1 <= e.height <= |s.chain|)
    requires 2 <= height <= |After(s, hf16, e).chain|
    ensures var after := After(s, hf16, e);
            && after.chain == (if e.Drop? then s.chain else s.chain[..e.height])
            && After(after, hf16, Query(height)).vectors == Fresh(after.chain, hf16, height)
  {
    var after := After(s, hf16, e);
    RebuildIsWindow(after.vectors, after.chain, hf16, height, 0);
  }

  /** A new block and a query at the new height, again and again. */
  function Extended(s: State, hf16: nat, stamps: seq<Stamp>): State {
    if stamps == [] then s
    else
      var before := Extended(s, hf16, stamps[..|stamps| - 1]);
      var grown := After(before, hf16, Append(stamps[|stamps| - 1]));
      After(grown, hf16, Query(|grown.chain|))
  }

  /** A stale cache goes on being wrong with every further block until the chain fills the window. */
  lemma {:induction false} StaleWindowLasts(s: State, hf16: nat, stamps: seq<Stamp>)
    requires Tracked(s, hf16) && Stale(s) && s.cachedHeight == |s.chain|
    requires forall h :: |s.chain| < h <= |s.chain| + |stamps| ==>
               BlockCount(hf16, h) == BlockCount(hf16, |s.chain| + 1)
    requires |s.vectors.timestamps| <= BlockCount(hf16, |s.chain| + 1)
    requires |s.chain| + |stamps| <= BlockCount(hf16, |s.chain| + 1)
    ensures var t := Extended(s, hf16, stamps);
            && t.chain == s.chain + stamps && t.cachedHeight == |t.chain|
            && Tracked(t, hf16) && Stale(t)
            && |t.vectors.timestamps| <= BlockCount(hf16, |s.chain| + 1)
            && (stamps != [] ==> t.vectors != Fresh(t.chain, hf16, |t.chain|))
  {
    hide Fresh, Filled, EndsInChain, UpToDate;
    if stamps == [] {
      assert s.chain + stamps == s.chain;
    } else {
      var front, last := stamps[..|stamps| - 1], stamps[|stamps| - 1];
      StaleWindowLasts(s, hf16, front);
      var before := Extended(s, hf16, front);
      var grown := After(before, hf16, Append(last));
      assert grown.chain == s.chain + front + [last] == s.chain + stamps;
      StepTracked(before, hf16, Append(last));
      assert Stale(grown) by { StaleGrows(before, hf16, last); }
      var height := |grown.chain|;
      assert Misled(grown, hf16, height);
      StaleQuery(grown, hf16, height);
      QueryTracked(grown, hf16, height);
      StaleExtended(grown, hf16);
    }
  }

  lemma StaleGrows(s: State, hf16: nat, stamp: Stamp)
    requires s.cachedHeight <= |s.chain| && Stale(s)
    ensures Stale(After(s, hf16, Append(stamp)))
  {
    assert (s.chain + [stamp])[1..s.cachedHeight] == s.chain[1..s.cachedHeight];
  }

  /** A run to a stale cache: a query, a rollback to the first block, a query, a new block. */
  lemma StaleWindow(a: Stamp, b: Stamp, c: Stamp, hf16: nat)
    ensures var s := AfterAll(Start(a), hf16, [Append(b), Query(2), Rollback(1), Query(1), Append(c)]);
            s.chain == [a, c] && Misled(s, hf16, 2) && After(s, hf16, Query(2)).vectors != Fresh(s.chain, hf16, 2)
  {
    var events := [Append(b), Query(2), Rollback(1), Query(1), Append(c)];
    var one := After(Start(a), hf16, Append(b));
    assert one.chain == [a, b];
    FirstWindow(one.chain, hf16);
    StartTracked(a, hf16);
    StepTracked(Start(a), hf16, Append(b));
    UpToDateQuery(one, hf16, 2);
    FreshSize(one.chain, hf16, 2);
    var two := After(one, hf16, Query(2));
    var three := After(two, hf16, Rollback(1));
    assert three.chain == [a];
    assert events[..4] == [Append(b), Query(2), Rollback(1), Query(1)];
    assert events[..4][..3] == [Append(b), Query(2), Rollback(1)];
    assert events[..4][..3][..2] == [Append(b), Query(2)];
    assert events[..4][..3][..2][..1] == [Append(b)];
    assert AfterAll(Start(a), hf16, []) == Start(a);
    assert AfterAll(Start(a), hf16, [Append(b)]) == one by { assert [Append(b)][..0] == []; }
    assert AfterAll(Start(a), hf16, [Append(b), Query(2)]) == two;
    assert AfterAll(Start(a), hf16, [Append(b), Query(2), Rollback(1)]) == three;
    assert AfterAll(Start(a), hf16, [Append(b), Query(2), Rollback(1), Query(1)]) == After(three, hf16, Query(1));
    assert AfterAll(Start(a), hf16, events) == After(After(three, hf16, Query(1)), hf16, Append(c));
    CacheEqualsRecompute(a, hf16, events, 2);
  }
}
