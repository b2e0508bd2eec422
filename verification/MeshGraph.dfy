/**
 The graph theory of the quorum mesh: nodes 0 to n-1, directed connections that carry messages both
 ways, and the paths of one or two hops between two nodes.
 */
module MeshGraph {

  type Graph = set<(nat, nat)>

  /** A connection one way or the other. */
  predicate Linked(g: Graph, i: nat, j: nat) {
    (i, j) in g || (j, i) in g
  }

  function Below(n: nat): (s: set<nat>)
    ensures |s| == n
    ensures forall k: nat :: k in s <==> k < n
  {
    if n == 0 then {} else Below(n - 1) + {n - 1}
  }

  function Common(g: Graph, n: nat, i: nat, j: nat): set<nat> {
    set k: nat | k < n && k != i && k != j && Linked(g, i, k) && Linked(g, k, j)
  }

  function Neighbours(g: Graph, n: nat, i: nat): set<nat> {
    set k: nat | k < n && k != i && Linked(g, i, k)
  }

  /** The number of paths of one or two hops between two different nodes: the direct one and those
      through a common neighbour. */
  function Paths(g: Graph, n: nat, i: nat, j: nat): nat {
    (if Linked(g, i, j) then 1 else 0) + |Common(g, n, i, j)|
  }

  /** Connections between different nodes of the mesh, no two nodes connected both ways. */
  ghost predicate IsMesh(g: Graph, n: nat) {
    forall e :: e in g ==> e.0 < n && e.1 < n && e.0 != e.1 && (e.1, e.0) !in g
  }

  ghost predicate AtLeast(g: Graph, n: nat, m: nat) {
    forall i: nat, j: nat :: i < n && j < n && i != j ==> Paths(g, n, i, j) >= m
  }

  ghost predicate IsMinPaths(g: Graph, n: nat, m: nat) {
    AtLeast(g, n, m) && exists i: nat, j: nat :: i < n && j < n && i != j && Paths(g, n, i, j) == m
  }

  /** A pair of different nodes without a connection. */
  predicate Free(g: Graph, n: nat, i: nat, j: nat) {
    i < n && j < n && i != j && !Linked(g, i, j)
  }

  function FreePairs(g: Graph, n: nat): set<(nat, nat)> {
    set i: nat, j: nat | i < n && j < n && Free(g, n, i, j) :: (i, j)
  }

  // ---------------------------------------------------------------- counting

  lemma SubsetSize<T>(a: set<T>, b: set<T>)
    requires a <= b
    ensures |a| <= |b|
  {
    assert b == a + (b - a);
  }

  lemma PathsSymmetric(g: Graph, n: nat, i: nat, j: nat)
    ensures Paths(g, n, i, j) == Paths(g, n, j, i)
  {
    assert Common(g, n, i, j) == Common(g, n, j, i);
  }

  /** More connections never mean fewer paths. */
  lemma PathsMonotone(g: Graph, more: Graph, n: nat, i: nat, j: nat)
    requires g <= more
    ensures Paths(g, n, i, j) <= Paths(more, n, i, j)
  {
    SubsetSize(Common(g, n, i, j), Common(more, n, i, j));
  }

  /** The ends of the paths from a node are different neighbours of it. */
  lemma PathsAtMostDegree(g: Graph, n: nat, i: nat, j: nat)
    requires i < n && j < n && i != j
    ensures Paths(g, n, i, j) <= |Neighbours(g, n, i)|
  {
    var ends := Common(g, n, i, j) + if Linked(g, i, j) then {j} else {};
    assert j !in Common(g, n, i, j);
    SubsetSize(ends, Neighbours(g, n, i));
  }

  lemma DegreeAtMost(g: Graph, n: nat, i: nat)
    requires i < n
    ensures |Neighbours(g, n, i)| <= n - 1
  {
    assert |Below(n) - {i}| == n - 1;
    SubsetSize(Neighbours(g, n, i), Below(n) - {i});
  }

  /** No mesh of n nodes has n or more paths between two nodes. */
  lemma PathsAtMost(g: Graph, n: nat, i: nat, j: nat)
    requires i < n && j < n && i != j
    ensures Paths(g, n, i, j) <= n - 1
  {
    PathsAtMostDegree(g, n, i, j);
    DegreeAtMost(g, n, i);
  }

  /** A target of n or more is out of reach, so the generator's loop ends only for smaller ones. */
  lemma TargetOutOfReach(g: Graph, n: nat, target: nat)
    requires target > n - 1
    ensures !Finished(g, n, target)
  {
    forall m: nat | IsMinPaths(g, n, m)
      ensures m <= n - 1
    {
      var i: nat, j: nat :| i < n && j < n && i != j && Paths(g, n, i, j) == m;
      PathsAtMost(g, n, i, j);
    }
  }

  lemma CompletePaths(g: Graph, n: nat, i: nat, j: nat)
    requires i < n && j < n && i != j
    requires FreePairs(g, n) == {}
    ensures Paths(g, n, i, j) == n - 1
  {
    forall a: nat, b: nat | a < n && b < n && a != b
      ensures Linked(g, a, b)
    {
      assert (a, b) !in FreePairs(g, n);
    }
    assert Common(g, n, i, j) == Below(n) - {i, j};
    assert |Below(n) - {i, j}| == n - 2;
  }

  /** While fewer than n-1 paths are the least, some pair of nodes is unconnected. */
  lemma NotComplete(g: Graph, n: nat, m: nat)
    requires IsMinPaths(g, n, m) && m < n - 1
    ensures FreePairs(g, n) != {}
  {
    var i: nat, j: nat :| i < n && j < n && i != j && Paths(g, n, i, j) == m;
    if FreePairs(g, n) == {} {
      CompletePaths(g, n, i, j);
    }
  }

  lemma EmptyMesh(n: nat)
    requires n >= 2
    ensures IsMesh({}, n) && IsMinPaths({}, n, 0)
  {
    assert Common({}, n, 0, 1) == {};
    assert Paths({}, n, 0, 1) == 0;
  }

  lemma MinPathsUnique(g: Graph, n: nat, m: nat, k: nat)
    requires IsMinPaths(g, n, m) && IsMinPaths(g, n, k)
    ensures m == k
  {
  }

  lemma AddConnection(g: Graph, n: nat, i: nat, j: nat)
    requires IsMesh(g, n) && Free(g, n, i, j)
    ensures IsMesh(g + {(i, j)}, n)
    ensures FreePairs(g + {(i, j)}, n) < FreePairs(g, n)
  {
    assert (i, j) in FreePairs(g, n) && (i, j) !in FreePairs(g + {(i, j)}, n);
  }

  // ---------------------------------------------------------------- the greedy choice

  function Outgoing(g: Graph, n: nat, i: nat): set<nat> {
    set k: nat | k < n && (i, k) in g
  }

  function Incoming(g: Graph, n: nat, j: nat): set<nat> {
    set k: nat | k < n && (k, j) in g
  }

  /** The pairs of nodes with at most m paths. */
  function LowPairs(g: Graph, n: nat, m: nat): set<(nat, nat)> {
    set i: nat, j: nat | i < n && j < n && i < j && Paths(g, n, i, j) <= m :: (i, j)
  }

  /** What a connection is judged by: its ends' connections first, then the pairs it leaves low. */
  datatype Score = Score(degree: nat, low: nat)

  predicate Less(a: Score, b: Score) {
    a.degree < b.degree || (a.degree == b.degree && a.low < b.low)
  }

  function ScoreOf(g: Graph, n: nat, m: nat, i: nat, j: nat): Score {
    Score(|Outgoing(g, n, i)| + |Incoming(g, n, j)| + 2, |LowPairs(g + {(i, j)}, n, m)|)
  }

  /** Earlier in row order. */
  predicate RowBefore(a: nat, b: nat, i: nat, j: nat) {
    a < i || (a == i && b < j)
  }

  /** The best unconnected pair among those before (i, j) in row order: least score, earliest of equals. */
  ghost predicate BestBefore(g: Graph, n: nat, m: nat, bi: nat, bj: nat, i: nat, j: nat) {
    && Free(g, n, bi, bj)
    && RowBefore(bi, bj, i, j)
    && forall a: nat, b: nat :: Free(g, n, a, b) && RowBefore(a, b, i, j) ==>
         && !Less(ScoreOf(g, n, m, a, b), ScoreOf(g, n, m, bi, bj))
         && (RowBefore(a, b, bi, bj) ==> Less(ScoreOf(g, n, m, bi, bj), ScoreOf(g, n, m, a, b)))
  }

  /** The connection the greedy step chooses: the lexicographically least score over all unconnected
      ordered pairs, the first in row order if there are several. */
  ghost predicate IsBest(g: Graph, n: nat, m: nat, bi: nat, bj: nat) {
    && Free(g, n, bi, bj)
    && forall a: nat, b: nat :: Free(g, n, a, b) ==>
         && !Less(ScoreOf(g, n, m, a, b), ScoreOf(g, n, m, bi, bj))
         && (RowBefore(a, b, bi, bj) ==> Less(ScoreOf(g, n, m, bi, bj), ScoreOf(g, n, m, a, b)))
  }

  lemma BestIsUnique(g: Graph, n: nat, m: nat, i: nat, j: nat, a: nat, b: nat)
    requires IsBest(g, n, m, i, j) && IsBest(g, n, m, a, b)
    ensures i == a && j == b
  {
    assert RowBefore(i, j, a, b) || RowBefore(a, b, i, j) || (i == a && j == b);
  }

  /** What the choice means, written out: no other unconnected pair has a smaller sum of outgoing and
      incoming connections, none with the same sum leaves fewer pairs low, and one that is as good on
      both counts does not come earlier in row order. */
  lemma BestMeans(g: Graph, n: nat, m: nat, i: nat, j: nat, a: nat, b: nat)
    requires IsBest(g, n, m, i, j) && Free(g, n, a, b)
    ensures var sum := |set k: nat | k < n && (i, k) in g| + |set k: nat | k < n && (k, j) in g|;
            var other := |set k: nat | k < n && (a, k) in g| + |set k: nat | k < n && (k, b) in g|;
            var low := |LowPairs(g + {(i, j)}, n, m)|;
            var otherLow := |LowPairs(g + {(a, b)}, n, m)|;
            && (sum < other || (sum == other && low <= otherLow))
            && (a < i || (a == i && b < j) ==> sum < other || (sum == other && low < otherLow))
  {
    hide LowPairs;
    assert Outgoing(g, n, i) == set k: nat | k < n && (i, k) in g;
    assert Incoming(g, n, j) == set k: nat | k < n && (k, j) in g;
    assert Outgoing(g, n, a) == set k: nat | k < n && (a, k) in g;
    assert Incoming(g, n, b) == set k: nat | k < n && (k, b) in g;
  }

  /** No pair is low exactly when every two nodes have more than m paths. */
  lemma NoneLow(g: Graph, n: nat, m: nat)
    ensures LowPairs(g, n, m) == {} <==> AtLeast(g, n, m + 1)
  {
    hide Paths;
    if LowPairs(g, n, m) == {} {
      forall i: nat, j: nat | i < n && j < n && i != j
        ensures Paths(g, n, i, j) >= m + 1
      {
        PathsSymmetric(g, n, i, j);
        assert (i, j) !in LowPairs(g, n, m) && (j, i) !in LowPairs(g, n, m);
      }
    }
    if AtLeast(g, n, m + 1) {
      assert forall e :: e in LowPairs(g, n, m) ==> Paths(g, n, e.0, e.1) <= m;
    }
  }

  /** Every unconnected pair scores below the search's starting value. */
  lemma FreeScoresLow(g: Graph, n: nat, m: nat, i: nat, j: nat)
    requires IsMesh(g, n) && Free(g, n, i, j)
    ensures ScoreOf(g, n, m, i, j).degree <= 2 * n - 2
  {
    assert |Below(n) - {i, j}| == n - 2;
    assert (i, i) !in g by { assert (i, i) in g ==> (i, i).0 != (i, i).1; }
    assert (j, j) !in g by { assert (j, j) in g ==> (j, j).0 != (j, j).1; }
    SubsetSize(Outgoing(g, n, i), Below(n) - {i, j});
    SubsetSize(Incoming(g, n, j), Below(n) - {i, j});
  }

  // ---------------------------------------------------------------- the greedy construction

  function GraphOf(trace: seq<(nat, nat)>): Graph {
    set k | 0 <= k < |trace| :: trace[k]
  }

  /** One step of the construction: the mesh is not good enough yet, and the best pair is connected. */
  ghost predicate GreedyStep(g: Graph, n: nat, target: nat, e: (nat, nat)) {
    exists m: nat :: m < target && IsMinPaths(g, n, m) && IsBest(g, n, m, e.0, e.1)
  }

  /** The connections were chosen one after the other by the greedy step. */
  ghost predicate GreedyTrace(trace: seq<(nat, nat)>, n: nat, target: nat) {
    forall k :: 0 <= k < |trace| ==> GreedyStep(GraphOf(trace[..k]), n, target, trace[k])
  }

  ghost predicate Finished(g: Graph, n: nat, target: nat) {
    exists m: nat :: m >= target && IsMinPaths(g, n, m)
  }

  lemma GraphOfMore(trace: seq<(nat, nat)>, k: nat)
    requires k < |trace|
    ensures GraphOf(trace[..k + 1]) == GraphOf(trace[..k]) + {trace[k]}
  {
    var more := trace[..k + 1];
    assert more[..k] == trace[..k] && more[k] == trace[k];
    forall e | e in GraphOf(trace[..k])
      ensures e in GraphOf(more)
    {
      var i :| 0 <= i < k && trace[..k][i] == e;
      assert more[i] == e;
    }
  }

  /** After every pass the connections form a mesh, and each pass has added a new one. */
  lemma {:induction false} TraceIsMesh(trace: seq<(nat, nat)>, n: nat, target: nat, k: nat)
    requires GreedyTrace(trace, n, target) && k <= |trace|
    ensures IsMesh(GraphOf(trace[..k]), n)
    ensures |GraphOf(trace[..k])| == k
  {
    hide GreedyStep, FreePairs, IsMesh;
    if k == 0 {
      assert GraphOf(trace[..0]) == {};
      assert IsMesh({}, n) by { NoConnections(n); }
    } else {
      hide GraphOf;
      TraceIsMesh(trace, n, target, k - 1);
      var g, e := GraphOf(trace[..k - 1]), trace[k - 1];
      GreedyStepIsFree(g, n, target, e);
      GraphOfMore(trace, k - 1);
      AddConnection(g, n, e.0, e.1);
      assert e !in g;
    }
  }

  lemma NoConnections(n: nat)
    ensures IsMesh({}, n)
  {
  }

  lemma GreedyStepIsFree(g: Graph, n: nat, target: nat, e: (nat, nat))
    requires GreedyStep(g, n, target, e)
    ensures Free(g, n, e.0, e.1)
  {
    hide IsMinPaths, ScoreOf;
  }

  /** From pass to pass no path count falls. */
  lemma {:induction false} TracePathsNeverFall(trace: seq<(nat, nat)>, n: nat, k: nat, l: nat, i: nat, j: nat)
    requires k <= l <= |trace|
    ensures Paths(GraphOf(trace[..k]), n, i, j) <= Paths(GraphOf(trace[..l]), n, i, j)
  {
    hide Paths, GraphOf;
    if k == l {
    } else {
      TracePathsNeverFall(trace, n, k, l - 1, i, j);
      GraphOfMore(trace, l - 1);
      PathsMonotone(GraphOf(trace[..l - 1]), GraphOf(trace[..l]), n, i, j);
    }
  }

  /** In every pass, with the least number of paths m at that point: the connection made is at least as good
      as any other unconnected pair, better than the earlier ones, in terms of connections already there
      and of pairs left with at most m paths. */
  lemma EveryPassIsBest(trace: seq<(nat, nat)>, n: nat, target: nat, k: nat, m: nat, a: nat, b: nat)
    requires GreedyTrace(trace, n, target) && k < |trace|
    requires IsMinPaths(GraphOf(trace[..k]), n, m) && Free(GraphOf(trace[..k]), n, a, b)
    ensures var g := GraphOf(trace[..k]);
            var (i, j) := trace[k];
            var sum := |set l: nat | l < n && (i, l) in g| + |set l: nat | l < n && (l, j) in g|;
            var other := |set l: nat | l < n && (a, l) in g| + |set l: nat | l < n && (l, b) in g|;
            var low := |LowPairs(g + {(i, j)}, n, m)|;
            var otherLow := |LowPairs(g + {(a, b)}, n, m)|;
            && m < target
            && (sum < other || (sum == other && low <= otherLow))
            && (a < i || (a == i && b < j) ==> sum < other || (sum == other && low < otherLow))
  {
    hide LowPairs, IsBest, IsMinPaths, GraphOf, Free;
    var g := GraphOf(trace[..k]);
    var (i, j) := trace[k];
    assert GreedyStep(g, n, target, trace[k]);
    var p: nat :| p < target && IsMinPaths(g, n, p) && IsBest(g, n, p, i, j);
    MinPathsUnique(g, n, m, p);
    BestMeans(g, n, m, i, j, a, b);
  }

  lemma GreedyStepIsUnique(g: Graph, n: nat, target: nat, e: (nat, nat), f: (nat, nat))
    requires GreedyStep(g, n, target, e) && GreedyStep(g, n, target, f)
    ensures e == f
  {
    hide IsMinPaths, IsBest;
    var m: nat :| m < target && IsMinPaths(g, n, m) && IsBest(g, n, m, e.0, e.1);
    var p: nat :| p < target && IsMinPaths(g, n, p) && IsBest(g, n, p, f.0, f.1);
    MinPathsUnique(g, n, m, p);
    BestIsUnique(g, n, m, e.0, e.1, f.0, f.1);
  }

  lemma {:induction false} TraceIsUnique(s: seq<(nat, nat)>, t: seq<(nat, nat)>, n: nat, target: nat, k: nat)
    requires GreedyTrace(s, n, target) && GreedyTrace(t, n, target)
    requires k <= |s| && k <= |t|
    ensures s[..k] == t[..k]
  {
    hide GreedyStep;
    if k == 0 {
    } else {
      TraceIsUnique(s, t, n, target, k - 1);
      GreedyStepIsUnique(GraphOf(s[..k - 1]), n, target, s[k - 1], t[k - 1]);
      assert s[..k] == s[..k - 1] + [s[k - 1]] && t[..k] == t[..k - 1] + [t[k - 1]];
    }
  }

  /** A construction cannot go on from a mesh that is good enough. */
  lemma FinishedStops(g: Graph, n: nat, target: nat, e: (nat, nat))
    requires Finished(g, n, target)
    ensures !GreedyStep(g, n, target, e)
  {
    hide IsMinPaths, IsBest;
    var m: nat :| m >= target && IsMinPaths(g, n, m);
    forall p: nat | IsMinPaths(g, n, p)
      ensures p == m
    {
      MinPathsUnique(g, n, m, p);
    }
  }

  lemma FinishedTraceIsLongest(s: seq<(nat, nat)>, t: seq<(nat, nat)>, n: nat, target: nat)
    requires GreedyTrace(s, n, target) && Finished(GraphOf(s), n, target)
    requires GreedyTrace(t, n, target) && |s| <= |t|
    ensures s == t
  {
    hide GreedyStep, Finished, GraphOf;
    TraceIsUnique(s, t, n, target, |s|);
    assert s[..|s|] == s && t[..|t|] == t;
    assert |s| < |t| ==> GreedyStep(GraphOf(s), n, target, t[|s|]);
    forall e
      ensures !GreedyStep(GraphOf(s), n, target, e)
    {
      FinishedStops(GraphOf(s), n, target, e);
    }
  }

  /** The finished mesh is determined by the number of nodes and the target. */
  lemma GreedyMeshIsUnique(s: seq<(nat, nat)>, t: seq<(nat, nat)>, n: nat, target: nat)
    requires GreedyTrace(s, n, target) && Finished(GraphOf(s), n, target)
    requires GreedyTrace(t, n, target) && Finished(GraphOf(t), n, target)
    ensures s == t
  {
    hide GreedyTrace, Finished, GraphOf;
    if |s| <= |t| {
      FinishedTraceIsLongest(s, t, n, target);
    } else {
      FinishedTraceIsLongest(t, s, n, target);
    }
  }

  // ---------------------------------------------------------------- fault tolerance

  /** Still within two hops when some nodes are dead and some connections are cut. */
  ghost predicate WithinTwo(g: Graph, n: nat, dead: set<nat>, cut: Graph, i: nat, j: nat) {
    || Linked(g - cut, i, j)
    || exists k: nat :: k < n && k !in dead && k != i && k != j && Linked(g - cut, i, k) && Linked(g - cut, k, j)
  }

  /** A cut connection on the path through k, if there is one. */
  function CutOn(cut: Graph, i: nat, j: nat, k: nat): (nat, nat) {
    if (i, k) in cut then (i, k) else if (k, i) in cut then (k, i) else if (k, j) in cut then (k, j) else (j, k)
  }

  lemma {:induction false} CutsAreDifferent(cut: Graph, i: nat, j: nat, ks: set<nat>)
    requires i != j && i !in ks && j !in ks
    ensures |set k | k in ks :: CutOn(cut, i, j, k)| == |ks|
  {
    if ks == {} {
      assert (set k | k in ks :: CutOn(cut, i, j, k)) == {};
    } else {
      var x :| x in ks;
      CutsAreDifferent(cut, i, j, ks - {x});
      var rest := set k | k in ks - {x} :: CutOn(cut, i, j, k);
      assert CutOn(cut, i, j, x) !in rest;
      assert (set k | k in ks :: CutOn(cut, i, j, k)) == rest + {CutOn(cut, i, j, x)};
    }
  }

  /** If nothing is left, every common neighbour is dead or has lost a connection. */
  lemma LostPaths(g: Graph, n: nat, dead: set<nat>, cut: Graph, i: nat, j: nat)
    requires i != j && !WithinTwo(g, n, dead, cut, i, j)
    ensures Paths(g, n, i, j) <= |dead| + |cut|
  {
    var alive := Common(g, n, i, j) - dead;
    var cuts := set k | k in alive :: CutOn(cut, i, j, k);
    CutsAreDifferent(cut, i, j, alive);
    forall k | k in alive
      ensures CutOn(cut, i, j, k) in cut - {(i, j), (j, i)}
    {
      assert !(Linked(g - cut, i, k) && Linked(g - cut, k, j));
    }
    assert cuts <= cut - {(i, j), (j, i)};
    var direct := if Linked(g, i, j) then (if (i, j) in cut then {(i, j)} else {(j, i)}) else {};
    assert cuts + direct <= cut;
    assert cuts !! direct;
    SubsetSize(cuts + direct, cut);
    SubsetSize(Common(g, n, i, j), alive + dead);
  }

  /** A mesh with at least `target` short paths everywhere survives the loss of any combination of
      fewer than `target` nodes and connections: the survivors stay within two hops. */
  lemma FaultTolerance(g: Graph, n: nat, target: nat, dead: set<nat>, cut: Graph, i: nat, j: nat)
    requires AtLeast(g, n, target)
    requires |dead| + |cut| < target
    requires i < n && j < n && i != j && i !in dead && j !in dead
    ensures WithinTwo(g, n, dead, cut, i, j)
  {
    assert Paths(g, n, i, j) >= target;
    if !WithinTwo(g, n, dead, cut, i, j) {
      LostPaths(g, n, dead, cut, i, j);
    }
  }

  /** The bound is sharp: between nodes with fewer paths, some such loss leaves no short path. */
  lemma FaultToleranceIsSharp(g: Graph, n: nat, i: nat, j: nat)
    requires IsMesh(g, n) && i < n && j < n && i != j
    ensures exists dead: set<nat>, cut: Graph ::
              |dead| + |cut| == Paths(g, n, i, j) && i !in dead && j !in dead && !WithinTwo(g, n, dead, cut, i, j)
  {
    var dead := Common(g, n, i, j);
    var cut: Graph := if (i, j) in g then {(i, j)} else if (j, i) in g then {(j, i)} else {};
    assert (i, j) in g ==> (i, j).1 == j && (j, i) !in g;
    forall k: nat | k < n && k != i && k != j && Linked(g - cut, i, k) && Linked(g - cut, k, j)
      ensures k in dead
    {
    }
    assert !WithinTwo(g, n, dead, cut, i, j);
    assert |dead| + |cut| == Paths(g, n, i, j) && i !in dead && j !in dead;
  }

  /** Every node of such a mesh has at least `target` connections, in and out together. */
  lemma DegreeAtLeast(g: Graph, n: nat, target: nat, i: nat)
    requires n >= 2 && i < n && AtLeast(g, n, target)
    ensures |Neighbours(g, n, i)| >= target
  {
    var j := if i == 0 then 1 else 0;
    PathsAtMostDegree(g, n, i, j);
    assert Paths(g, n, i, j) >= target;
  }
}
