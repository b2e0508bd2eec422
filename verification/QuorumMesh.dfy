/**
 The quorum mesh generator: a matrix of connections, set and reset in place while the best next
 connection is searched for, until every two nodes have enough paths of one or two hops.
 */
module QuorumMesh {
  import opened ChainTypes
  import opened MeshGraph

  /** The paths asked for in a quorum of a given size. */
  function MinConnections(n: nat): nat {
    if n <= 10 then 4 else 2
  }

  /** The generator's target is within reach from five nodes on, hence for every quorum size it is run for. */
  lemma TargetWithinReach(n: nat)
    ensures MinConnections(n) <= n - 1 <==> n >= 5
  {
  }

  ghost predicate Bits(conns: array2<int>)
    reads conns
  {
    forall i, j :: 0 <= i < conns.Length0 && 0 <= j < conns.Length1 ==> conns[i, j] == 0 || conns[i, j] == 1
  }

  /** The connections that a matrix stands for. */
  ghost function Edges(conns: array2<int>): Graph
    reads conns
  {
    set i: nat, j: nat | i < conns.Length0 && j < conns.Length1 && conns[i, j] == 1 :: (i, j)
  }

  lemma EdgeIn(conns: array2<int>, i: nat, j: nat)
    requires i < conns.Length0 && j < conns.Length1
    ensures (i, j) in Edges(conns) <==> conns[i, j] == 1
  {
  }

  class Mesh {
    const nodes: nat
    var conns: array2<int>

    ghost predicate Valid()
      reads this, conns
    {
      conns.Length0 == nodes && conns.Length1 == nodes && Bits(conns)
    }

    ghost function Graph(): MeshGraph.Graph
      reads this, conns
    {
      Edges(conns)
    }

    constructor (n: nat)
      ensures nodes == n && Valid() && fresh(conns) && Graph() == {}
    {
      nodes := n;
      conns := new int[n, n]((i, j) => 0);
    }

    /** The nodes connected with j, in ascending order. */
    method NeighboursOf(j: nat) returns (neighbours: seq<nat>)
      requires Valid() && j < nodes
      ensures forall k: nat :: k in neighbours <==> k in Neighbours(Graph(), nodes, j)
      ensures Distinct(neighbours)
    {
      neighbours := [];
      var r: nat := 0;
      while r < j
        invariant 0 <= r <= j
        invariant forall k: nat :: k in neighbours <==> k < r && Linked(Graph(), j, k)
        invariant Distinct(neighbours)
      {
        if conns[r, j] != 0 || conns[j, r] > 0 {
          DistinctMore(neighbours, r);
          neighbours := neighbours + [r];
        }
        r := r + 1;
      }
      var c: nat := j + 1;
      while c < nodes
        invariant j + 1 <= c <= nodes
        invariant forall k: nat :: k in neighbours <==> k < c && k != j && Linked(Graph(), j, k)
        invariant Distinct(neighbours)
      {
        if conns[j, c] != 0 || conns[c, j] > 0 {
          DistinctMore(neighbours, c);
          neighbours := neighbours + [c];
        }
        c := c + 1;
      }
    }

    /** `count_paths_within_two`. For a node and itself the loops count its connections. */
    method CountPathsWithinTwo(i: nat, j: nat) returns (paths: nat)
      requires Valid() && i < nodes && j < nodes
      ensures i != j ==> paths == Paths(Graph(), nodes, i, j)
      ensures i == j ==> paths == |Neighbours(Graph(), nodes, i)|
    {
      var lo, hi := i, j;
      if i > j {
        lo, hi := j, i;
      }
      paths := 0;
      var neighbours := NeighboursOf(hi);
      var t := 0;
      while t < |neighbours|
        invariant 0 <= t <= |neighbours|
        invariant paths == CountReaching(Graph(), neighbours[..t], lo)
      {
        var n := neighbours[t];
        assert n in Neighbours(Graph(), nodes, hi);
        assert neighbours[..t + 1][..t] == neighbours[..t];
        if n == lo || conns[n, lo] > 0 || conns[lo, n] > 0 {
          paths := paths + 1;
        }
        t := t + 1;
      }
      assert neighbours[..t] == neighbours;
      CountedPaths(Graph(), nodes, lo, hi, neighbours);
      PathsSymmetric(Graph(), nodes, i, j);
    }

    /** `min_within_two`: no answer for fewer than two nodes. */
    method MinWithinTwo() returns (min: Option<nat>)
      requires Valid()
      ensures min.None? <==> nodes < 2
      ensures min.Some? ==> IsMinPaths(Graph(), nodes, min.value)
    {
      hide Paths, Edges;
      min := None;
      var i: nat := 0;
      while i < nodes
        invariant 0 <= i <= nodes
        invariant MinBefore(Graph(), nodes, i, 0, min)
      {
        MinMoves(Graph(), nodes, i, 0, i, i + 1, min);
        var j: nat := i + 1;
        while j < nodes
          invariant i + 1 <= j && (j <= nodes || j == i + 1)
          invariant MinBefore(Graph(), nodes, i, j, min)
        {
          var c := CountPathsWithinTwo(i, j);
          MinStep(Graph(), nodes, i, j, min);
          if min.None? || c < min.value {
            min := Some(c);
          }
          j := j + 1;
        }
        MinMoves(Graph(), nodes, i, j, i + 1, 0, min);
        i := i + 1;
      }
      MinOfAll(Graph(), nodes, min);
    }

    /** `count_not_within_two`: the pairs with at most the given number of paths. */
    method CountNotWithinTwo(m: nat) returns (count: nat)
      requires Valid()
      ensures count == |LowPairs(Graph(), nodes, m)|
    {
      hide LowPairs, Paths, Edges;
      count := 0;
      assert LowBefore(Graph(), nodes, m, 0, 0) == {};
      hide LowBefore;
      var i: nat := 0;
      while i < nodes
        invariant 0 <= i <= nodes
        invariant count == |LowBefore(Graph(), nodes, m, i, 0)|
      {
        LowRowStart(Graph(), nodes, m, i);
        var j: nat := i + 1;
        while j < nodes
          invariant i + 1 <= j && (j <= nodes || j == i + 1)
          invariant count == |LowBefore(Graph(), nodes, m, i, j)|
        {
          var c := CountPathsWithinTwo(i, j);
          LowStep(Graph(), nodes, m, i, j);
          if c <= m {
            count := count + 1;
          }
          j := j + 1;
        }
        LowRowEnd(Graph(), nodes, m, i, j);
        i := i + 1;
      }
      LowOfAll(Graph(), nodes, m);
    }

    /** The sum of a row of the matrix. */
    method SumOutgoing(i: nat) returns (sum: int)
      requires Valid() && i < nodes
      ensures sum == |Outgoing(Graph(), nodes, i)|
    {
      sum := 0;
      var j: nat := 0;
      assert Outgoing(Graph(), 0, i) == {};
      while j < nodes
        invariant 0 <= j <= nodes
        invariant sum == |Outgoing(Graph(), j, i)|
      {
        assert Outgoing(Graph(), j + 1, i) == Outgoing(Graph(), j, i) + if conns[i, j] == 1 then {j} else {};
        sum := sum + conns[i, j];
        j := j + 1;
      }
    }

    /** The sum of a column of the matrix. */
    method SumIncoming(j: nat) returns (sum: int)
      requires Valid() && j < nodes
      ensures sum == |Incoming(Graph(), nodes, j)|
    {
      sum := 0;
      var k: nat := 0;
      assert Incoming(Graph(), 0, j) == {};
      while k < nodes
        invariant 0 <= k <= nodes
        invariant sum == |Incoming(Graph(), k, j)|
      {
        assert Incoming(Graph(), k + 1, j) == Incoming(Graph(), k, j) + if conns[k, j] == 1 then {k} else {};
        sum := sum + conns[k, j];
        k := k + 1;
      }
    }

    /** Tries a connection: sets it, counts the pairs left low, resets it. */
    method TryConnection(i: nat, j: nat, m: nat) returns (low: nat)
      requires Valid() && i < nodes && j < nodes && conns[i, j] == 0
      modifies conns
      ensures Valid() && Graph() == old(Graph())
      ensures forall a, b :: 0 <= a < nodes && 0 <= b < nodes ==> conns[a, b] == old(conns[a, b])
      ensures low == |LowPairs(old(Graph()) + {(i, j)}, nodes, m)|
    {
      hide LowPairs;
      Connect(i, j);
      low := CountNotWithinTwo(m);
      conns[i, j] := 0;
    }

    /** Sets an entry of the matrix. */
    method Connect(i: nat, j: nat)
      requires Valid() && i < nodes && j < nodes
      modifies conns
      ensures Valid() && Graph() == old(Graph()) + {(i, j)}
      ensures conns[i, j] == 1
      ensures forall a, b :: 0 <= a < nodes && 0 <= b < nodes && (a != i || b != j) ==> conns[a, b] == old(conns[a, b])
    {
      conns[i, j] := 1;
    }

    /** The search of one greedy step over all ordered pairs, in row order. */
    method BestConnection(m: nat) returns (bi: nat, bj: nat)
      requires Valid() && IsMesh(Graph(), nodes)
      modifies conns
      ensures Valid() && Graph() == old(Graph())
      ensures forall a, b :: 0 <= a < nodes && 0 <= b < nodes ==> conns[a, b] == old(conns[a, b])
      ensures FreePairs(Graph(), nodes) != {} ==> IsBest(Graph(), nodes, m, bi, bj)
      ensures FreePairs(Graph(), nodes) == {} ==> bi == 0 && bj == 0
    {
      hide LowPairs, SearchedTo, IsMesh, FreePairs, IsBest, Outgoing, Incoming, Edges;
      ghost var g := Graph();
      var low := CountNotWithinTwo(m);
      var best := Score(nodes + nodes, low);
      bi, bj := 0, 0;
      NothingSearched(g, nodes, m, best);
      var i: nat := 0;
      while i < nodes
        invariant 0 <= i <= nodes
        invariant Valid() && Graph() == g
        invariant forall a, b :: 0 <= a < nodes && 0 <= b < nodes ==> conns[a, b] == old(conns[a, b])
        invariant SearchedTo(g, nodes, m, bi, bj, best, i, 0)
      {
        var outgoing := SumOutgoing(i);
        var j: nat := 0;
        while j < nodes
          invariant 0 <= j <= nodes
          invariant Valid() && Graph() == g
          invariant forall a, b :: 0 <= a < nodes && 0 <= b < nodes ==> conns[a, b] == old(conns[a, b])
          invariant SearchedTo(g, nodes, m, bi, bj, best, i, j)
        {
          var incoming := SumIncoming(j);
          EdgeIn(conns, i, j);
          EdgeIn(conns, j, i);
          if i == j || conns[i, j] != 0 || conns[j, i] != 0 {
            assert !Free(g, nodes, i, j);
            SkipPair(g, nodes, m, bi, bj, best, i, j);
          } else {
            low := TryConnection(i, j, m);
            var c := Score(outgoing + 1 + (incoming + 1), low);
            TakePair(g, nodes, m, bi, bj, best, i, j);
            if Less(c, best) {
              bi, bj, best := i, j, c;
            }
          }
          j := j + 1;
        }
        NextRow(g, nodes, m, bi, bj, best, i);
        i := i + 1;
      }
      SearchedAll(g, nodes, m, bi, bj, best);
    }

    /** One round of the generator's loop: connects the best pair and takes the new minimum. On a
        complete mesh there is no pair to choose, and entry (0, 0) is set. */
    method GreedyAdvance(m: nat) returns (i: nat, j: nat, min: Option<nat>)
      requires nodes >= 1 && Valid() && IsMesh(Graph(), nodes)
      modifies conns
      ensures Valid() && Graph() == old(Graph()) + {(i, j)}
      ensures min.None? <==> nodes < 2
      ensures min.Some? ==> IsMinPaths(Graph(), nodes, min.value)
      ensures old(FreePairs(Graph(), nodes)) == {} ==> i == 0 && j == 0
      ensures old(FreePairs(Graph(), nodes)) != {} ==>
                && IsBest(old(Graph()), nodes, m, i, j)
                && IsMesh(Graph(), nodes)
                && FreePairs(Graph(), nodes) < old(FreePairs(Graph(), nodes))
    {
      hide IsMinPaths, IsBest, IsMesh, FreePairs, Edges;
      ghost var g := Graph();
      i, j := BestConnection(m);
      if FreePairs(g, nodes) != {} {
        assert Free(g, nodes, i, j) by { BestIsFree(g, nodes, m, i, j); }
        AddConnection(g, nodes, i, j);
      }
      assert i < nodes && j < nodes;
      Connect(i, j);
      min := MinWithinTwo();
    }
  }

  // ---------------------------------------------------------------- the counting loops

  /** The least number of paths among the pairs before (i, j) in row order. */
  ghost predicate MinBefore(g: MeshGraph.Graph, n: nat, i: nat, j: nat, min: Option<nat>) {
    match min
    case None => forall a: nat, b: nat :: a < b < n ==> !RowBefore(a, b, i, j)
    case Some(m) =>
      && (exists a: nat, b: nat :: a < b < n && Paths(g, n, a, b) == m)
      && (forall a: nat, b: nat :: a < b < n && RowBefore(a, b, i, j) ==> m <= Paths(g, n, a, b))
  }

  /** Moving on over pairs that are no pairs of increasing nodes changes nothing. */
  lemma MinMoves(g: MeshGraph.Graph, n: nat, i: nat, j: nat, k: nat, l: nat, min: Option<nat>)
    requires MinBefore(g, n, i, j, min)
    requires forall a: nat, b: nat :: a < b < n && RowBefore(a, b, k, l) ==> RowBefore(a, b, i, j)
    ensures MinBefore(g, n, k, l, min)
  {
    hide Paths;
  }

  lemma MinStep(g: MeshGraph.Graph, n: nat, i: nat, j: nat, min: Option<nat>)
    requires i < j < n && MinBefore(g, n, i, j, min)
    ensures var c := Paths(g, n, i, j);
            MinBefore(g, n, i, j + 1, if min.None? || c < min.value then Some(c) else min)
  {
    hide Paths;
    var c := Paths(g, n, i, j);
    var next := if min.None? || c < min.value then Some(c) else min;
    forall a: nat, b: nat | a < b < n && RowBefore(a, b, i, j + 1)
      ensures next.value <= Paths(g, n, a, b)
    {
      assert RowBefore(a, b, i, j) || (a == i && b == j);
    }
  }

  lemma MinOfAll(g: MeshGraph.Graph, n: nat, min: Option<nat>)
    requires MinBefore(g, n, n, 0, min)
    ensures min.None? <==> n < 2
    ensures min.Some? ==> IsMinPaths(g, n, min.value)
  {
    if n >= 2 {
      assert 0 < 1 < n && RowBefore(0, 1, n, 0);
    }
    if min.Some? {
      forall a: nat, b: nat | a < n && b < n && a != b
        ensures Paths(g, n, a, b) >= min.value
      {
        PathsSymmetric(g, n, a, b);
        assert RowBefore(a, b, n, 0) && RowBefore(b, a, n, 0);
      }
    }
  }

  ghost function LowBefore(g: MeshGraph.Graph, n: nat, m: nat, i: nat, j: nat): set<(nat, nat)> {
    set e | e in LowPairs(g, n, m) && RowBefore(e.0, e.1, i, j)
  }

  lemma LowRowStart(g: MeshGraph.Graph, n: nat, m: nat, i: nat)
    ensures LowBefore(g, n, m, i, i + 1) == LowBefore(g, n, m, i, 0)
  {
    hide Paths;
  }

  lemma LowRowEnd(g: MeshGraph.Graph, n: nat, m: nat, i: nat, j: nat)
    requires j >= n
    ensures LowBefore(g, n, m, i, j) == LowBefore(g, n, m, i + 1, 0)
  {
    hide Paths;
  }

  lemma LowOfAll(g: MeshGraph.Graph, n: nat, m: nat)
    ensures LowBefore(g, n, m, n, 0) == LowPairs(g, n, m)
  {
    hide Paths;
  }

  lemma LowStep(g: MeshGraph.Graph, n: nat, m: nat, i: nat, j: nat)
    requires i < j < n
    ensures LowBefore(g, n, m, i, j + 1) == LowBefore(g, n, m, i, j) + if Paths(g, n, i, j) <= m then {(i, j)} else {}
    ensures |LowBefore(g, n, m, i, j + 1)| == |LowBefore(g, n, m, i, j)| + if Paths(g, n, i, j) <= m then 1 else 0
  {
    hide Paths;
    assert (i, j) in LowPairs(g, n, m) <==> Paths(g, n, i, j) <= m;
    assert (i, j) !in LowBefore(g, n, m, i, j);
    assert LowBefore(g, n, m, i, j + 1) == LowBefore(g, n, m, i, j) + if Paths(g, n, i, j) <= m then {(i, j)} else {};
  }

  // ---------------------------------------------------------------- the search loop

  /** What the search knows after the pairs before (i, j): nothing was there to choose, or the best of them. */
  ghost predicate SearchedTo(g: MeshGraph.Graph, n: nat, m: nat, bi: nat, bj: nat, best: Score, i: nat, j: nat) {
    || (bi == 0 && bj == 0 && best.degree == 2 * n
        && forall a: nat, b: nat :: RowBefore(a, b, i, j) ==> !Free(g, n, a, b))
    || (best == ScoreOf(g, n, m, bi, bj) && BestBefore(g, n, m, bi, bj, i, j))
  }

  lemma NothingSearched(g: MeshGraph.Graph, n: nat, m: nat, best: Score)
    requires best.degree == 2 * n
    ensures SearchedTo(g, n, m, 0, 0, best, 0, 0)
  {
  }

  lemma SkipPair(g: MeshGraph.Graph, n: nat, m: nat, bi: nat, bj: nat, best: Score, i: nat, j: nat)
    requires SearchedTo(g, n, m, bi, bj, best, i, j) && !Free(g, n, i, j)
    ensures SearchedTo(g, n, m, bi, bj, best, i, j + 1)
  {
    hide ScoreOf;
    assert forall a: nat, b: nat :: RowBefore(a, b, i, j + 1) ==> RowBefore(a, b, i, j) || (a == i && b == j);
  }

  lemma TakePair(g: MeshGraph.Graph, n: nat, m: nat, bi: nat, bj: nat, best: Score, i: nat, j: nat)
    requires IsMesh(g, n) && SearchedTo(g, n, m, bi, bj, best, i, j) && Free(g, n, i, j)
    ensures var c := ScoreOf(g, n, m, i, j);
            if Less(c, best) then SearchedTo(g, n, m, i, j, c, i, j + 1)
            else SearchedTo(g, n, m, bi, bj, best, i, j + 1)
  {
    FreeScoresLow(g, n, m, i, j);
    hide ScoreOf, Free;
    assert forall a: nat, b: nat :: RowBefore(a, b, i, j + 1) ==> RowBefore(a, b, i, j) || (a == i && b == j);
  }

  lemma NextRow(g: MeshGraph.Graph, n: nat, m: nat, bi: nat, bj: nat, best: Score, i: nat)
    requires SearchedTo(g, n, m, bi, bj, best, i, n)
    ensures SearchedTo(g, n, m, bi, bj, best, i + 1, 0)
  {
    hide ScoreOf;
    assert forall a: nat, b: nat :: Free(g, n, a, b) && RowBefore(a, b, i + 1, 0) ==> RowBefore(a, b, i, n);
  }

  lemma SearchedAll(g: MeshGraph.Graph, n: nat, m: nat, bi: nat, bj: nat, best: Score)
    requires SearchedTo(g, n, m, bi, bj, best, n, 0)
    ensures FreePairs(g, n) != {} ==> IsBest(g, n, m, bi, bj)
    ensures FreePairs(g, n) == {} ==> bi == 0 && bj == 0
  {
    hide ScoreOf;
    assert forall a: nat, b: nat :: Free(g, n, a, b) ==> (a, b) in FreePairs(g, n) && RowBefore(a, b, n, 0);
  }

  // ---------------------------------------------------------------- the generator

  /** Connects the best pair again and again until every two nodes have `target` paths. */
  method Generate(n: nat, target: nat) returns (mesh: Mesh, ghost trace: seq<(nat, nat)>)
    requires n >= 2 && target <= n - 1
    ensures mesh.nodes == n && mesh.Valid()
    ensures IsMesh(mesh.Graph(), n) && AtLeast(mesh.Graph(), n, target)
    ensures mesh.Graph() == GraphOf(trace) && GreedyTrace(trace, n, target) && Finished(mesh.Graph(), n, target)
  {
    mesh := new Mesh(n);
    trace := [];
    EmptyMesh(n);
    var minPaths: nat := 0;
    while minPaths < target
      invariant mesh.nodes == n && mesh.Valid() && fresh(mesh) && fresh(mesh.conns)
      invariant IsMesh(mesh.Graph(), n) && IsMinPaths(mesh.Graph(), n, minPaths)
      invariant mesh.Graph() == GraphOf(trace) && GreedyTrace(trace, n, target)
      decreases FreePairs(mesh.Graph(), n)
    {
      hide *;
      ghost var g := mesh.Graph();
      NotComplete(g, n, minPaths);
      var i, j, next := mesh.GreedyAdvance(minPaths);
      TraceStep(trace, n, target, minPaths, i, j);
      trace := trace + [(i, j)];
      minPaths := next.value;
    }
    MinIsEnough(mesh.Graph(), n, minPaths, target);
  }

  /** Any two nodes that are left are within two hops after the loss of some nodes and connections. */
  ghost predicate Survives(g: MeshGraph.Graph, n: nat, losses: nat) {
    forall dead: set<nat>, cut: MeshGraph.Graph, i: nat, j: nat ::
      |dead| + |cut| <= losses && i < n && j < n && i != j && i !in dead && j !in dead ==>
        WithinTwo(g, n, dead, cut, i, j)
  }

  /** The mesh of a quorum: up to ten nodes it is the greedy one for four paths and survives any three
      losses, with more nodes it is the greedy one for two paths and survives any one. */
  method GenerateQuorum(n: nat) returns (mesh: Mesh, ghost trace: seq<(nat, nat)>)
    requires n >= 5
    ensures mesh.nodes == n && mesh.Valid() && mesh.Graph() == GraphOf(trace) && IsMesh(mesh.Graph(), n)
    ensures n <= 10 ==> GreedyTrace(trace, n, 4) && Finished(mesh.Graph(), n, 4) && Survives(mesh.Graph(), n, 3)
    ensures n > 10 ==> GreedyTrace(trace, n, 2) && Finished(mesh.Graph(), n, 2) && Survives(mesh.Graph(), n, 1)
  {
    hide *;
    var target := MinConnections(n);
    TargetWithinReach(n);
    mesh, trace := Generate(n, target);
    QuorumMeshIs(mesh.Graph(), trace, n);
  }

  /** The target of a quorum is four paths up to ten nodes and two above. */
  lemma QuorumMeshIs(g: MeshGraph.Graph, trace: seq<(nat, nat)>, n: nat)
    requires AtLeast(g, n, MinConnections(n))
    requires GreedyTrace(trace, n, MinConnections(n)) && Finished(g, n, MinConnections(n))
    ensures n <= 10 ==> GreedyTrace(trace, n, 4) && Finished(g, n, 4) && Survives(g, n, 3)
    ensures n > 10 ==> GreedyTrace(trace, n, 2) && Finished(g, n, 2) && Survives(g, n, 1)
  {
    hide AtLeast, GreedyTrace, Finished;
    LossesSurvived(g, n, MinConnections(n));
  }

  lemma LossesSurvived(g: MeshGraph.Graph, n: nat, target: nat)
    requires AtLeast(g, n, target) && target > 0
    ensures Survives(g, n, target - 1)
  {
    hide AtLeast, WithinTwo;
    forall dead: set<nat>, cut: MeshGraph.Graph, i: nat, j: nat |
      |dead| + |cut| <= target - 1 && i < n && j < n && i != j && i !in dead && j !in dead
      ensures WithinTwo(g, n, dead, cut, i, j)
    {
      FaultTolerance(g, n, target, dead, cut, i, j);
    }
  }

  lemma MinIsEnough(g: MeshGraph.Graph, n: nat, m: nat, target: nat)
    requires IsMinPaths(g, n, m) && m >= target
    ensures AtLeast(g, n, target) && Finished(g, n, target)
  {
    hide Paths;
  }

  lemma BestIsFree(g: MeshGraph.Graph, n: nat, m: nat, i: nat, j: nat)
    requires IsBest(g, n, m, i, j)
    ensures Free(g, n, i, j)
  {
  }

  lemma TraceStep(trace: seq<(nat, nat)>, n: nat, target: nat, m: nat, i: nat, j: nat)
    requires GreedyTrace(trace, n, target)
    requires m < target && IsMinPaths(GraphOf(trace), n, m) && IsBest(GraphOf(trace), n, m, i, j)
    ensures GraphOf(trace + [(i, j)]) == GraphOf(trace) + {(i, j)}
    ensures GreedyTrace(trace + [(i, j)], n, target)
  {
    hide IsMinPaths, IsBest;
    var more := trace + [(i, j)];
    assert more[|trace|] == (i, j);
    forall k | 0 <= k < |more|
      ensures GreedyStep(GraphOf(more[..k]), n, target, more[k])
    {
      assert more[..k] == trace[..k];
      assert trace[..|trace|] == trace;
    }
    forall e | e in GraphOf(trace)
      ensures e in GraphOf(more)
    {
      var k :| 0 <= k < |trace| && trace[k] == e;
      assert more[k] == e;
    }
  }

  ghost predicate Distinct(s: seq<nat>) {
    forall a, b :: 0 <= a < b < |s| ==> s[a] != s[b]
  }

  lemma DistinctMore(s: seq<nat>, x: nat)
    requires Distinct(s) && x !in s
    ensures Distinct(s + [x])
  {
  }

  /** How many of some nodes are a given node or connected with it. */
  ghost function CountReaching(g: MeshGraph.Graph, s: seq<nat>, i: nat): nat {
    if s == [] then 0
    else
      var last := s[|s| - 1];
      CountReaching(g, s[..|s| - 1], i) + if last == i || Linked(g, last, i) then 1 else 0
  }

  ghost function Reaching(g: MeshGraph.Graph, s: seq<nat>, i: nat): set<nat> {
    set k: nat | k in s && (k == i || Linked(g, k, i))
  }

  lemma {:induction false} CountIsSize(g: MeshGraph.Graph, s: seq<nat>, i: nat)
    requires Distinct(s)
    ensures CountReaching(g, s, i) == |Reaching(g, s, i)|
  {
    if s == [] {
      assert Reaching(g, s, i) == {};
    } else {
      hide Reaching, Linked;
      CountIsSize(g, s[..|s| - 1], i);
      ReachingMore(g, s[..|s| - 1], s[|s| - 1], i);
      assert s == s[..|s| - 1] + [s[|s| - 1]];
    }
  }

  lemma ReachingMore(g: MeshGraph.Graph, s: seq<nat>, x: nat, i: nat)
    requires x !in s
    ensures |Reaching(g, s + [x], i)| == |Reaching(g, s, i)| + if x == i || Linked(g, x, i) then 1 else 0
  {
    assert x !in Reaching(g, s, i);
    assert Reaching(g, s + [x], i) == Reaching(g, s, i) + if x == i || Linked(g, x, i) then {x} else {};
  }

  /** What is counted: the larger node's neighbours that are the smaller node or connected with it. */
  lemma CountedPaths(g: MeshGraph.Graph, n: nat, lo: nat, hi: nat, neighbours: seq<nat>)
    requires lo < n && hi < n && Distinct(neighbours)
    requires forall k: nat :: k in neighbours <==> k in Neighbours(g, n, hi)
    ensures lo != hi ==> CountReaching(g, neighbours, lo) == Paths(g, n, lo, hi)
    ensures lo == hi ==> CountReaching(g, neighbours, lo) == |Neighbours(g, n, lo)|
  {
    CountIsSize(g, neighbours, lo);
    var counted := Reaching(g, neighbours, lo);
    if lo == hi {
      assert counted == Neighbours(g, n, lo);
    } else {
      assert lo !in Common(g, n, lo, hi);
      assert counted == Common(g, n, lo, hi) + if Linked(g, lo, hi) then {lo} else {};
    }
  }
}
