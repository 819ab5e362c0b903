/** The two starting tours: one built from arbitrary choices, one built greedily. */
module InitialTours {
  import opened Tours

  /**
   * The choices random.choice makes: picks[i] is an index into the list of
   * vertices still to visit at step i, which by then holds m - i vertices.
   */
  predicate ValidPicks(m: nat, picks: seq<nat>)
  {
    |picks| <= m && forall i :: 0 <= i < |picks| ==> picks[i] < m - i
  }

  /** The to-visit list after the first i picks, each picked vertex removed with list.remove. */
  function Remaining(toVisit: seq<nat>, picks: seq<nat>, i: nat): (r: seq<nat>)
    requires ValidPicks(|toVisit|, picks) && i <= |picks|
    ensures |r| == |toVisit| - i
  {
    if i == 0 then toVisit
    else
      var rest := Remaining(toVisit, picks, i - 1);
      RemoveFirst(rest, rest[picks[i - 1]])
  }

  /** The vertex the i-th pick selects. */
  function PickAt(toVisit: seq<nat>, picks: seq<nat>, i: nat): (v: nat)
    requires ValidPicks(|toVisit|, picks) && i < |picks|
  {
    var rest := Remaining(toVisit, picks, i);
    rest[picks[i]]
  }

  /** The vertices the first i picks select, in the order they are selected. */
  function Picked(toVisit: seq<nat>, picks: seq<nat>, i: nat): (r: seq<nat>)
    requires ValidPicks(|toVisit|, picks) && i <= |picks|
    ensures |r| == i
  {
    if i == 0 then [] else Picked(toVisit, picks, i - 1) + [PickAt(toVisit, picks, i - 1)]
  }

  /** Every vertex of the to-visit list is either already picked or still to visit, exactly once. */
  lemma {:induction false} PickedPermutation(toVisit: seq<nat>, picks: seq<nat>, i: nat)
    requires ValidPicks(|toVisit|, picks) && i <= |picks|
    ensures multiset(Picked(toVisit, picks, i)) + multiset(Remaining(toVisit, picks, i)) == multiset(toVisit)
  {
    if i > 0 {
      PickedPermutation(toVisit, picks, i - 1);
      var rest := Remaining(toVisit, picks, i - 1);
      var v := rest[picks[i - 1]];
      var before := Picked(toVisit, picks, i - 1);
      assert Picked(toVisit, picks, i) == before + [v];
      assert Remaining(toVisit, picks, i) == RemoveFirst(rest, v);
      RemoveFirstMultiset(rest, v);
      assert v in multiset(rest);
      assert multiset(before + [v]) == multiset(before) + multiset{v};
    }
  }

  /** The tour get_random_initial builds from the picks. */
  function RandomTour(n: nat, picks: seq<nat>): (r: seq<nat>)
    requires n >= 1 && |picks| == n - 1 && ValidPicks(n - 1, picks)
    ensures IsTour(n, r)
  {
    var all := Iota(1, n);
    PickedPermutation(all, picks, n - 1);
    var r := [0] + Picked(all, picks, n - 1) + [0];
    assert r[1..n] == Picked(all, picks, n - 1);
    r
  }

  function IndexOf(s: seq<nat>, x: nat): (c: nat)
    requires x in s
    ensures c < |s| && s[c] == x
  {
    if s[0] == x then 0 else 1 + IndexOf(s[1..], x)
  }

  /** From vertex u, going to v is strictly cheaper than going to w, or as cheap with v the smaller vertex. */
  predicate Prefers(g: Matrix, u: nat, v: nat, w: nat)
  {
    Edge(g, u, v) < Edge(g, u, w) || (Edge(g, u, v) == Edge(g, u, w) && v < w)
  }

  /**
   * The state get_random_initial keeps after i choices: the to-visit list and
   * the path are what the first i picks make of them.
   */
  ghost predicate RandomState(g: Matrix, picks: seq<nat>, i: nat, toVisit: seq<nat>, path: seq<nat>)
  {
    && |g| >= 1 && ValidPicks(|g| - 1, picks) && i <= |picks|
    && toVisit == Remaining(Iota(1, |g|), picks, i)
    && path == [0] + Picked(Iota(1, |g|), picks, i)
    && InRange(g, path) && InRange(g, toVisit)
  }

  /** get_random_initial starts at 0 with every other vertex to visit. */
  lemma RandomStart(g: Matrix, picks: seq<nat>)
    requires |g| >= 1 && ValidPicks(|g| - 1, picks)
    ensures RandomState(g, picks, 0, Iota(1, |g|), [0])
  {
    IotaAt(1, |g|);
  }

  /** One choice of get_random_initial keeps the state and adds one edge to the cost. */
  lemma RandomStep(g: Matrix, picks: seq<nat>, i: nat, toVisit: seq<nat>, path: seq<nat>,
                   vertex: nat, nextI: nat, nextToVisit: seq<nat>, nextPath: seq<nat>)
    requires RandomState(g, picks, i, toVisit, path) && i < |picks| && nextI == i + 1
    requires picks[i] < |toVisit| && vertex == toVisit[picks[i]]
    requires nextToVisit == RemoveFirst(toVisit, vertex) && nextPath == path + [vertex]
    ensures RandomState(g, picks, nextI, nextToVisit, nextPath)
    ensures PathCost(g, nextPath) == PathCost(g, path) + Edge(g, path[|path| - 1], vertex)
  {
    var all := Iota(1, |g|);
    assert vertex == PickAt(all, picks, i);
    assert nextToVisit == Remaining(all, picks, i + 1);
    assert nextPath == [0] + Picked(all, picks, i + 1) by {
      assert nextPath == [0] + (Picked(all, picks, i) + [vertex]);
    }
    InRangeRemove(g, toVisit, vertex);
    assert RandomState(g, picks, i + 1, nextToVisit, nextPath);
    PathCostAppend(g, path, vertex);
  }

  /** After the last choice, closing the path back to 0 gives the tour the picks describe. */
  lemma RandomClose(g: Matrix, picks: seq<nat>, toVisit: seq<nat>, path: seq<nat>)
    requires |g| >= 1 && RandomState(g, picks, |g| - 1, toVisit, path) && |picks| == |g| - 1
    ensures path + [0] == RandomTour(|g|, picks) && InRange(g, path + [0])
    ensures PathCost(g, path + [0]) == PathCost(g, path) + Edge(g, path[|path| - 1], 0)
  {
    PathCostAppend(g, path, 0);
  }

  /**
   * get_random_initial with its random.choice calls replaced by the picks:
   * it builds the tour [0, ..., 0] and the cost of its edges.
   */
  method RandomInitial(g: Matrix, picks: seq<nat>) returns (cost: int, path: seq<nat>)
    requires IsSquare(g) && |g| >= 1
    requires |picks| == |g| - 1 && ValidPicks(|g| - 1, picks)
    ensures path == RandomTour(|g|, picks)
    ensures IsTour(|g|, path) && InRange(g, path)
    ensures cost == PathCost(g, path)
    ensures CycleCost(g, path) == cost + g[0][0]
  {
    var n := |g|;
    cost := 0;
    path := [0];
    var vertex := 0;
    var k := 0;
    var toVisit := Iota(1, n);
    RandomStart(g, picks);
    var i := 0;
    while i < n - 1
      invariant 0 <= i <= n - 1
      invariant RandomState(g, picks, i, toVisit, path)
      invariant k == vertex == path[|path| - 1]
      invariant cost == PathCost(g, path)
    {
      ghost var previous, previousToVisit, previousPath := i, toVisit, path;
      vertex := toVisit[picks[i]];
      cost := cost + g[k][vertex];
      path := path + [vertex];
      toVisit := RemoveFirst(toVisit, vertex);
      k := vertex;
      i := i + 1;
      RandomStep(g, picks, previous, previousToVisit, previousPath, vertex, i, toVisit, path);
    }
    RandomClose(g, picks, toVisit, path);
    cost := cost + g[vertex][0];
    path := path + [0];
  }

  /**
   * The vertex get_greedy_initial moves to from k: the first vertex of the
   * to-visit list with the cheapest edge from k.
   */
  method NearestUnvisited(g: Matrix, k: nat, toVisit: seq<nat>) returns (vertex: nat)
    requires IsSquare(g) && k < |g| && InRange(g, toVisit)
    requires |toVisit| > 0 && Increasing(toVisit)
    ensures vertex in toVisit
    ensures forall j :: 0 <= j < |toVisit| && toVisit[j] != vertex ==> Prefers(g, k, vertex, toVisit[j])
  {
    vertex := toVisit[0];
    ghost var at := 0;
    var j := 0;
    while j < |toVisit|
      invariant 0 <= j <= |toVisit|
      invariant at < |toVisit| && vertex == toVisit[at] && (at < j || at == 0)
      invariant forall m :: 0 <= m < j ==> g[k][vertex] <= g[k][toVisit[m]]
      invariant forall m :: 0 <= m < at ==> g[k][vertex] < g[k][toVisit[m]]
    {
      var el := toVisit[j];
      if g[k][vertex] > g[k][el] {
        vertex := el;
        at := j;
      }
      j := j + 1;
    }
  }

  /** The vertex at position a of the path was preferred to w from the vertex before it. */
  predicate ChosenOver(g: Matrix, path: seq<nat>, a: nat, w: nat)
    requires 1 <= a < |path|
  {
    Prefers(g, path[a - 1], path[a], w)
  }

  /**
   * Every vertex placed so far was preferred, from its predecessor, to every
   * vertex placed after it and to every vertex still to visit.
   */
  ghost predicate GreedySoFar(g: Matrix, path: seq<nat>, toVisit: seq<nat>)
  {
    && (forall a, b :: 1 <= a < b < |path| ==> ChosenOver(g, path, a, path[b]))
    && (forall a, m :: 1 <= a < |path| && 0 <= m < |toVisit| ==> ChosenOver(g, path, a, toVisit[m]))
  }

  /** Moving to the preferred vertex at index c keeps the greedy invariant. */
  lemma GreedyExtend(g: Matrix, path: seq<nat>, toVisit: seq<nat>, c: nat)
    requires IsSquare(g) && InRange(g, path) && InRange(g, toVisit) && |path| >= 1
    requires Increasing(toVisit) && c < |toVisit| && GreedySoFar(g, path, toVisit)
    requires forall j :: 0 <= j < |toVisit| && j != c ==> Prefers(g, path[|path| - 1], toVisit[c], toVisit[j])
    ensures InRange(g, path + [toVisit[c]]) && InRange(g, toVisit[..c] + toVisit[c + 1..])
    ensures GreedySoFar(g, path + [toVisit[c]], toVisit[..c] + toVisit[c + 1..])
  {
    var p := path + [toVisit[c]];
    var rest := toVisit[..c] + toVisit[c + 1..];
    forall a, b | 1 <= a < b < |p|
      ensures ChosenOver(g, p, a, p[b])
    {
      assert p[a - 1] == path[a - 1] && p[a] == path[a];
      if b < |path| {
        assert ChosenOver(g, path, a, path[b]);
      } else {
        assert ChosenOver(g, path, a, toVisit[c]);
      }
    }
    forall a, m | 1 <= a < |p| && 0 <= m < |rest|
      ensures ChosenOver(g, p, a, rest[m])
    {
      var j := if m < c then m else m + 1;
      assert rest[m] == toVisit[j] && j != c;
      assert p[a - 1] == path[a - 1];
      if a < |path| {
        assert p[a] == path[a];
        assert ChosenOver(g, path, a, toVisit[j]);
      }
    }
  }

  /** Moving a vertex from the to-visit list to the end of the path keeps their joint multiset. */
  lemma MoveToPath(path: seq<nat>, toVisit: seq<nat>, c: nat)
    requires |path| >= 1 && c < |toVisit|
    ensures multiset((path + [toVisit[c]])[1..]) + multiset(RemoveFirst(toVisit, toVisit[c]))
         == multiset(path[1..]) + multiset(toVisit)
  {
    RemoveFirstMultiset(toVisit, toVisit[c]);
    assert (path + [toVisit[c]])[1..] == path[1..] + [toVisit[c]];
  }

  lemma IncreasingRemove(s: seq<nat>, c: nat)
    requires Increasing(s) && c < |s|
    ensures Increasing(s[..c] + s[c + 1..])
  {
    var r := s[..c] + s[c + 1..];
    assert forall m :: 0 <= m < |r| ==> r[m] == if m < c then s[m] else s[m + 1];
  }

  /** The state get_greedy_initial keeps between two moves. */
  ghost predicate GreedyState(g: Matrix, path: seq<nat>, toVisit: seq<nat>)
    requires IsSquare(g)
  {
    && |path| >= 1 && path[0] == 0
    && InRange(g, path) && InRange(g, toVisit) && Increasing(toVisit)
    && multiset(path[1..]) + multiset(toVisit) == multiset(Iota(1, |g|))
    && GreedySoFar(g, path, toVisit)
  }

  /** get_greedy_initial starts at 0 with every other vertex to visit, in increasing order. */
  lemma GreedyStart(g: Matrix)
    requires IsSquare(g) && |g| >= 1
    ensures GreedyState(g, [0], Iota(1, |g|))
  {
    IotaAt(1, |g|);
    IotaIncreasing(1, |g|);
    assert [0][1..] == [];
  }

  /** One move of get_greedy_initial, to the vertex NearestUnvisited picks, keeps the state. */
  lemma GreedyStep(g: Matrix, path: seq<nat>, toVisit: seq<nat>, vertex: nat)
    requires IsSquare(g) && GreedyState(g, path, toVisit)
    requires vertex in toVisit
    requires forall j :: 0 <= j < |toVisit| && toVisit[j] != vertex ==> Prefers(g, path[|path| - 1], vertex, toVisit[j])
    ensures GreedyState(g, path + [vertex], RemoveFirst(toVisit, vertex))
    ensures PathCost(g, path + [vertex]) == PathCost(g, path) + Edge(g, path[|path| - 1], vertex)
  {
    PathCostAppend(g, path, vertex);
    var c := IndexOf(toVisit, vertex);
    forall j | 0 <= j < |toVisit| && j != c
      ensures Prefers(g, path[|path| - 1], toVisit[c], toVisit[j])
    {
      assert toVisit[j] != vertex;
    }
    GreedyExtend(g, path, toVisit, c);
    RemoveFirstAt(toVisit, c);
    MoveToPath(path, toVisit, c);
    IncreasingRemove(toVisit, c);
  }

  /** Once nothing is left to visit, closing the path back to 0 gives a greedy tour. */
  lemma GreedyClose(g: Matrix, path: seq<nat>)
    requires IsSquare(g) && GreedyState(g, path, []) && |path| == |g|
    ensures IsTour(|g|, path + [0]) && InRange(g, path + [0])
    ensures PathCost(g, path + [0]) == PathCost(g, path) + Edge(g, path[|path| - 1], 0)
    ensures forall i, j :: 1 <= i < j < |g| ==> ChosenOver(g, path + [0], i, (path + [0])[j])
  {
    var n := |g|;
    var closed := path + [0];
    assert InRange(g, closed);
    PathCostAppend(g, path, 0);
    assert closed[1..n] == path[1..];
    TourVerticesBelow(n, closed);
    forall i, j | 1 <= i < j < n
      ensures ChosenOver(g, closed, i, closed[j])
    {
      assert closed[i - 1] == path[i - 1] && closed[i] == path[i] && closed[j] == path[j];
      assert ChosenOver(g, path, i, path[j]);
    }
  }

  /**
   * get_greedy_initial: from 0, repeatedly move to the nearest vertex not yet
   * visited, then close the tour back to 0.
   */
  method GreedyInitial(g: Matrix) returns (cost: int, path: seq<nat>)
    requires IsSquare(g) && |g| >= 1
    ensures IsTour(|g|, path) && InRange(g, path)
    ensures cost == PathCost(g, path)
    ensures CycleCost(g, path) == cost + g[0][0]
    ensures forall i, j :: 1 <= i < j < |g| ==> ChosenOver(g, path, i, path[j])
  {
    var n := |g|;
    cost := 0;
    path := [0];
    var vertex := 0;
    var k := 0;
    var toVisit := Iota(1, n);
    GreedyStart(g);
    var i := 0;
    while i < n - 1
      invariant 0 <= i <= n - 1
      invariant |path| == i + 1 && |toVisit| == n - 1 - i
      invariant k == vertex == path[|path| - 1]
      invariant GreedyState(g, path, toVisit)
      invariant cost == PathCost(g, path)
    {
      vertex := NearestUnvisited(g, k, toVisit);
      GreedyStep(g, path, toVisit, vertex);
      cost := cost + g[k][vertex];
      path := path + [vertex];
      toVisit := RemoveFirst(toVisit, vertex);
      k := vertex;
      i := i + 1;
    }
    GreedyClose(g, path);
    cost := cost + g[vertex][0];
    path := path + [0];
  }
}
