/** Cost matrices, paths and tours, and what a path or a tour costs. */
module Tours {

  /** graph[i][j] is the cost of travelling directly from vertex i to vertex j. */
  type Matrix = seq<seq<int>>

  /** Every row has as many entries as there are rows. */
  predicate IsSquare(g: Matrix)
  {
    forall i :: 0 <= i < |g| ==> |g[i]| == |g|
  }

  predicate NonNegative(g: Matrix)
    requires IsSquare(g)
  {
    forall i, j :: 0 <= i < |g| && 0 <= j < |g| ==> g[i][j] >= 0
  }

  /** Every vertex of p indexes a row (and a column) of g. */
  predicate InRange(g: Matrix, p: seq<nat>)
  {
    forall i :: 0 <= i < |p| ==> p[i] < |g|
  }

  /**
   * graph[u][v] for vertices of the matrix. The cost functions below are
   * total so that their definitions carry no range conditions; the methods
   * that model the Python code demand in-range vertices, as its indexing does.
   */
  function Edge(g: Matrix, u: nat, v: nat): int
  {
    if u < |g| && v < |g[u]| then g[u][v] else 0
  }

  /** The cost of the first k edges of p: the sum of graph[p[i]][p[i+1]] for i < k. */
  function PathCostTo(g: Matrix, p: seq<nat>, k: nat): int
    requires k < |p|
  {
    if k == 0 then 0 else PathCostTo(g, p, k - 1) + Edge(g, p[k - 1], p[k])
  }

  /** The cost of every edge between consecutive elements of p. */
  function PathCost(g: Matrix, p: seq<nat>): int
  {
    if |p| == 0 then 0 else PathCostTo(g, p, |p| - 1)
  }

  /** The cost of s read as a cycle: its path cost plus the edge from its last element back to its first. */
  function CycleCost(g: Matrix, s: seq<nat>): int
  {
    if |s| == 0 then 0 else PathCostTo(g, s, |s| - 1) + Edge(g, s[|s| - 1], s[0])
  }

  /** The first k edges only involve the first k + 1 elements. */
  lemma {:induction false} PathCostToAgree(g: Matrix, p: seq<nat>, q: seq<nat>, k: nat)
    requires k < |p| && k < |q|
    requires forall j :: 0 <= j <= k ==> p[j] == q[j]
    ensures PathCostTo(g, p, k) == PathCostTo(g, q, k)
  {
    if k > 0 {
      PathCostToAgree(g, p, q, k - 1);
    }
  }

  /** Appending v to p adds the edge from the last element of p to v. */
  lemma PathCostAppend(g: Matrix, p: seq<nat>, v: nat)
    requires |p| >= 1
    ensures PathCost(g, p + [v]) == PathCost(g, p) + Edge(g, p[|p| - 1], v)
  {
    PathCostToAgree(g, p, p + [v], |p| - 1);
  }

  /** The same sum, peeling the first edge off instead of the last. */
  lemma {:induction false} PathCostToFirstEdge(g: Matrix, p: seq<nat>, k: nat)
    requires 1 <= k < |p|
    ensures PathCostTo(g, p, k) == Edge(g, p[0], p[1]) + PathCostTo(g, p[1..], k - 1)
  {
    if k > 1 {
      PathCostToFirstEdge(g, p, k - 1);
    }
  }

  /** A cycle costs the same whichever of its vertices the list starts from. */
  lemma CycleCostRotation(g: Matrix, s: seq<nat>)
    requires |s| >= 1
    ensures CycleCost(g, s[1..] + [s[0]]) == CycleCost(g, s)
  {
    var r := s[1..] + [s[0]];
    if |s| >= 2 {
      PathCostToFirstEdge(g, s, |s| - 1);
      PathCostToAgree(g, s[1..], r, |s| - 2);
    } else {
      assert r == s;
    }
  }

  /** With no negative entry, no path through the matrix costs less than nothing. */
  lemma {:induction false} PathCostToNonNegative(g: Matrix, p: seq<nat>, k: nat)
    requires IsSquare(g) && NonNegative(g) && k < |p|
    ensures PathCostTo(g, p, k) >= 0
  {
    if k > 0 {
      PathCostToNonNegative(g, p, k - 1);
    }
  }

  lemma CycleCostNonNegative(g: Matrix, s: seq<nat>)
    requires IsSquare(g) && NonNegative(g)
    ensures CycleCost(g, s) >= 0
  {
    if |s| > 0 {
      PathCostToNonNegative(g, s, |s| - 1);
    }
  }

  /** On a closed list [0, ..., 0] the cycle cost adds the diagonal entry graph[0][0] to the path cost. */
  lemma ClosedCycleCost(g: Matrix, s: seq<nat>)
    requires |s| >= 1 && s[0] == 0 && s[|s| - 1] == 0
    ensures CycleCost(g, s) == PathCost(g, s) + Edge(g, 0, 0)
  {
  }

  /** Vertices keep their bounds under any rearrangement. */
  lemma InRangeOfPermutation(g: Matrix, a: seq<nat>, b: seq<nat>)
    requires InRange(g, a) && multiset(a) == multiset(b)
    ensures InRange(g, b)
  {
    forall i | 0 <= i < |b|
      ensures b[i] < |g|
    {
      assert b[i] in multiset(b);
      assert b[i] in a;
    }
  }

  /** [a, a+1, ..., b-1], what Python's range(a, b) lists. */
  function Iota(a: nat, b: nat): (r: seq<nat>)
    requires a <= b
    ensures |r| == b - a
    decreases b - a
  {
    if a == b then [] else Iota(a, b - 1) + [b - 1]
  }

  /** The i-th element of range(a, b) is a + i. */
  lemma {:induction false} IotaAt(a: nat, b: nat)
    requires a <= b
    ensures forall i :: 0 <= i < b - a ==> Iota(a, b)[i] == a + i
    decreases b - a
  {
    if a < b {
      IotaAt(a, b - 1);
    }
  }

  /** range(a, b) holds exactly the numbers from a up to, not including, b. */
  lemma IotaMembers(a: nat, b: nat)
    requires a <= b
    ensures forall v :: v in Iota(a, b) <==> a <= v < b
  {
    IotaAt(a, b);
    forall v | a <= v < b
      ensures v in Iota(a, b)
    {
      assert Iota(a, b)[v - a] == v;
    }
  }

  /** range(a, b) lists its numbers in increasing order. */
  lemma IotaIncreasing(a: nat, b: nat)
    requires a <= b
    ensures Increasing(Iota(a, b))
  {
    IotaAt(a, b);
  }

  predicate Increasing(s: seq<nat>)
  {
    forall i, j :: 0 <= i < j < |s| ==> s[i] < s[j]
  }

  /** Python's list.remove(x): drop the first occurrence of x. */
  function RemoveFirst(s: seq<nat>, x: nat): (r: seq<nat>)
    requires x in s
    ensures |r| == |s| - 1
    ensures forall v :: v in r ==> v in s
  {
    if s[0] == x then s[1..] else [s[0]] + RemoveFirst(s[1..], x)
  }

  /** Removing an element keeps every remaining vertex in range. */
  lemma InRangeRemove(g: Matrix, s: seq<nat>, x: nat)
    requires InRange(g, s) && x in s
    ensures InRange(g, RemoveFirst(s, x))
  {
    var r := RemoveFirst(s, x);
    forall m | 0 <= m < |r|
      ensures r[m] < |g|
    {
      assert r[m] in s;
    }
  }

  /** Removing x takes exactly one x out of the multiset of elements. */
  lemma {:induction false} RemoveFirstMultiset(s: seq<nat>, x: nat)
    requires x in s
    ensures multiset(RemoveFirst(s, x)) == multiset(s) - multiset{x}
  {
    assert s == [s[0]] + s[1..];
    if s[0] != x {
      RemoveFirstMultiset(s[1..], x);
    }
  }

  /** In an increasing list, removing the value at index c removes index c. */
  lemma {:induction false} RemoveFirstAt(s: seq<nat>, c: nat)
    requires Increasing(s) && c < |s|
    ensures RemoveFirst(s, s[c]) == s[..c] + s[c + 1..]
  {
    if c == 0 {
      assert s[..0] + s[1..] == s[1..];
    } else {
      var t := s[1..];
      assert s[0] < s[c] && t[c - 1] == s[c];
      RemoveFirstAt(t, c - 1);
      assert RemoveFirst(s, s[c]) == [s[0]] + (t[..c - 1] + t[c..]);
      assert [s[0]] + (t[..c - 1] + t[c..]) == s[..c] + s[c + 1..];
    }
  }

  /** A tour over n vertices: [0, ..., 0] of length n+1 whose inner positions rearrange 1..n-1. */
  predicate IsTour(n: nat, p: seq<nat>)
  {
    n >= 1 && |p| == n + 1 && p[0] == 0 && p[n] == 0 && multiset(p[1..n]) == multiset(Iota(1, n))
  }

  /** The vertices of a tour over n vertices are below n. */
  lemma TourVerticesBelow(n: nat, p: seq<nat>)
    requires IsTour(n, p)
    ensures forall i :: 0 <= i < |p| ==> p[i] < n
  {
    forall i | 0 <= i < |p|
      ensures p[i] < n
    {
      if 1 <= i < n {
        assert p[1..n][i - 1] == p[i];
        assert p[i] in multiset(p[1..n]);
        IotaMembers(1, n);
        assert p[i] in Iota(1, n);
      }
    }
  }
}
