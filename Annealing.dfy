/**
 * The annealing driver: tour evaluation, the swap neighbour move and the
 * loop that accepts or rejects moves while keeping a best tour.
 */
module Annealing {
  import opened Tours
  import opened InitialTours

  /** calculate_distance: the cost of the solution read as a cycle. */
  method CalculateDistance(solution: seq<nat>, g: Matrix) returns (dist: int)
    requires IsSquare(g) && InRange(g, solution)
    ensures dist == CycleCost(g, solution)
  {
    dist := 0;
    var n := |solution|;
    for i := 0 to n
      invariant i < n ==> dist == PathCostTo(g, solution, i)
      invariant i == n ==> dist == CycleCost(g, solution)
    {
      if i != n - 1 {
        dist := dist + g[solution[i]][solution[i + 1]];
      } else {
        dist := dist + g[solution[i]][solution[0]];
      }
    }
  }

  /** The two positions random.sample picks for one swap. */
  datatype Move = Move(x: nat, y: nat)

  /** Two distinct positions of a list of the given length. */
  predicate ValidMove(m: Move, len: nat)
  {
    m.x < len && m.y < len && m.x != m.y
  }

  /** The list with the elements at positions m.x and m.y exchanged. */
  function Swap(s: seq<nat>, m: Move): (r: seq<nat>)
    requires m.x < |s| && m.y < |s|
    ensures |r| == |s|
  {
    s[m.x := s[m.y]][m.y := s[m.x]]
  }

  /** The two positions trade their elements and every other position keeps its own. */
  lemma SwapExchanges(s: seq<nat>, m: Move)
    requires m.x < |s| && m.y < |s|
    ensures Swap(s, m)[m.x] == s[m.y] && Swap(s, m)[m.y] == s[m.x]
    ensures forall i :: 0 <= i < |s| && i != m.x && i != m.y ==> Swap(s, m)[i] == s[i]
  {
  }

  /** A swap only rearranges the list. */
  lemma SwapPermutes(s: seq<nat>, m: Move)
    requires m.x < |s| && m.y < |s|
    ensures multiset(Swap(s, m)) == multiset(s)
  {
  }

  /** Swapping the same two positions again gives the list back. */
  lemma SwapTwice(s: seq<nat>, m: Move)
    requires m.x < |s| && m.y < |s|
    ensures Swap(Swap(s, m), m) == s
  {
    var r := Swap(Swap(s, m), m);
    assert forall i :: 0 <= i < |s| ==> r[i] == s[i];
  }

  /**
   * switch_neighbour with its random.sample call replaced by the positions
   * x != y: a copy of the solution with those two positions exchanged; the
   * solution itself is not changed.
   */
  method SwitchNeighbour(solution: seq<nat>, x: nat, y: nat) returns (neighbour: seq<nat>)
    requires x < |solution| && y < |solution| && x != y
    ensures neighbour == Swap(solution, Move(x, y))
  {
    var copy := new nat[|solution|](i requires 0 <= i < |solution| => solution[i]);
    copy[x], copy[y] := copy[y], copy[x];
    neighbour := copy[..];
  }

  /**
   * The acceptance test: a move that lowers delta is always taken; otherwise
   * the outcome of the probabilistic test decides.
   */
  predicate Accepts(delta: int, chance: bool)
  {
    delta < 0 || chance
  }

  /** Whether every move used by the first k iterations is valid for lists of length len. */
  predicate ValidMoves(moves: seq<Move>, k: nat, len: nat)
  {
    k <= |moves| && forall j :: 0 <= j < k ==> ValidMove(moves[j], len)
  }

  /**
   * The current solution of simulated_annealing after k iterations: each
   * iteration swaps two positions and keeps the swap if it is accepted, delta
   * being measured against the fixed reference cost.
   */
  function SolutionAfter(g: Matrix, init: seq<nat>, reference: int, moves: seq<Move>, chances: seq<bool>, k: nat): (r: seq<nat>)
    requires ValidMoves(moves, k, |init|) && k <= |chances|
    ensures |r| == |init|
    decreases k, 1
  {
    if k == 0 then init else Iteration(g, init, reference, moves, chances, k)
  }

  /** Iteration k (from 1): swap two positions of the solution after k - 1 iterations, keep the swap if it is accepted. */
  function Iteration(g: Matrix, init: seq<nat>, reference: int, moves: seq<Move>, chances: seq<bool>, k: nat): (r: seq<nat>)
    requires 1 <= k && ValidMoves(moves, k, |init|) && k <= |chances|
    ensures |r| == |init|
    decreases k, 0
  {
    var s := SolutionAfter(g, init, reference, moves, chances, k - 1);
    var neighbour := Swap(s, moves[k - 1]);
    if Accepts(CycleCost(g, neighbour) - reference, chances[k - 1]) then neighbour else s
  }

  /** One more iteration: swap, then keep the swap exactly when it is accepted. */
  lemma SolutionAfterNext(g: Matrix, init: seq<nat>, reference: int, moves: seq<Move>, chances: seq<bool>, k: nat, nextK: nat,
                          s: seq<nat>, neighbour: seq<nat>)
    requires nextK == k + 1 && ValidMoves(moves, nextK, |init|) && nextK <= |chances|
    requires s == SolutionAfter(g, init, reference, moves, chances, k)
    requires neighbour == Swap(s, moves[k])
    ensures SolutionAfter(g, init, reference, moves, chances, nextK)
      == if Accepts(CycleCost(g, neighbour) - reference, chances[k]) then neighbour else s
  {
  }

  /** Whatever is accepted, the current solution is a rearrangement of the initial one. */
  lemma {:induction false} SolutionAfterPermutes(g: Matrix, init: seq<nat>, reference: int, moves: seq<Move>, chances: seq<bool>, k: nat)
    requires ValidMoves(moves, k, |init|) && k <= |chances|
    ensures multiset(SolutionAfter(g, init, reference, moves, chances, k)) == multiset(init)
  {
    if k > 0 {
      var s := SolutionAfter(g, init, reference, moves, chances, k - 1);
      SolutionAfterPermutes(g, init, reference, moves, chances, k - 1);
      SwapPermutes(s, moves[k - 1]);
    }
  }

  /**
   * Whether every move of the first k iterations swaps two inner positions of
   * a tour over n vertices, leaving vertex 0 at both ends.
   */
  predicate InnerMoves(moves: seq<Move>, k: nat, n: nat)
  {
    k <= |moves| && forall j :: 0 <= j < k ==> 1 <= moves[j].x < n && 1 <= moves[j].y < n
  }

  /** Swapping two inner positions of a tour gives a tour. */
  lemma InnerSwapKeepsTour(n: nat, s: seq<nat>, m: Move)
    requires IsTour(n, s) && 1 <= m.x < n && 1 <= m.y < n
    ensures IsTour(n, Swap(s, m))
  {
    var inner := Move(m.x - 1, m.y - 1);
    SwapExchanges(s, m);
    assert Swap(s, m)[1..n] == Swap(s[1..n], inner);
    SwapPermutes(s[1..n], inner);
  }

  /** When every swap stays off both ends, the current solution stays a tour. */
  lemma {:induction false} InnerSwapsKeepTour(g: Matrix, init: seq<nat>, reference: int, moves: seq<Move>, chances: seq<bool>, k: nat, n: nat)
    requires ValidMoves(moves, k, |init|) && k <= |chances|
    requires IsTour(n, init) && InnerMoves(moves, k, n)
    ensures IsTour(n, SolutionAfter(g, init, reference, moves, chances, k))
  {
    if k > 0 {
      var s := SolutionAfter(g, init, reference, moves, chances, k - 1);
      InnerSwapsKeepTour(g, init, reference, moves, chances, k - 1, n);
      InnerSwapKeepsTour(n, s, moves[k - 1]);
    }
  }

  /**
   * With at most two vertices a tour has at most one inner position, so once
   * an iteration runs the swaps cannot all stay off both ends.
   */
  lemma NoInnerMovesBelowThree(moves: seq<Move>, k: nat, n: nat)
    requires n <= 2 && k >= 1 && ValidMoves(moves, k, n + 1)
    ensures !InnerMoves(moves, k, n)
  {
    assert ValidMove(moves[0], n + 1);
  }

  /** [0, 1, 0] is the one tour over two vertices. */
  lemma TwoVertexTour(p: seq<nat>)
    ensures IsTour(2, p) <==> p == [0, 1, 0]
  {
    assert Iota(1, 2) == [1] by { IotaAt(1, 2); }
    if IsTour(2, p) {
      assert p[1..2] == [p[1]];
      assert p[1] in multiset(Iota(1, 2));
    }
    if p == [0, 1, 0] {
      assert p[1..2] == [1];
    }
  }

  /** The swap of positions 0 and 1 that the code as written may draw turns the two-vertex tour into a list that is not a tour. */
  lemma TwoVertexEndpointSwap()
    ensures IsTour(2, [0, 1, 0])
    ensures Swap([0, 1, 0], Move(0, 1)) == [1, 0, 0] && !IsTour(2, [1, 0, 0])
  {
    TwoVertexTour([0, 1, 0]);
  }

  /**
   * The index of the first cheapest entry of costs: what a running minimum
   * that is replaced only by a strictly smaller cost ends up pointing at.
   */
  function FirstCheapest(costs: seq<int>): (j: nat)
    requires |costs| >= 1
    ensures j < |costs|
  {
    if |costs| == 1 then 0
    else
      var previous := FirstCheapest(costs[..|costs| - 1]);
      if costs[|costs| - 1] < costs[previous] then |costs| - 1 else previous
  }

  /** One more cost: the running minimum moves to it exactly when it is strictly smaller. */
  lemma FirstCheapestAppend(costs: seq<int>, c: int)
    requires |costs| >= 1
    ensures FirstCheapest(costs + [c]) == if c < costs[FirstCheapest(costs)] then |costs| else FirstCheapest(costs)
  {
    assert (costs + [c])[..|costs|] == costs;
  }

  /** No entry is cheaper than the first cheapest one. */
  lemma {:induction false} FirstCheapestMinimal(costs: seq<int>, j: nat)
    requires j < |costs|
    ensures costs[FirstCheapest(costs)] <= costs[j]
  {
    if |costs| > 1 {
      var front := costs[..|costs| - 1];
      if j < |costs| - 1 {
        FirstCheapestMinimal(front, j);
        assert front[j] == costs[j];
      }
      assert front[FirstCheapest(front)] == costs[FirstCheapest(front)];
    }
  }

  /** Every entry before the first cheapest one is strictly dearer. */
  lemma {:induction false} FirstCheapestFirst(costs: seq<int>, j: nat)
    requires |costs| >= 1 && j < FirstCheapest(costs)
    ensures costs[FirstCheapest(costs)] < costs[j]
  {
    var front := costs[..|costs| - 1];
    var previous := FirstCheapest(front);
    assert front[previous] == costs[previous];
    if FirstCheapest(costs) == previous {
      FirstCheapestFirst(front, j);
      assert front[j] == costs[j];
    } else {
      FirstCheapestMinimal(front, j);
      assert front[j] == costs[j];
    }
  }

  /**
   * The index a best entry ends at when, after each new entry, the latest
   * entry replaces the best one whenever the reference is below the best
   * entry's cost.
   */
  function ReplacedAbove(costs: seq<int>, reference: int): (j: nat)
    requires |costs| >= 1
    ensures j < |costs|
  {
    if |costs| == 1 then 0
    else
      var previous := ReplacedAbove(costs[..|costs| - 1], reference);
      if reference < costs[previous] then |costs| - 1 else previous
  }

  /** One more entry: it becomes the best exactly when the reference is below the current best's cost. */
  lemma ReplacedAboveAppend(costs: seq<int>, reference: int, c: int)
    requires |costs| >= 1
    ensures ReplacedAbove(costs + [c], reference)
      == if reference < costs[ReplacedAbove(costs, reference)] then |costs| else ReplacedAbove(costs, reference)
  {
    assert (costs + [c])[..|costs|] == costs;
  }

  /** When the first entry costs no more than the reference, it is never replaced. */
  lemma {:induction false} ReplacedAboveStuck(costs: seq<int>, reference: int)
    requires |costs| >= 1 && costs[0] <= reference
    ensures ReplacedAbove(costs, reference) == 0
  {
    if |costs| > 1 {
      var front := costs[..|costs| - 1];
      assert front[0] == costs[0];
      ReplacedAboveStuck(front, reference);
    }
  }

  /** The costs of the solutions after 0, 1, ..., k iterations. */
  function Costs(g: Matrix, init: seq<nat>, reference: int, moves: seq<Move>, chances: seq<bool>, k: nat): (costs: seq<int>)
    requires ValidMoves(moves, k, |init|) && k <= |chances|
    ensures |costs| == k + 1
  {
    if k == 0 then [CycleCost(g, init)]
    else Costs(g, init, reference, moves, chances, k - 1) + [CycleCost(g, SolutionAfter(g, init, reference, moves, chances, k))]
  }

  /** One more iteration appends the cost of the new current solution. */
  lemma CostsNext(g: Matrix, init: seq<nat>, reference: int, moves: seq<Move>, chances: seq<bool>, k: nat, nextK: nat)
    requires nextK == k + 1 && ValidMoves(moves, nextK, |init|) && nextK <= |chances|
    ensures Costs(g, init, reference, moves, chances, nextK)
      == Costs(g, init, reference, moves, chances, k) + [CycleCost(g, SolutionAfter(g, init, reference, moves, chances, nextK))]
  {
  }

  /** Entry j of Costs is the cost of the solution after j iterations. */
  lemma {:induction false} CostsAt(g: Matrix, init: seq<nat>, reference: int, moves: seq<Move>, chances: seq<bool>, k: nat, j: nat)
    requires ValidMoves(moves, k, |init|) && k <= |chances| && j <= k
    ensures Costs(g, init, reference, moves, chances, k)[j] == CycleCost(g, SolutionAfter(g, init, reference, moves, chances, j))
  {
    if j < k {
      CostsAt(g, init, reference, moves, chances, k - 1, j);
    }
  }

  /**
   * The iteration whose solution simulated_annealing holds as its best after
   * k iterations, as the code is written: after each iteration the current
   * solution replaces the best one whenever the fixed reference cost is below
   * the best solution's cost. Iteration 0 is the initial solution.
   */
  function BestAt(g: Matrix, init: seq<nat>, reference: int, moves: seq<Move>, chances: seq<bool>, k: nat): (j: nat)
    requires ValidMoves(moves, k, |init|) && k <= |chances|
    ensures j <= k
  {
    ReplacedAbove(Costs(g, init, reference, moves, chances, k), reference)
  }

  /** One more iteration of the replacement test as written. */
  lemma BestAtNext(g: Matrix, init: seq<nat>, reference: int, moves: seq<Move>, chances: seq<bool>, k: nat, nextK: nat, best: seq<nat>)
    requires nextK == k + 1 && ValidMoves(moves, nextK, |init|) && nextK <= |chances|
    requires best == SolutionAfter(g, init, reference, moves, chances, BestAt(g, init, reference, moves, chances, k))
    ensures BestAt(g, init, reference, moves, chances, nextK)
      == if reference < CycleCost(g, best) then nextK else BestAt(g, init, reference, moves, chances, k)
  {
    var costs := Costs(g, init, reference, moves, chances, k);
    var c := CycleCost(g, SolutionAfter(g, init, reference, moves, chances, nextK));
    CostsNext(g, init, reference, moves, chances, k, nextK);
    ReplacedAboveAppend(costs, reference, c);
    CostsAt(g, init, reference, moves, chances, k, ReplacedAbove(costs, reference));
  }

  /**
   * When the initial solution costs no more than the reference, the
   * replacement test never passes and the best solution stays the initial one.
   */
  lemma BestAtStuck(g: Matrix, init: seq<nat>, reference: int, moves: seq<Move>, chances: seq<bool>, k: nat)
    requires ValidMoves(moves, k, |init|) && k <= |chances|
    requires CycleCost(g, init) <= reference
    ensures BestAt(g, init, reference, moves, chances, k) == 0
  {
    CostsAt(g, init, reference, moves, chances, k, 0);
    ReplacedAboveStuck(Costs(g, init, reference, moves, chances, k), reference);
  }

  /**
   * With graph[0][0] <= 0, which holds for every matrix with a zero diagonal,
   * simulated_annealing keeps the random initial tour as its best whatever it
   * visits: the reference is that tour's path cost, which its cycle cost does
   * not exceed.
   */
  lemma RandomTourNeverReplaced(g: Matrix, picks: seq<nat>, moves: seq<Move>, chances: seq<bool>, k: nat)
    requires IsSquare(g) && |g| >= 1 && g[0][0] <= 0
    requires |picks| == |g| - 1 && ValidPicks(|g| - 1, picks)
    requires ValidMoves(moves, k, |g| + 1) && k <= |chances|
    ensures var init := RandomTour(|g|, picks);
      BestAt(g, init, PathCost(g, init), moves, chances, k) == 0
  {
    var init := RandomTour(|g|, picks);
    ClosedCycleCost(g, init);
    BestAtStuck(g, init, PathCost(g, init), moves, chances, k);
  }

  /**
   * The iteration whose solution is the best after k iterations when the
   * replacement test compares the current solution's cost with the best
   * solution's cost: the first cheapest solution visited.
   */
  function TrackedBestAt(g: Matrix, init: seq<nat>, reference: int, moves: seq<Move>, chances: seq<bool>, k: nat): (j: nat)
    requires ValidMoves(moves, k, |init|) && k <= |chances|
    ensures j <= k
  {
    FirstCheapest(Costs(g, init, reference, moves, chances, k))
  }

  /** One more iteration of the corrected replacement test. */
  lemma TrackedBestAtNext(g: Matrix, init: seq<nat>, reference: int, moves: seq<Move>, chances: seq<bool>, k: nat, nextK: nat,
                          solution: seq<nat>, best: seq<nat>)
    requires nextK == k + 1 && ValidMoves(moves, nextK, |init|) && nextK <= |chances|
    requires solution == SolutionAfter(g, init, reference, moves, chances, nextK)
    requires best == SolutionAfter(g, init, reference, moves, chances, TrackedBestAt(g, init, reference, moves, chances, k))
    ensures TrackedBestAt(g, init, reference, moves, chances, nextK)
      == if CycleCost(g, solution) < CycleCost(g, best) then nextK else TrackedBestAt(g, init, reference, moves, chances, k)
  {
    var costs := Costs(g, init, reference, moves, chances, k);
    CostsNext(g, init, reference, moves, chances, k, nextK);
    FirstCheapestAppend(costs, CycleCost(g, solution));
    CostsAt(g, init, reference, moves, chances, k, FirstCheapest(costs));
  }

  /** No solution the run went through by iteration k costs less than the tracked best one. */
  lemma TrackedBestAtMinimal(g: Matrix, init: seq<nat>, reference: int, moves: seq<Move>, chances: seq<bool>, k: nat, j: nat)
    requires ValidMoves(moves, k, |init|) && k <= |chances| && j <= k
    ensures CycleCost(g, SolutionAfter(g, init, reference, moves, chances, TrackedBestAt(g, init, reference, moves, chances, k)))
      <= CycleCost(g, SolutionAfter(g, init, reference, moves, chances, j))
  {
    var costs := Costs(g, init, reference, moves, chances, k);
    FirstCheapestMinimal(costs, j);
    CostsAt(g, init, reference, moves, chances, k, j);
    CostsAt(g, init, reference, moves, chances, k, FirstCheapest(costs));
  }

  /** Every solution visited before the tracked best one costs strictly more. */
  lemma TrackedBestAtFirst(g: Matrix, init: seq<nat>, reference: int, moves: seq<Move>, chances: seq<bool>, k: nat, j: nat)
    requires ValidMoves(moves, k, |init|) && k <= |chances| && j < TrackedBestAt(g, init, reference, moves, chances, k)
    ensures CycleCost(g, SolutionAfter(g, init, reference, moves, chances, TrackedBestAt(g, init, reference, moves, chances, k)))
      < CycleCost(g, SolutionAfter(g, init, reference, moves, chances, j))
  {
    var costs := Costs(g, init, reference, moves, chances, k);
    FirstCheapestFirst(costs, j);
    CostsAt(g, init, reference, moves, chances, k, j);
    CostsAt(g, init, reference, moves, chances, k, FirstCheapest(costs));
  }

  /** The tracked best cost never goes up from one iteration to a later one. */
  lemma TrackedBestCostNonIncreasing(g: Matrix, init: seq<nat>, reference: int, moves: seq<Move>, chances: seq<bool>, k: nat, m: nat)
    requires ValidMoves(moves, m, |init|) && m <= |chances| && k <= m
    ensures CycleCost(g, SolutionAfter(g, init, reference, moves, chances, TrackedBestAt(g, init, reference, moves, chances, m)))
      <= CycleCost(g, SolutionAfter(g, init, reference, moves, chances, TrackedBestAt(g, init, reference, moves, chances, k)))
  {
    TrackedBestAtMinimal(g, init, reference, moves, chances, m, TrackedBestAt(g, init, reference, moves, chances, k));
  }

  /** What simulated_annealing knows after i iterations, as the code is written. */
  ghost predicate Progress(g: Matrix, init: seq<nat>, reference: int, moves: seq<Move>, chances: seq<bool>,
                           i: nat, solution: seq<nat>, best: seq<nat>, bestAt: nat)
  {
    && ValidMoves(moves, i, |init|) && i <= |chances|
    && solution == SolutionAfter(g, init, reference, moves, chances, i)
    && bestAt == BestAt(g, init, reference, moves, chances, i)
    && best == SolutionAfter(g, init, reference, moves, chances, bestAt)
    && InRange(g, solution) && InRange(g, best)
  }

  /** One iteration of simulated_annealing as written keeps Progress. */
  lemma ProgressStep(g: Matrix, init: seq<nat>, reference: int, moves: seq<Move>, chances: seq<bool>,
                     i: nat, solution: seq<nat>, best: seq<nat>, bestAt: nat, neighbour: seq<nat>, accept: bool, next: seq<nat>,
                     replace: bool, nextBest: seq<nat>, nextBestAt: nat, nextI: nat)
    requires nextI == i + 1 && ValidMoves(moves, nextI, |init|) && nextI <= |chances|
    requires Progress(g, init, reference, moves, chances, i, solution, best, bestAt)
    requires neighbour == Swap(solution, moves[i])
    requires accept == Accepts(CycleCost(g, neighbour) - reference, chances[i])
    requires next == if accept then neighbour else solution
    requires replace == (reference < CycleCost(g, best))
    requires nextBest == (if replace then next else best) && nextBestAt == if replace then i + 1 else bestAt
    ensures Progress(g, init, reference, moves, chances, nextI, next, nextBest, nextBestAt)
  {
    SolutionAfterNext(g, init, reference, moves, chances, i, nextI, solution, neighbour);
    if accept {
      SwapPermutes(solution, moves[i]);
      InRangeOfPermutation(g, solution, neighbour);
    }
    BestAtNext(g, init, reference, moves, chances, i, nextI, best);
  }

  /** What simulated_annealing knows after i iterations when it tracks the cheapest solution. */
  ghost predicate TrackedProgress(g: Matrix, init: seq<nat>, reference: int, moves: seq<Move>, chances: seq<bool>,
                                  i: nat, solution: seq<nat>, best: seq<nat>, bestAt: nat)
  {
    && ValidMoves(moves, i, |init|) && i <= |chances|
    && solution == SolutionAfter(g, init, reference, moves, chances, i)
    && bestAt == TrackedBestAt(g, init, reference, moves, chances, i)
    && best == SolutionAfter(g, init, reference, moves, chances, bestAt)
    && InRange(g, solution) && InRange(g, best)
  }

  /** One iteration with the corrected replacement test keeps TrackedProgress. */
  lemma TrackedProgressStep(g: Matrix, init: seq<nat>, reference: int, moves: seq<Move>, chances: seq<bool>,
                            i: nat, solution: seq<nat>, best: seq<nat>, bestAt: nat, neighbour: seq<nat>, accept: bool, next: seq<nat>,
                            replace: bool, nextBest: seq<nat>, nextBestAt: nat, nextI: nat)
    requires nextI == i + 1 && ValidMoves(moves, nextI, |init|) && nextI <= |chances|
    requires TrackedProgress(g, init, reference, moves, chances, i, solution, best, bestAt)
    requires neighbour == Swap(solution, moves[i])
    requires accept == Accepts(CycleCost(g, neighbour) - reference, chances[i])
    requires next == if accept then neighbour else solution
    requires replace == (CycleCost(g, next) < CycleCost(g, best))
    requires nextBest == (if replace then next else best) && nextBestAt == if replace then i + 1 else bestAt
    ensures TrackedProgress(g, init, reference, moves, chances, nextI, next, nextBest, nextBestAt)
  {
    SolutionAfterNext(g, init, reference, moves, chances, i, nextI, solution, neighbour);
    if accept {
      SwapPermutes(solution, moves[i]);
      InRangeOfPermutation(g, solution, neighbour);
    }
    TrackedBestAtNext(g, init, reference, moves, chances, i, nextI, next, best);
  }

  /**
   * After the last iteration, Progress pins the best tour down in terms of
   * the inputs: a rearrangement of the random initial tour, and a tour when
   * every swap stays off both ends.
   */
  lemma ProgressClose(g: Matrix, picks: seq<nat>, moves: seq<Move>, chances: seq<bool>, iterations: int,
                      init: seq<nat>, reference: int, i: nat, solution: seq<nat>, best: seq<nat>, bestAt: nat)
    requires IsSquare(g) && |g| >= 1 && |picks| == |g| - 1 && ValidPicks(|g| - 1, picks)
    requires init == RandomTour(|g|, picks) && reference == PathCost(g, init) && i == Runs(iterations)
    requires Progress(g, init, reference, moves, chances, i, solution, best, bestAt)
    ensures var init := RandomTour(|g|, picks);
      best == SolutionAfter(g, init, PathCost(g, init), moves, chances, BestAt(g, init, PathCost(g, init), moves, chances, Runs(iterations)))
    ensures InRange(g, best)
    ensures multiset(best) == multiset(RandomTour(|g|, picks))
    ensures InnerMoves(moves, Runs(iterations), |g|) ==> IsTour(|g|, best)
  {
    var k := BestAt(g, init, reference, moves, chances, i);
    SolutionAfterPermutes(g, init, reference, moves, chances, k);
    if InnerMoves(moves, i, |g|) {
      InnerSwapsKeepTour(g, init, reference, moves, chances, k, |g|);
    }
  }

  /**
   * After the last iteration, TrackedProgress pins the best tour down in terms of
   * the inputs: a rearrangement of the random initial tour, and a tour when
   * every swap stays off both ends.
   */
  lemma TrackedProgressClose(g: Matrix, picks: seq<nat>, moves: seq<Move>, chances: seq<bool>, iterations: int,
                      init: seq<nat>, reference: int, i: nat, solution: seq<nat>, best: seq<nat>, bestAt: nat)
    requires IsSquare(g) && |g| >= 1 && |picks| == |g| - 1 && ValidPicks(|g| - 1, picks)
    requires init == RandomTour(|g|, picks) && reference == PathCost(g, init) && i == Runs(iterations)
    requires TrackedProgress(g, init, reference, moves, chances, i, solution, best, bestAt)
    ensures var init := RandomTour(|g|, picks);
      best == SolutionAfter(g, init, PathCost(g, init), moves, chances, TrackedBestAt(g, init, PathCost(g, init), moves, chances, Runs(iterations)))
    ensures InRange(g, best)
    ensures multiset(best) == multiset(RandomTour(|g|, picks))
    ensures InnerMoves(moves, Runs(iterations), |g|) ==> IsTour(|g|, best)
  {
    var k := TrackedBestAt(g, init, reference, moves, chances, i);
    SolutionAfterPermutes(g, init, reference, moves, chances, k);
    if InnerMoves(moves, i, |g|) {
      InnerSwapsKeepTour(g, init, reference, moves, chances, k, |g|);
    }
  }

  /** How many times Python's range(iterations) runs. */
  function Runs(iterations: int): nat
  {
    if iterations < 0 then 0 else iterations
  }

  /**
   * simulated_annealing, with get_random_initial's choices given as picks, the
   * positions of each swap given as moves and the outcome of each
   * probabilistic acceptance test given as chances; temperature and cooling
   * rate only feed that test and are not modelled. The returned tour is the
   * best solution as written, and the returned cost is that tour's cycle cost.
   */
  method SimulatedAnnealing(g: Matrix, picks: seq<nat>, moves: seq<Move>, chances: seq<bool>, iterations: int)
    returns (bestCost: int, best: seq<nat>)
    requires IsSquare(g) && |g| >= 1
    requires |picks| == |g| - 1 && ValidPicks(|g| - 1, picks)
    requires ValidMoves(moves, Runs(iterations), |g| + 1) && Runs(iterations) <= |chances|
    ensures var init := RandomTour(|g|, picks);
      best == SolutionAfter(g, init, PathCost(g, init), moves, chances, BestAt(g, init, PathCost(g, init), moves, chances, Runs(iterations)))
    ensures bestCost == CycleCost(g, best)
    ensures multiset(best) == multiset(RandomTour(|g|, picks))
    ensures InnerMoves(moves, Runs(iterations), |g|) ==> IsTour(|g|, best)
  {
    var randomSolutionDistance, solution := RandomInitial(g, picks);
    ghost var init := solution;
    best := solution;
    ghost var bestAt := 0;
    var i := 0;
    while i < iterations
      invariant 0 <= i <= Runs(iterations)
      invariant Progress(g, init, randomSolutionDistance, moves, chances, i, solution, best, bestAt)
    {
      var newSolution := SwitchNeighbour(solution, moves[i].x, moves[i].y);
      assert Move(moves[i].x, moves[i].y) == moves[i];
      var bestDistance := CalculateDistance(best, g);
      var newDistance := CalculateDistance(newSolution, g);
      var delta := newDistance - randomSolutionDistance;
      ghost var previous, current, previousBest, previousBestAt := i, solution, best, bestAt;
      if delta < 0 || chances[i] {
        solution := newSolution;
      }
      if randomSolutionDistance < bestDistance {
        best := solution;
        bestAt := i + 1;
      }
      i := i + 1;
      ProgressStep(g, init, randomSolutionDistance, moves, chances, previous, current, previousBest, previousBestAt,
                   newSolution, delta < 0 || chances[previous], solution, randomSolutionDistance < bestDistance, best, bestAt, i);
    }
    ProgressClose(g, picks, moves, chances, iterations, init, randomSolutionDistance, i, solution, best, bestAt);
    bestCost := CalculateDistance(best, g);
  }

  /**
   * simulated_annealing with the replacement test comparing the current
   * solution's cost with the best cost, instead of the fixed initial cost.
   */
  method SimulatedAnnealingTrackingBest(g: Matrix, picks: seq<nat>, moves: seq<Move>, chances: seq<bool>, iterations: int)
    returns (bestCost: int, best: seq<nat>)
    requires IsSquare(g) && |g| >= 1
    requires |picks| == |g| - 1 && ValidPicks(|g| - 1, picks)
    requires ValidMoves(moves, Runs(iterations), |g| + 1) && Runs(iterations) <= |chances|
    ensures var init := RandomTour(|g|, picks);
      best == SolutionAfter(g, init, PathCost(g, init), moves, chances, TrackedBestAt(g, init, PathCost(g, init), moves, chances, Runs(iterations)))
    ensures bestCost == CycleCost(g, best)
    ensures multiset(best) == multiset(RandomTour(|g|, picks))
    ensures InnerMoves(moves, Runs(iterations), |g|) ==> IsTour(|g|, best)
  {
    var randomSolutionDistance, solution := RandomInitial(g, picks);
    ghost var init := solution;
    best := solution;
    ghost var bestAt := 0;
    var i := 0;
    while i < iterations
      invariant 0 <= i <= Runs(iterations)
      invariant TrackedProgress(g, init, randomSolutionDistance, moves, chances, i, solution, best, bestAt)
    {
      var newSolution := SwitchNeighbour(solution, moves[i].x, moves[i].y);
      assert Move(moves[i].x, moves[i].y) == moves[i];
      var bestDistance := CalculateDistance(best, g);
      var newDistance := CalculateDistance(newSolution, g);
      var delta := newDistance - randomSolutionDistance;
      ghost var previous, current, previousBest, previousBestAt := i, solution, best, bestAt;
      if delta < 0 || chances[i] {
        solution := newSolution;
      }
      var solutionDistance := CalculateDistance(solution, g);
      if solutionDistance < bestDistance {
        best := solution;
        bestAt := i + 1;
      }
      i := i + 1;
      TrackedProgressStep(g, init, randomSolutionDistance, moves, chances, previous, current, previousBest, previousBestAt,
                          newSolution, delta < 0 || chances[previous], solution, solutionDistance < bestDistance, best, bestAt, i);
    }
    TrackedProgressClose(g, picks, moves, chances, iterations, init, randomSolutionDistance, i, solution, best, bestAt);
    bestCost := CalculateDistance(best, g);
  }

  /*
   * A run on which the replacement test as written misses a cheaper tour:
   * three vertices, the random initial tour [0, 2, 1, 0] costing 30, and one
   * iteration that swaps positions 1 and 2 into [0, 1, 2, 0], costing 3.
   */

  lemma ExampleIota()
    ensures Iota(1, 3) == [1, 2]
  {
    assert Iota(1, 2) == [1];
  }

  lemma ExamplePicked(all: seq<nat>, picks: seq<nat>)
    requires all == [1, 2] && picks == [1, 0]
    ensures Picked(all, picks, 2) == [2, 1]
  {
    assert PickAt(all, picks, 0) == 2;
    assert Remaining(all, picks, 1) == [1];
    assert Picked(all, picks, 1) == [2];
  }

  /** Picking index 1 of [1, 2] and then index 0 of [1] gives the tour [0, 2, 1, 0]. */
  lemma ExampleTour()
    ensures RandomTour(3, [1, 0]) == [0, 2, 1, 0]
  {
    ExampleIota();
    ExamplePicked(Iota(1, 3), [1, 0]);
  }

  lemma ExampleCosts(g: Matrix)
    requires g == [[0, 1, 10], [10, 0, 1], [1, 10, 0]]
    ensures PathCost(g, [0, 2, 1, 0]) == 30 && CycleCost(g, [0, 2, 1, 0]) == 30
    ensures CycleCost(g, [0, 1, 2, 0]) == 3
  {
    var p := [0, 2, 1, 0];
    assert PathCostTo(g, p, 1) == 10;
    assert PathCostTo(g, p, 2) == 20;
    assert PathCostTo(g, p, 3) == 30;
    var q := [0, 1, 2, 0];
    assert PathCostTo(g, q, 1) == 1;
    assert PathCostTo(g, q, 2) == 2;
    assert PathCostTo(g, q, 3) == 3;
  }

  /** The swap is accepted, yet the best stays the initial tour; the corrected test keeps the swapped one. */
  lemma ExampleRun(g: Matrix, init: seq<nat>, reference: int, moves: seq<Move>, chances: seq<bool>)
    requires g == [[0, 1, 10], [10, 0, 1], [1, 10, 0]]
    requires init == [0, 2, 1, 0] && reference == 30 && moves == [Move(1, 2)] && chances == [false]
    ensures SolutionAfter(g, init, reference, moves, chances, 1) == [0, 1, 2, 0]
    ensures BestAt(g, init, reference, moves, chances, 1) == 0
    ensures TrackedBestAt(g, init, reference, moves, chances, 1) == 1
  {
    ExampleCosts(g);
    assert Swap(init, moves[0]) == [0, 1, 2, 0];
    assert Costs(g, init, reference, moves, chances, 1) == [30, 3];
  }

  /**
   * On that run simulated_annealing as written returns a tour of cost 30
   * although the tour it holds after the iteration costs 3; with the
   * corrected test it returns the tour of cost 3.
   */
  lemma ReplacementTestMissesCheaperTour()
    ensures var g: Matrix := [[0, 1, 10], [10, 0, 1], [1, 10, 0]];
      var init := RandomTour(3, [1, 0]);
      var reference := PathCost(g, init);
      var moves := [Move(1, 2)];
      var chances := [false];
      CycleCost(g, SolutionAfter(g, init, reference, moves, chances, BestAt(g, init, reference, moves, chances, Runs(1)))) == 30
      && CycleCost(g, SolutionAfter(g, init, reference, moves, chances, Runs(1))) == 3
      && CycleCost(g, SolutionAfter(g, init, reference, moves, chances, TrackedBestAt(g, init, reference, moves, chances, Runs(1)))) == 3
  {
    var g: Matrix := [[0, 1, 10], [10, 0, 1], [1, 10, 0]];
    ExampleTour();
    ExampleCosts(g);
    ExampleRun(g, [0, 2, 1, 0], 30, [Move(1, 2)], [false]);
  }

  /*
   * A run on which a swap involving an end of the list leaves the tours
   * behind: three vertices, the random initial tour [0, 1, 2, 0] costing 102,
   * and one iteration that swaps positions 2 and 3 into [0, 1, 0, 2], a
   * cycle through vertex 0 twice that never goes from 1 to 2, costing 4.
   */

  lemma InOrderPicked(all: seq<nat>, picks: seq<nat>)
    requires all == [1, 2] && picks == [0, 0]
    ensures Picked(all, picks, 2) == [1, 2]
  {
    assert PickAt(all, picks, 0) == 1;
    assert Remaining(all, picks, 1) == [2];
    assert Picked(all, picks, 1) == [1];
  }

  /** Picking index 0 twice gives the tour [0, 1, 2, 0]. */
  lemma InOrderTour()
    ensures RandomTour(3, [0, 0]) == [0, 1, 2, 0]
  {
    ExampleIota();
    InOrderPicked(Iota(1, 3), [0, 0]);
  }

  lemma DetourCosts(g: Matrix)
    requires g == [[0, 1, 1], [1, 0, 100], [1, 100, 0]]
    ensures PathCost(g, [0, 1, 2, 0]) == 102 && CycleCost(g, [0, 1, 2, 0]) == 102
    ensures CycleCost(g, [0, 2, 1, 0]) == 102
    ensures CycleCost(g, [0, 1, 0, 2]) == 4
  {
    var p := [0, 1, 2, 0];
    assert PathCostTo(g, p, 1) == 1;
    assert PathCostTo(g, p, 2) == 101;
    assert PathCostTo(g, p, 3) == 102;
    var q := [0, 2, 1, 0];
    assert PathCostTo(g, q, 1) == 1;
    assert PathCostTo(g, q, 2) == 101;
    assert PathCostTo(g, q, 3) == 102;
    var r := [0, 1, 0, 2];
    assert PathCostTo(g, r, 1) == 1;
    assert PathCostTo(g, r, 2) == 2;
    assert PathCostTo(g, r, 3) == 3;
  }

  /** The swap of positions 2 and 3 is accepted and its result is the cheapest solution seen. */
  lemma DetourRun(g: Matrix, init: seq<nat>, reference: int, moves: seq<Move>, chances: seq<bool>)
    requires g == [[0, 1, 1], [1, 0, 100], [1, 100, 0]]
    requires init == [0, 1, 2, 0] && reference == 102 && moves == [Move(2, 3)] && chances == [false]
    ensures SolutionAfter(g, init, reference, moves, chances, 1) == [0, 1, 0, 2]
    ensures TrackedBestAt(g, init, reference, moves, chances, 1) == 1
  {
    DetourCosts(g);
    assert Swap(init, moves[0]) == [0, 1, 0, 2];
    assert Costs(g, init, reference, moves, chances, 1) == [102, 4];
  }

  /**
   * On that run the current solution is no longer a tour, and it costs 4,
   * less than either tour over the three vertices (102 each); with the
   * corrected best-update test simulated_annealing returns it as its best.
   */
  lemma EndpointSwapLeavesTours()
    ensures var g: Matrix := [[0, 1, 1], [1, 0, 100], [1, 100, 0]];
      var init := RandomTour(3, [0, 0]);
      var reference := PathCost(g, init);
      var moves := [Move(2, 3)];
      var chances := [false];
      var current := SolutionAfter(g, init, reference, moves, chances, Runs(1));
      && !IsTour(3, current)
      && CycleCost(g, current) == 4
      && CycleCost(g, [0, 1, 2, 0]) == 102 && CycleCost(g, [0, 2, 1, 0]) == 102
      && TrackedBestAt(g, init, reference, moves, chances, Runs(1)) == 1
  {
    var g: Matrix := [[0, 1, 1], [1, 0, 100], [1, 100, 0]];
    InOrderTour();
    DetourCosts(g);
    DetourRun(g, [0, 1, 2, 0], 102, [Move(2, 3)], [false]);
  }
}
