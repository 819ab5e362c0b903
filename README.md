# Simulated-annealing TSP solver: tour logic

This project models the tour logic of `main.py`, a Travelling Salesman solver. The solver reads an integer cost matrix `graph`, where `graph[i][j]` is the cost of going from vertex `i` to vertex `j`, and searches for a cheap tour by simulated annealing. A tour over `n` vertices is the list `[0, v1, ..., v(n-1), 0]`: it starts and ends at vertex 0 and visits every other vertex once. The starting solution is a tour. The annealing swaps may move either copy of vertex 0, though, so the later solutions need not be tours (see "## Findings").

The model covers these parts of `main.py`:

- `path_to_string` renders a path as text.
- `get_random_initial` and `get_greedy_initial` build the two starting tours.
- `calculate_distance` gives the cost of a solution read as a cycle.
- `switch_neighbour` swaps two positions of a copy.
- `simulated_annealing` is the driver.

Each function that works by looping is a Dafny method with a loop. Its loop invariants relate its state to a recursive specification function, and lemmas prove properties of those functions.

Randomness is an input:

- `picks[i]` is the index `random.choice` takes in the to-visit list at step `i`.
- `moves[i]` holds the two distinct positions `random.sample` yields in iteration `i`.
- `chances[i]` is the outcome of the probabilistic acceptance test in iteration `i`.

Every result therefore holds for all possible random outcomes.

The files:

- `Tours.dfy` holds the cost matrix, path and cycle costs, `range` and `list.remove`.
- `InitialTours.dfy` holds the two constructors.
- `Annealing.dfy` holds `calculate_distance`, `switch_neighbour` and `simulated_annealing`, as written and corrected.
- `PathFormat.dfy` holds `path_to_string` and a parser that reads its text back.

The model follows the code where the two could differ:

- `delta` is measured against the fixed cost of the initial tour (main.py:158), as the code does, not against the current tour's cost.
- The loop runs exactly `iterations` times. There are no epochs and no temperature floor.
- The best-update test is modelled as written, and also in a corrected form (see "## Findings").
- A best-ever tour whose cost never goes up is what the driver should keep. The code as written does not keep one (main.py:163).

## Model

| member | source | states |
|---|---|---|
| Tours.CycleCostRotation | main.py:131-140 | calculate_distance reads the list as a cycle: rotating the list does not change its cost |
| Tours.ClosedCycleCost | main.py:131-140 | on a closed list [0, ..., 0] the cycle cost is the path cost plus graph[0][0] |
| Tours.CycleCostNonNegative | main.py:131-140 | with no negative entry in the matrix no solution costs less than 0 |
| Tours.PathCostAppend | main.py:98-99 | appending a vertex to the path adds exactly the edge from the previous vertex to the path cost |
| Tours.IotaMembers | main.py:95 | range(1, n) holds exactly the vertices 1 .. n-1 |
| Tours.IotaIncreasing | main.py:116 | the to-visit list starts in increasing order |
| Tours.RemoveFirstMultiset | main.py:100 | list.remove takes exactly one occurrence of the vertex out of the list |
| Tours.RemoveFirstAt | main.py:124 | in an increasing list, removing the value at index c removes index c and keeps the order of the rest |
| Tours.TourVerticesBelow | main.py:92-103 | every vertex of a tour indexes the matrix |
| InitialTours.PickedPermutation | main.py:96-100 | after any number of random choices, the vertices chosen and those still to visit together are exactly 1 .. n-1 |
| InitialTours.RandomTour | main.py:92-103 | whatever the choices, the path built is a tour: length n+1, 0 at both ends, inner positions a permutation of 1 .. n-1 |
| InitialTours.RandomStep | main.py:97-101 | one choice moves the picked vertex from the to-visit list to the path and adds its edge to the cost |
| InitialTours.RandomClose | main.py:102-103 | closing the path back to 0 gives the tour the choices describe and adds the closing edge |
| InitialTours.RandomInitial | main.py:86-104 | returns the tour the choices describe, every vertex in range, and a cost equal to the sum of its edges; its cycle cost is that cost plus graph[0][0] |
| InitialTours.NearestUnvisited | main.py:118-121 | the vertex chosen is in the to-visit list and beats every other one: a strictly cheaper edge from k, or an equal edge and a smaller vertex |
| InitialTours.GreedyStep | main.py:118-125 | one greedy move keeps the path and the to-visit list a split of 1 .. n-1, keeps the to-visit list increasing, keeps every earlier choice preferred, and adds the edge to the cost |
| InitialTours.GreedyClose | main.py:126-127 | closing the greedy path gives a tour whose cost adds the closing edge |
| InitialTours.GreedyInitial | main.py:107-128 | returns a tour with cost equal to the sum of its edges, in which every vertex was preferred from its predecessor over every vertex placed after it |
| Annealing.CalculateDistance | main.py:131-140 | the loop sums every edge between consecutive elements plus the edge from the last back to the first (0 for the empty list) |
| Annealing.SwapExchanges | main.py:146 | the neighbour exchanges positions x and y and leaves every other position unchanged |
| Annealing.SwapPermutes | main.py:146 | the neighbour has the same multiset of vertices |
| Annealing.SwapTwice | main.py:143-147 | swapping the same two positions again gives back the original list |
| Annealing.SwitchNeighbour | main.py:143-147 | the copy with positions x and y exchanged; the input list is a value and cannot change |
| Annealing.SolutionAfterNext | main.py:154-162 | an iteration keeps the swapped tour exactly when delta < 0 or the chance test passes |
| Annealing.InnerSwapKeepsTour | main.py:145-146 | a swap of two positions strictly between the ends turns a tour into a tour |
| Annealing.InnerSwapsKeepTour | main.py:151-162 | corrected sampling: when every swap stays off both ends, the current solution is a tour after any number of iterations, whatever the chances |
| Annealing.EndpointSwapLeavesTours | main.py:145 | as written: on a 3-vertex run one accepted swap of positions 2 and 3 gives [0, 1, 0, 2], not a tour, costing 4 against 102 for either tour, and the corrected best-update test returns it |
| Annealing.NoInnerMovesBelowThree | main.py:145 | with two vertices or fewer, once an iteration runs, not every swap position drawn from range(n+1) can lie strictly between the ends |
| Annealing.TwoVertexTour | main.py:92-103 | the only tour over two vertices is [0, 1, 0] |
| Annealing.TwoVertexEndpointSwap | main.py:145-146 | as written, swapping positions 0 and 1 of the two-vertex tour gives [1, 0, 0], which is not a tour |
| Annealing.SolutionAfterPermutes | main.py:151-162 | for any moves and chances, the current solution after any number of iterations is a rearrangement of the initial tour |
| Annealing.BestAtNext | main.py:156-164 | as written, the current solution becomes the best exactly when the initial cost is below the best's cycle cost |
| Annealing.BestAtStuck | main.py:163-164 | when the initial tour's cycle cost does not exceed the reference, the best is never replaced |
| Annealing.RandomTourNeverReplaced | main.py:151-164 | with graph[0][0] <= 0, simulated_annealing as written keeps the random initial tour as its best whatever the moves and chances |
| Annealing.ReplacementTestMissesCheaperTour | main.py:163-164 | on a 3-vertex run the code as written returns a tour of cost 30 although it holds one of cost 3; the corrected test returns the one of cost 3 |
| Annealing.TrackedBestAtNext | main.py:163-164 | corrected: the current solution becomes the best exactly when it is strictly cheaper than the best |
| Annealing.TrackedBestAtMinimal | main.py:163-164 | corrected: no solution visited so far costs less than the best |
| Annealing.TrackedBestAtFirst | main.py:163-164 | corrected: the best is the first cheapest solution visited; every earlier one costs strictly more |
| Annealing.TrackedBestCostNonIncreasing | main.py:163-164 | corrected: the best cost never goes up from one iteration to a later one |
| Annealing.ProgressStep | main.py:153-165 | one iteration as written keeps the current solution and the best equal to their specification functions and every vertex of both in range |
| Annealing.TrackedProgressStep | main.py:153-165 | one iteration of the corrected loop keeps the current solution and the best equal to their specification functions and every vertex of both in range |
| Annealing.SimulatedAnnealing | main.py:150-166 | runs exactly `iterations` iterations and returns the best solution as written with its cycle cost; that solution is a rearrangement of the random initial tour, and a tour when no swap touches either end |
| Annealing.SimulatedAnnealingTrackingBest | main.py:150-166 | the corrected loop: returns the first cheapest solution visited with its cycle cost; that solution is a rearrangement of the random initial tour, and a tour when no swap touches either end |
| PathFormat.IntTextRoundTrip | main.py:80 | the text f"{el}" gives for an integer reads back as that integer and holds no space |
| PathFormat.BuiltNext | main.py:79-80 | each element appends its text and one space |
| PathFormat.BuiltClose | main.py:81-82 | dropping the last character and adding "]" gives the elements separated by single spaces inside brackets, or "]" for the empty path |
| PathFormat.PathToString | main.py:70-83 | the loop returns "[" then the elements separated by single spaces then "]", with no trailing space; "]" for the empty list |
| PathFormat.PathTextRoundTrip | main.py:70-83 | every non-empty path is read back exactly from its text |
| PathFormat.EmptyPathText | main.py:81-82 | the empty path's text is "]", which does not read back as a path |
| PathFormat.BracketedTextRoundTrip | main.py:70-83 | corrected format "[]" for the empty path: every path, empty or not, is read back exactly |

## Left out

- Reading the test data and the ini file, creating and appending to output files, timing, printing and `main` (main.py:8-67, 169-205) are I/O and are not modelled.
- The acceptance probability `math.exp(-delta / temp)` and the cooling step `temp *= (1 - cooling_rate)` (main.py:161, 165) are floating-point arithmetic. The outcome of the probabilistic test is the input `chances[i]`, so temperature and cooling rate do not appear. A free `chances[i]` allows more runs than Python can produce, so every all-inputs result still holds. Python differs in three ways. When `delta == 0` the test always passes, since `math.exp(0)` is 1. When `temp == 0` it raises ZeroDivisionError. When `temp < 0` it can raise OverflowError.
- The distributions of `random.choice`, `random.sample` and `random.random` are not modelled. Their outcomes are the inputs `picks` and `moves`, constrained to what those calls can return, and `chances`, left free.
- Python fails with IndexError on an empty matrix, and on a non-square matrix when it reads a missing entry. The methods require a square matrix with at least one vertex and in-range vertices. The cost functions are total (`Edge` reads 0 outside the matrix) only so that their definitions carry no range conditions.
- Lists are values: every list `simulated_annealing` keeps is a fresh copy (`[:]`), so no aliasing is modelled. `switch_neighbour`'s swap on its copy is done in place on an array.
- The cost-ratio assertion and rounding in `main` (main.py:193-195) are float reporting and are not modelled.

## Findings

| source | as written | input that shows it | evidently intended | confidence | as-written member | corrected member |
|---|---|---|---|---|---|---|
| main.py:163 | `if random_solution_distance < best_distance:` compares the fixed initial path cost with the best tour's cost. With graph[0][0] <= 0 the best tour is never replaced. Otherwise the current tour replaces the best whenever the initial path cost is below the best's cycle cost (`Annealing.BestAtNext`), whether or not the current tour is cheaper | graph [[0,1,10],[10,0,1],[1,10,0]], random choices giving [0,2,1,0] (cost 30), one iteration swapping positions 1 and 2 into [0,1,2,0] (cost 3, accepted): the tour returned costs 30 | replace the best when the current solution costs less than it, `calculate_distance(solution, graph) < best_distance` | high; not executed | Annealing.ReplacementTestMissesCheaperTour | Annealing.TrackedBestAtMinimal |
| main.py:81 | `output = output[0:-1]` also removes the opening bracket when the path is empty | the empty list: the result is "]" | "[]" for the empty list | low (path_to_string is not called anywhere in main.py); not executed | PathFormat.EmptyPathText | PathFormat.BracketedTextRoundTrip |
| main.py:145 | `random.sample(range(len(neighbour)), 2)` may pick position 0 or position n, so a swap can move a copy of vertex 0 inside the list and the solution stops being a tour | graph [[0,1,1],[1,0,100],[1,100,0]], random choices giving [0,1,2,0] (cost 102), one iteration swapping positions 2 and 3 into [0,1,0,2] (cost 4, accepted): the solution kept and, with the corrected best-update test, the one returned is not a tour and is cheaper than every tour | sample only the inner positions, `random.sample(range(1, len(neighbour) - 1), 2)`, when len(graph) >= 3; with fewer vertices there is a single tour (`Annealing.TwoVertexTour`), so skip the swap | medium; not executed | Annealing.EndpointSwapLeavesTours | Annealing.InnerSwapsKeepTour |

For the best-update test:

- The as-written loop is `Annealing.SimulatedAnnealing`. `Annealing.RandomTourNeverReplaced` proves that it always returns the random initial tour when `graph[0][0] <= 0`, which holds for every matrix with a zero diagonal.
- The corrected loop is `Annealing.SimulatedAnnealingTrackingBest`. It returns the first cheapest solution visited (`Annealing.TrackedBestAtMinimal`, `Annealing.TrackedBestAtFirst`), and its best cost never increases (`Annealing.TrackedBestCostNonIncreasing`).

For the swap positions:

- `Annealing.EndpointSwapLeavesTours` shows a run of the code as written on which the current solution stops being a tour.
- `Annealing.InnerSwapsKeepTour` proves that every solution visited is a tour when each swap stays off both ends. The two annealing methods use it to guarantee that their result is a tour under that condition. Without the condition they guarantee a rearrangement of the initial tour.
- The tour guarantee covers graphs of at least three vertices, and graphs of one or two vertices only when no iteration runs. With two vertices or fewer, no swap of an iteration can stay off both ends (`Annealing.NoInnerMovesBelowThree`). With two vertices, the swap of positions 0 and 1 turns the only tour, [0, 1, 0], into [1, 0, 0] (`Annealing.TwoVertexEndpointSwap`).
