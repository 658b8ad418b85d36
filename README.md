# 8-puzzle search engine

A Dafny model of the search engine of an 8-puzzle solver. Two JavaScript
files hold the code: `8puz.js` and `8-puzzle.js`. They share the board
functions and the `Node`/`BoardNode` search tree. `8puz.js` adds a
breadth-first `BFS` whose `solve` returns the moves of the goal node it
finds. `8-puzzle.js` has an `ASTAR` driver (a priority frontier ordered by
`cost()`, the Manhattan heuristic plus the depth) and a `BFS` driver; each
returns `[actions, nodesExpanded, maxSearchDepth]` or `null`, and its
`solve` runs both on one start node.

A board is a sequence of the nine values 0..8, with 0 for the blank. The
goal is `[0, 1, 2, 3, 4, 5, 6, 7, 8]`. The model has these modules:

- `Wrappers`: `Option`, which stands for the source's `null` results.
- `Board` (`board.dfy`): boards, the moves `U`, `D`, `L`, `R` and any other
  label, `validActions`, `transform`, and a replay of a list of moves.
- `Inversions` (`inversions.dfy`): `inversions` as its nested loop, and
  `ifSolvable`. It proves that every move keeps the inversion parity, so a
  board of odd parity can never reach the goal.
- `Heuristic` (`heuristic.dfy`): `translateTo2D`, `manhattanDistance`, and
  the heuristic sum that `cost()` computes.
- `SearchTree` (`searchtree.dfy`): `BoardNode` as a class. Its board, move,
  parent and depth are fixed at construction, and its `nodes` list grows
  through `addNode`/`expand`. The module also has `iterateAncestors`,
  `actions`, `cost`, `isGoal` and `arrayEquals`.
- `Search` (`search.dfy`): the two drivers and the `solve` entry points.

The drivers are loops over a frontier held as a sequence. `BFS` takes the
frontier's head. `ASTAR` takes any node of least `cost()`. Both mark the
popped board explored and stop on the goal. Otherwise they expand the node
and enqueue each child whose board is not explored yet. The search tree is
a set of heap objects that only grows; `Closed` says that every node in it
is well linked and that every child is in it. Each driver also says what
the tree holds after its run (`TreeAfter`): every popped node holds the
children it was expanded into, and a node the run added holds none unless
it was popped. A node of the tree the run started from keeps the children
it had, and a node that was not popped keeps what it held. `expand` does
nothing on a node that already has children, so in `solve` of
`8-puzzle.js` the `BFS` run reuses the children `ASTAR` made, and `Bfs`
states that they are kept. Inside a run, the children are tracked in a
ghost record of each node's child list (`Mirrors`, `Grew`), which is read
back into these statements about the nodes at the end of the run.

## Model

| member | source | states |
|---|---|---|
| Board.IndexOf | 8puz.js:11 | `indexOf`: -1 exactly when the value is absent; otherwise the first position holding it |
| Board.BlankIndex | 8puz.js:11 | on a board, the one and only cell holding the blank |
| Board.ValidActions | 8puz.js:10-31 | between two and four moves, each a recognised label whose swap target lies on the board |
| Board.ValidActionsListing | 8puz.js:14-28 | `U` is listed iff the blank is below the top row, `D` iff above the bottom row, `L` iff not in the left column, `R` iff not in the right column; the moves come in the order U, D, L, R |
| Board.Listing | 8puz.js:14-28 | the four conditional pushes of `validActions` for a blank at index b, in the order U, D, L, R (its properties are the two lemmas below) |
| Board.ListingMembers | 8-puzzle.js:22-43 | the same membership conditions for every blank position 0..8 (the copy in `8-puzzle.js`) |
| Board.ListingOrdered | 8-puzzle.js:26-40 | the listed moves keep the order U, D, L, R |
| Board.Transform | 8puz.js:33-52 | a new board: the blank and the target cell swap and all other cells stay; an unrecognised label returns an equal copy |
| Board.Swap | 8-puzzle.js:45-65 | the destructuring swap: the two cells exchange values and every other cell is unchanged |
| Board.SwapPermutes | 8puz.js:38 | a swap keeps the board's values (a permutation) |
| Board.SwapTwice | 8puz.js:38 | swapping the same two cells twice restores the board |
| Board.RoundTrip | 8puz.js:33-52 | after a valid move the opposite move is valid and undoes it |
| Board.OppositeIsValid | 8puz.js:14-28 | the opposite of a valid move is valid on the board it produces |
| Board.Step | 8puz.js:156-159 | a move applies exactly when `validActions` lists it, and then gives `transform`'s board |
| Board.Replay | 8puz.js:154-164 | replaying a list of moves gives a board, or none when some move is not valid |
| Board.SuccessorsAreBoards | 8puz.js:156-161 | every board one move away is a board |
| Board.ReplayStaysInside | 8puz.js:154-164 | a set of boards closed under moves holds every board that a replay reaches |
| Inversions.Inversions | 8puz.js:54-66 | the nested loop counts exactly the pairs i < j of non-blank values with `state[i] > state[j]` |
| Inversions.InversionCount | 8puz.js:54-66 | the number of index pairs i < j whose two values are both non-blank and out of order (the definition `Inversions` is proved against) |
| Inversions.IsSolvable | 8puz.js:68-70 | `ifSolvable`: the inversion count is even (what it means for reachability is `UnsolvableNeverSolved`) |
| Inversions.TransformKeepsSolvability | 8puz.js:68-70 | every move that `transform` makes keeps the `ifSolvable` verdict |
| Inversions.BlankSwapKeepsCount | 8puz.js:44-47 | a horizontal move keeps the inversion count |
| Inversions.UpKeepsParity | 8puz.js:37-38 | moving the blank up changes the inversion count by an even amount |
| Inversions.DownKeepsParity | 8puz.js:40-41 | moving the blank down keeps the parity |
| Inversions.UpIsLongSwap | 8puz.js:37-38 | moving the blank up exchanges it with the tile three cells before it |
| Inversions.GoalIsSolvable | 8puz.js:68-70 | the goal board has no inversions and is solvable |
| Inversions.IncreasingHasNoInversions | 8puz.js:54-66 | a strictly increasing board has no inversions |
| Inversions.InversionsOfBoard | 8-puzzle.js:67-79 | a board has at most 28 inversions: 8 tiles make 28 pairs |
| Inversions.InversionsAtMostPairs | 8-puzzle.js:70-76 | the count is at most the number of pairs of tiles |
| Inversions.ReplayKeepsSolvability | 8-puzzle.js:81 | every legal path keeps the solvability verdict of its start |
| Inversions.UnsolvableNeverSolved | 8-puzzle.js:81 | no list of moves leads from a board that is not `ifSolvable` to the goal |
| Heuristic.TranslateTo2D | 8puz.js:2-4 | for a non-negative index, the row and column: `index == 3 * row + column` with column in 0..2 |
| Heuristic.ManhattanDistance | 8puz.js:6-8 | never negative, and zero exactly when the two points coincide |
| Heuristic.CellDistance | 8puz.js:144-148 | the grid distance from cell i to the goal cell holding the same value; never negative |
| Heuristic.HeuristicUpTo | 8puz.js:143-149 | the loop's sum over the first n cells: never negative, and zero exactly when each of those cells adds nothing |
| Heuristic.ManhattanSum | 8puz.js:141-149 | the sum over all nine cells: never negative, and zero exactly when every cell adds nothing |
| Heuristic.CellDistanceZero | 8puz.js:144-148 | one cell adds nothing to the sum exactly when it holds its own index |
| Heuristic.ManhattanZeroIffGoal | 8puz.js:140-150 | the heuristic sum is never negative, and is zero on the goal board and on no other |
| Heuristic.BlankMakesItOverestimate | 8-puzzle.js:134-146 | the sum counts the blank, so it overestimates: a board one move from the goal scores 2 |
| SearchTree.ArrayEquals | 8puz.js:188-190 | `arrayEquals` holds exactly when the two boards are equal |
| SearchTree.EveryFrom | 8-puzzle.js:12-16 | `every` from index i on holds exactly when the two suffixes are equal |
| SearchTree.Reverse | 8puz.js:174 | `reverse` keeps the length and puts element k at position n-1-k |
| SearchTree.Labels | 8-puzzle.js:160 | `map((node) => node.action)`: the move labels in order |
| SearchTree.MovesReachChildren | 8puz.js:156-161 | children made one per valid move hold exactly the boards one move away |
| SearchTree.MoveResultsAt | 8puz.js:158-159 | the k-th new board is `transform` of the k-th move |
| SearchTree.BoardNode.constructor | 8puz.js:132-138 | a node keeps the board, move, parent and depth it is given, and has no children |
| SearchTree.BoardNode.AddNode | 8puz.js:114-116 | `addNode` appends the child and changes nothing else |
| SearchTree.BoardNode.Expand | 8puz.js:154-164 | a node without children gets one fresh child per valid move, in order; a node with children keeps them (idempotent); the children's boards are exactly the boards one move away |
| SearchTree.BoardNode.AddChildren | 8puz.js:158-162 | the loop of `expand`: child i has this node as parent, depth + 1, the i-th move and the i-th new board |
| SearchTree.BoardNode.ExpansionOk | 8-puzzle.js:148-158 | children built that way make the node a valid expanded node |
| SearchTree.BoardNode.ChildrenAreSuccessors | 8-puzzle.js:148-158 | the children's boards are exactly the boards one move away |
| SearchTree.BoardNode.Ancestors | 8puz.js:118-128 | the chain has depth + 1 nodes, this node first |
| SearchTree.BoardNode.AncestorChain | 8puz.js:122-125 | each ancestor's parent is the next one, depths fall by one each step, and the last has no parent |
| SearchTree.BoardNode.IterateAncestors | 8puz.js:118-128 | the loop collects exactly the chain from this node up to the root |
| SearchTree.BoardNode.Root | 8-puzzle.js:112-122 | the chain ends at a root: no parent and depth 0 |
| SearchTree.BoardNode.Path | 8puz.js:166-177 | the path from the root has as many moves as the node's depth |
| SearchTree.BoardNode.AncestorLabels | 8puz.js:169-173 | walking up the ancestors meets the path's moves last first, and the root's label is dropped |
| SearchTree.BoardNode.ReplayPath | 8puz.js:166-177 | replaying the path from the root's board rebuilds this node's board |
| SearchTree.BoardNode.Actions | 8puz.js:166-177 | `actions()` returns the path: its length is the depth, the root gives `[]`, and replaying it reaches this node's board |
| SearchTree.BoardNode.MappedActions | 8-puzzle.js:160 | the `map`/`slice(0, -1)`/`reverse` form of `actions` gives the same moves |
| SearchTree.BoardNode.Cost | 8puz.js:140-152 | `cost()` is the heuristic sum plus the depth; it is at least the depth, and equal to it exactly on the goal board |
| SearchTree.BoardNode.IsGoal | 8puz.js:179-181 | `isGoal()` holds exactly when the board is the goal |
| Search.BoardUniverse | 8puz.js:194 | a finite set holds every board, so the explored set cannot grow forever |
| Search.DistinctAppend | 8puz.js:213-217 | enqueuing a board not yet explored keeps the enqueued boards distinct |
| Search.MaxDepth | 8puz.js:218-220 | the greatest depth among the nodes: at least every depth and equal to one of them, 0 for none |
| Search.Mirrors | 8puz.js:107-116 | the record maps each node of the tree to the `nodes` list it holds |
| Search.Snapshot | 8puz.js:107-116 | the record of the lists the nodes hold now, which mirrors the tree |
| Search.AfterExpand | 8puz.js:154-164 | the record once a node holds its children: it now holds them, every other recorded node holds what it held, and a child not recorded before holds none |
| Search.ExpandInTree | 8puz.js:154-164 | `expand` on a node of a closed tree grows the tree by fresh children only, each holding no children, and leaves it closed; a node that already held children keeps them (`expand` is idempotent) |
| Search.MirrorsAfter | 8puz.js:154-164 | after `expand` of one node, the grown tree is mirrored by the record updated for that node alone |
| Search.NewChildren | 8puz.js:213-221 | the children the neighbour loop enqueues, in order: each one whose board is neither explored nor held by an earlier child |
| Search.EnqueueChildren | 8puz.js:213-224 | the loop enqueues exactly `NewChildren` of the children, each once, and marks their boards explored; the enqueued boards stay distinct; `maxSearchDepth` stays the greatest enqueued depth |
| Search.ExpandAndEnqueue | 8puz.js:210-224 | `expand` then the neighbour loop: the node's children are exactly what `expand` makes, one per valid move, and a node that already held children keeps them; what gets enqueued is `NewChildren` of them; the tree stays closed, its new nodes hold no children, and the record of held children changes for this node alone |
| Search.Discovered | 8puz.js:198-225 | the nodes a driver enqueues when its pops expand into the given child lists: the start first, then each expansion's new children in turn |
| Search.Expanded | 8puz.js:210 | each popped node's child list is the one `expand` makes for it |
| Search.TreeAfter | 8puz.js:192-228 | the tree a run leaves: each popped node is in it and holds the non-empty child list it was expanded into, and a node the run added holds none unless it was popped |
| Search.Grew | 8puz.js:154-164 | the same on the record of held children, between the start and the end of a run; a node that held children keeps them, and a node not popped holds what it held before |
| Search.InitialGrew | 8puz.js:198 | before the first pop the record is unchanged |
| Search.GrowStep | 8puz.js:210 | one more pop and `expand`, into the children the node already held if it held any, extends the record |
| Search.ExpandKeeps | 8puz.js:154-164 | a node popped for the first time keeps the children it held before, and they are its expansion: `expand` is idempotent from one pop to the next |
| Search.TreeFromKids | 8puz.js:192-228 | the record read back as the nodes' own lists: the tree satisfies `TreeAfter`, and a node of the starting tree keeps its children when it had some and when it was not popped |
| Search.Traced | 8puz.js:198-225 | the enqueued nodes are exactly those that popping and expanding the popped nodes, in order, discovers |
| Search.InitialTrace | 8puz.js:198 | before the first pop only the start is enqueued |
| Search.DiscoverStep | 8puz.js:210-224 | one more expansion appends its new children to the discovered nodes |
| Search.ExpandStep | 8puz.js:210 | popping and expanding one more node extends the record of expansions |
| Search.InitialSearch | 8puz.js:193-198 | the driver's initial state satisfies the search invariant |
| Search.StartIsGoal | 8puz.js:206-208 | when the start is the goal nothing is expanded and `maxSearchDepth` is 0 |
| Search.PopExplores | 8puz.js:201-202 | after a pop, the explored boards are exactly the enqueued ones |
| Search.ExpansionStep | 8puz.js:210-224 | expanding a popped non-goal node keeps the search invariant, and the explored set grows inside the finite set of boards |
| Search.Exhausted | 8puz.js:227 | once every enqueued node has been popped without meeting the goal, no list of moves leads from the start to the goal |
| Search.Unreachable | 8puz.js:200-227 | the popped boards are closed under moves and hold the start, so the goal is out of reach |
| Search.QueueFront | 8puz.js:201 | the node at the head of the queue was enqueued and is in the tree |
| Search.QueueExpand | 8puz.js:210-224 | expanding the popped node and enqueuing its new children keeps the queue invariant: the popped nodes followed by the frontier are the enqueued nodes in order; the node gets the children `expand` makes, or keeps those it already held, and the enqueued nodes grow by exactly its new children; new nodes hold no children and the record of held children grows by this expansion; the explored set grows, or else the frontier shrinks |
| Search.QueueGoal | 8puz.js:206-208 | a goal popped from the queue is the next enqueued node after the `nodesExpanded` expanded ones, which are the popped ones |
| Search.QueueExhausted | 8puz.js:227 | an empty queue means every enqueued node was expanded and the goal cannot be reached |
| Search.BreadthFirst | 8puz.js:192-228 | `BFS`: the enqueued nodes are exactly those discovered by popping and expanding the first `nodesExpanded` of them in order, none the goal, no board twice; `maxSearchDepth` is the greatest depth enqueued after the start; the goal node returned is the next enqueued one; a goal start gives `[start, 0, 0]`; `null` only once every enqueued node was expanded, and then the goal cannot be reached; the tree left behind satisfies `TreeAfter`, and a node of the starting tree keeps its children when it had some and when it was not popped |
| Search.Priority | 8-puzzle.js:168 | the key the comparator orders by, `cost()`: the heuristic sum plus the depth, so at least the depth |
| Search.IsCheapest | 8-puzzle.js:168-177 | the node at k costs no more than any node on the frontier: one the priority queue may hand out |
| Search.CheapestExists | 8-puzzle.js:177 | a non-empty frontier has a node of least `cost()` |
| Search.HeapPop | 8-puzzle.js:177-178 | the node dequeued was enqueued and is in the tree |
| Search.HeapExpand | 8-puzzle.js:184-196 | one expansion of `ASTAR` keeps its invariant: the enqueued nodes are, as a multiset, the popped ones plus the frontier; the enqueued nodes are those discovered by the pops so far, each popped node was expanded as `expand` does and was a pending node of least `cost()`; the record of held children grows by this expansion, so the node keeps children it already held (`ExpandKeeps`); the explored set grows, or else the frontier shrinks |
| Search.LeastPending | 8-puzzle.js:176-177 | a node is pending (enqueued, not yet popped) and no pending node has a lower `cost()` |
| Search.PoppedCheapest | 8-puzzle.js:176-185 | every popped node was, at its turn, a pending node of least `cost()` among those discovered so far |
| Search.AtMostOnce | 8-puzzle.js:188-190 | nodes with distinct boards appear at most once among the enqueued nodes |
| Search.NotPopped | 8-puzzle.js:176-177 | a node still on the frontier has not been popped before |
| Search.CheapestPending | 8-puzzle.js:177 | the node the priority queue hands out is a pending node of least `cost()` |
| Search.CheapestAppend | 8-puzzle.js:176-185 | popping a pending node of least cost extends a history of cheapest pops |
| Search.HeapGoal | 8-puzzle.js:180-182 | a goal dequeued by `ASTAR` was enqueued, and the counters hold their stated values |
| Search.HeapExhausted | 8-puzzle.js:199 | an empty frontier means the goal cannot be reached |
| Search.BestFirst | 8-puzzle.js:167-200 | the `ASTAR` loop: the enqueued nodes are exactly those discovered by popping and expanding the popped nodes in order, no board twice, each node popped at most once; every popped node, and the goal node returned, was a pending node of least `cost()` at its turn; `nodesExpanded` counts the non-goal pops; `maxSearchDepth` is the greatest depth enqueued after the start; a goal start is returned at once; `null` only when every enqueued node was popped, and then the goal cannot be reached; the record of held children taken at the start has grown by exactly the run's expansions |
| Search.GoalActions | 8-puzzle.js:181 | `node.actions()` of a goal node replays from the root to the goal, with as many moves as the node's depth |
| Search.Answer | 8-puzzle.js:180-182 | the driver's `return`: for a goal node, moves that replay from the root to the goal, one per level of the node, with the two counters passed through; nothing for no goal node |
| Search.AStar | 8-puzzle.js:167-200 | `[actions, nodesExpanded, maxSearchDepth]` whose moves lead from the root to the goal, or none only when the goal cannot be reached; `nodesExpanded` is the number of nodes popped and expanded in the traced run, each a pending node of least `cost()`, and `maxSearchDepth` the greatest depth enqueued after the start; the goal node was of least cost too, as deep as the moves are many; a goal root gives `[[], 0, 0]`; the tree left behind satisfies `TreeAfter`, and a node of the starting tree keeps its children when it had some and when it was not popped |
| Search.Bfs | 8-puzzle.js:202-234 | the same for the `BFS` of `8-puzzle.js`, whose run pops the enqueued nodes in order: `nodesExpanded` of them are expanded, none the goal, and the goal node is the next one, as deep as the moves are many; none only after every enqueued node was expanded; the tree left behind satisfies `TreeAfter`, and every node that held children before, such as those `ASTAR` expanded in `solve`, still holds them |
| Search.RootAlone | 8-puzzle.js:94 | a new root node is a closed tree |
| Search.Solve | 8-puzzle.js:93-99 | both results reach the goal when present; each is missing exactly when the goal cannot be reached, which includes every board of odd inversion parity; the goal board gives `[[], 0, 0]` twice. `BFS` runs on the tree `ASTAR` has grown |
| Search.Answered | 8-puzzle.js:93-99 | a sound answer is missing exactly when the goal cannot be reached |
| Search.SolveByBfs | 8puz.js:99-105 | the moves reach the goal; none (the `TypeError`) exactly when the goal cannot be reached, so for every unsolvable board; the goal board gives `[]` |

## The heuristic counts the blank

A Manhattan sum that leaves the blank out never exceeds the number of
moves still needed, since each move brings one tile one cell closer at
best. The sum in `cost()` runs over all nine cells, the blank included
(8-puzzle.js:137-142, 8puz.js:143-149), and then it can exceed that
number. `Heuristic.BlankMakesItOverestimate` shows it: the board
`[1, 0, 2, 3, 4, 5, 6, 7, 8]` is one move from the goal and scores 2. The
model follows the code and counts the blank, and no shortest-path
property is claimed for either driver.

## Left out

- `shuffle`, `arrayShuffle` and `createSolvableState` (8puz.js:73-97, 8-puzzle.js:3-10, 83-91): they draw random numbers, and they only pick a start board.
- `console.log` calls, the commented-out code and the top-level `solve(...)` calls: these are output and program entry.
- `swapElements` (8puz.js:82-86): only commented-out code calls it.
- `print` (8puz.js:183-185): it only formats a board as text.
- The `heuristicFunc` field (8puz.js:137): it always holds `manhattanDistance`, and `Cost` calls that directly.
- The `dsa.js` `Queue` and `PriorityQueue`: these are outside code. The FIFO queue is a sequence whose head is taken. The priority queue is a sequence from which any node of least `cost()` is taken.
- Search.BestFirst: it does not fix which of several cheapest nodes is dequeued, and it does not model the boolean `a.cost() > b.cost()` comparator that the heap receives. So it holds for every tie order, but it does not say which goal node, and hence which path, the heap returns.
- The explored set keys boards by `toString()`. The model keys them by the board itself, which is the same thing for sequences of the digits 0..8.
- The global `node` variable that the drivers assign without declaring it: the model uses a local.
- `Array.isArray` checks in `arrayEquals`/`arrayIsEqual`: boards are always sequences here.
- Board.Transform: it requires the swap target to lie on the board. For an invalid move that would leave the board, the source reads and writes outside the array and gives a board with `undefined` cells; the model does not cover that. Cross-row `L`/`R` swaps that stay inside the board are modelled as the source does them.
- SearchTree.BoardNode.Cost: it requires a nine-cell state. For other lengths the source's `indexOf` of a missing value makes `translateTo2D(-1)` contribute too; only boards are ever costed.
- Search.Solve and Search.SolveByBfs: they require a board, a permutation of 0..8. The source accepts any array, and what it does on a non-board is not modelled.
- Search.SolveByBfs: where `BFS` returns `null`, the source throws a `TypeError` on `result[0]`. The model returns `None` instead.
- Search.BreadthFirst and Search.BestFirst: they do not prove that the path found is a shortest one. For `BFS` that would need a proof about breadth-first levels. For `ASTAR` it is not claimed: the heuristic is not admissible (see "The heuristic counts the blank"), and a board is marked explored when it is enqueued, so it is never reached again by a shorter path.
- Search.Expanded: it fixes the fields `expand` gives each child (parent, move, board, depth), not which objects the children are; that the popped nodes hold those very objects afterwards is stated by `TreeAfter`.
- Search.HeapExpand: it states `expand`'s idempotence on the record of held children taken when the run started (`Grew`), not on the node's list just before the call; `ExpandKeeps` derives the one-call form, since the node has not been popped before.
