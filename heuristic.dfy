/**
 * The Manhattan-distance heuristic of the search: for every cell, the grid
 * distance between where its value stands and where the goal keeps it.
 * The sum runs over all nine cells, the blank included.
 */
module Heuristic {
  import opened Wrappers
  import opened Board

  /**
   * `translateTo2D`: the row `Math.floor(index / 3)` and the column `index % 3`,
   * where JavaScript's remainder takes the sign of the dividend.
   */
  function TranslateTo2D(index: int): (rc: (int, int))
    ensures index >= 0 ==> 0 <= rc.1 < 3 && index == 3 * rc.0 + rc.1
  {
    (index / 3, if index >= 0 then index % 3 else -((-index) % 3))
  }

  /** `manhattanDistance` between the grid points (x1, y1) and (x2, y2). */
  function ManhattanDistance(x1: int, y1: int, x2: int, y2: int): (d: int)
    ensures d >= 0
    ensures d == 0 <==> x1 == x2 && y1 == y2
  {
    (if x1 >= x2 then x1 - x2 else x2 - x1) + (if y1 >= y2 then y1 - y2 else y2 - y1)
  }

  /** The distance from cell `i` to the cell of `goal` that holds the same value. */
  function CellDistance(s: seq<int>, goal: seq<int>, i: int): (d: int)
    requires |s| == 9 && 0 <= i < 9
    ensures d >= 0
  {
    var (currentX, currentY) := TranslateTo2D(i);
    var (goalX, goalY) := TranslateTo2D(IndexOf(goal, s[i]));
    ManhattanDistance(currentX, currentY, goalX, goalY)
  }

  /** The heuristic summed over the first `n` cells: zero exactly when each of them costs nothing. */
  function HeuristicUpTo(s: seq<int>, goal: seq<int>, n: int): (h: int)
    requires |s| == 9 && 0 <= n <= 9
    ensures h >= 0
    ensures h == 0 <==> forall i :: 0 <= i < n ==> CellDistance(s, goal, i) == 0
  {
    if n == 0 then 0 else HeuristicUpTo(s, goal, n - 1) + CellDistance(s, goal, n - 1)
  }

  /** The heuristic term of `cost`, over all nine cells. */
  function ManhattanSum(s: seq<int>): (h: int)
    requires |s| == 9
    ensures h >= 0
    ensures h == 0 <==> forall i :: 0 <= i < 9 ==> CellDistance(s, Goal, i) == 0
  {
    HeuristicUpTo(s, Goal, |s|)
  }

  /** The goal keeps each value v at index v. */
  lemma GoalIndexOf(v: int)
    requires 0 <= v < 9
    ensures IndexOf(Goal, v) == v
  {
    GoalAt();
    assert Goal[v] == v;
  }

  /** A cell costs nothing exactly when it holds its own index. */
  lemma CellDistanceZero(s: seq<int>, i: int)
    requires IsBoard(s) && |s| == 9 && 0 <= i < 9
    ensures CellDistance(s, Goal, i) >= 0
    ensures CellDistance(s, Goal, i) == 0 <==> s[i] == i
  {
    BoardFacts(s);
    GoalIndexOf(s[i]);
  }

  /** Every cell of a board costs nothing exactly when it holds its own index. */
  lemma AllCellsZero(s: seq<int>)
    requires IsBoard(s) && |s| == 9
    ensures forall i :: 0 <= i < 9 ==>
      CellDistance(s, Goal, i) >= 0 && (CellDistance(s, Goal, i) == 0 <==> s[i] == i)
  {
    forall i | 0 <= i < 9
      ensures CellDistance(s, Goal, i) >= 0 && (CellDistance(s, Goal, i) == 0 <==> s[i] == i)
    {
      CellDistanceZero(s, i);
    }
  }

  /** A sum of such cells is zero exactly when every cell is at home. */
  lemma {:induction false} PrefixNonNegative(s: seq<int>, goal: seq<int>, n: int)
    requires |s| == 9 && 0 <= n <= 9
    requires forall i :: 0 <= i < 9 ==>
      CellDistance(s, goal, i) >= 0 && (CellDistance(s, goal, i) == 0 <==> s[i] == i)
    ensures HeuristicUpTo(s, goal, n) >= 0
    ensures HeuristicUpTo(s, goal, n) == 0 <==> forall i :: 0 <= i < n ==> s[i] == i
    decreases n
  {
    if n > 0 {
      PrefixNonNegative(s, goal, n - 1);
      var rest, last := HeuristicUpTo(s, goal, n - 1), CellDistance(s, goal, n - 1);
      assert HeuristicUpTo(s, goal, n) == rest + last;
      assert HeuristicUpTo(s, goal, n) == 0 <==> rest == 0 && last == 0;
      assert (forall i :: 0 <= i < n ==> s[i] == i)
         <==> (forall i :: 0 <= i < n - 1 ==> s[i] == i) && s[n - 1] == n - 1;
    }
  }

  /** The heuristic is never negative, and is zero on the goal board and nowhere else. */
  lemma ManhattanZeroIffGoal(s: seq<int>)
    requires IsBoard(s)
    ensures ManhattanSum(s) >= 0
    ensures ManhattanSum(s) == 0 <==> s == Goal
  {
    BoardSize(s);
    ManhattanZeroIffHome(s);
    HomeEverywhereIsGoal(s);
  }

  lemma ManhattanZeroIffHome(s: seq<int>)
    requires IsBoard(s) && |s| == 9
    ensures ManhattanSum(s) >= 0
    ensures ManhattanSum(s) == 0 <==> forall i :: 0 <= i < |s| ==> s[i] == i
  {
    AllCellsZero(s);
    PrefixNonNegative(s, Goal, |s|);
  }

  lemma HomeEverywhereIsGoal(s: seq<int>)
    requires |s| == 9
    ensures (forall i :: 0 <= i < |s| ==> s[i] == i) <==> s == Goal
  {
    GoalAt();
  }

  /** Cells that cost nothing add nothing to the sum. */
  lemma {:induction false} HomeCellsAddNothing(s: seq<int>, goal: seq<int>, k: int, n: int)
    requires |s| == 9 && 0 <= k <= n <= 9
    requires forall i :: k <= i < n ==> CellDistance(s, goal, i) == 0
    ensures HeuristicUpTo(s, goal, n) == HeuristicUpTo(s, goal, k)
    decreases n
  {
    if n > k {
      HomeCellsAddNothing(s, goal, k, n - 1);
      assert HeuristicUpTo(s, goal, n) == HeuristicUpTo(s, goal, n - 1) + CellDistance(s, goal, n - 1);
    }
  }

  /**
   * Counting the blank makes the heuristic overestimate: this board is one
   * move from the goal, yet its heuristic is 2.
   */
  lemma BlankMakesItOverestimate()
    ensures IsBoard([1, 0, 2, 3, 4, 5, 6, 7, 8])
    ensures Replay([1, 0, 2, 3, 4, 5, 6, 7, 8], [L]) == Some(Goal)
    ensures ManhattanSum([1, 0, 2, 3, 4, 5, 6, 7, 8]) == 2
  {
    var s := [1, 0, 2, 3, 4, 5, 6, 7, 8];
    GoalAt();
    assert s == Swap(Goal, 0, 1);
    OneMoveFromGoal(s);
    SumOneMoveFromGoal(s);
  }

  lemma SumOneMoveFromGoal(s: seq<int>)
    requires s == Swap(Goal, 0, 1)
    ensures ManhattanSum(s) == 2
  {
    SwapPermutes(Goal, 0, 1);
    GoalAt();
    FirstTwoCells(s);
    forall i | 2 <= i < |s|
      ensures CellDistance(s, Goal, i) == 0
    {
      assert s[i] == Goal[i];
      CellDistanceZero(s, i);
    }
    HomeCellsAddNothing(s, Goal, 2, |s|);
  }

  lemma FirstTwoCells(s: seq<int>)
    requires |s| == 9 && s[0] == 1 && s[1] == 0
    ensures HeuristicUpTo(s, Goal, 2) == 2
  {
    GoalIndexOf(0);
    GoalIndexOf(1);
    assert TranslateTo2D(0) == (0, 0) && TranslateTo2D(1) == (0, 1);
    assert CellDistance(s, Goal, 0) == 1;
    assert CellDistance(s, Goal, 1) == 1;
    assert HeuristicUpTo(s, Goal, 1) == HeuristicUpTo(s, Goal, 0) + CellDistance(s, Goal, 0);
  }

  lemma OneMoveFromGoal(s: seq<int>)
    requires s == Swap(Goal, 0, 1)
    ensures IsBoard(s)
    ensures Replay(s, [L]) == Some(Goal)
  {
    SwapPermutes(Goal, 0, 1);
    GoalAt();
    assert BlankIndex(s) == 1;
    ValidActionsListing(s);
    assert L in ValidActions(s);
    assert Transform(s, L) == Swap(s, 1, 0);
    SwapTwice(Goal, 0, 1);
    assert [L][..0] == [];
  }
}
