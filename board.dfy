/**
 * The board model shared by 8puz.js and 8-puzzle.js: a board is a row-major
 * 3x3 grid stored as a sequence of the nine values 0..8, 0 being the blank.
 * A move names the direction in which the blank travels.
 */
module Board {
  import opened Wrappers

  /** A move label. `Other` stands for any name `transform` does not recognise. */
  datatype Action = U | D | L | R | Other(name: string)

  const Goal: seq<int> := [0, 1, 2, 3, 4, 5, 6, 7, 8]

  /** A board is a permutation of the goal board. */
  predicate IsBoard(s: seq<int>)
  {
    multiset(s) == multiset(Goal)
  }

  lemma GoalAt()
    ensures |Goal| == 9
    ensures forall i :: 0 <= i < 9 ==> Goal[i] == i
  {
  }

  lemma TwoOccurrences(s: seq<int>, i: int, j: int)
    requires 0 <= i < j < |s| && s[i] == s[j]
    ensures multiset(s)[s[i]] >= 2
  {
    assert s == s[..i] + [s[i]] + s[i + 1..j] + [s[j]] + s[j + 1..];
  }

  /** What being a permutation of 0..8 gives: nine cells, values in range, no repeats, a blank. */
  lemma BoardFacts(s: seq<int>)
    requires IsBoard(s)
    ensures |s| == 9 && 0 in s
    ensures forall i :: 0 <= i < 9 ==> 0 <= s[i] < 9
    ensures forall i, j :: 0 <= i < 9 && 0 <= j < 9 && s[i] == s[j] ==> i == j
  {
    BoardSize(s);
    BoardRange(s);
    BoardDistinct(s);
  }

  lemma BoardSize(s: seq<int>)
    requires IsBoard(s)
    ensures |s| == 9 && 0 in s
  {
    assert |s| == |multiset(s)| == |multiset(Goal)|;
    assert 0 in multiset(Goal);
  }

  lemma BoardRange(s: seq<int>)
    requires IsBoard(s)
    ensures forall i :: 0 <= i < |s| ==> 0 <= s[i] < 9
  {
    GoalAt();
    forall i | 0 <= i < |s|
      ensures 0 <= s[i] < 9
    {
      assert s[i] in multiset(s);
    }
  }

  lemma BoardDistinct(s: seq<int>)
    requires IsBoard(s)
    ensures forall i, j :: 0 <= i < |s| && 0 <= j < |s| && s[i] == s[j] ==> i == j
  {
    BoardSize(s);
    BoardRange(s);
    forall i, j | 0 <= i < |s| && 0 <= j < |s| && s[i] == s[j]
      ensures i == j
    {
      if i != j {
        if i < j { TwoOccurrences(s, i, j); } else { TwoOccurrences(s, j, i); }
        GoalOnce(s[i]);
      }
    }
  }

  /** No value occurs twice in the goal board. */
  lemma GoalOnce(x: int)
    ensures multiset(Goal)[x] <= 1
  {
    GoalAt();
    IncreasingOnce(Goal, x);
  }

  lemma {:induction false} IncreasingOnce(g: seq<int>, x: int)
    requires forall i, j :: 0 <= i < j < |g| ==> g[i] < g[j]
    ensures multiset(g)[x] <= 1
    decreases |g|
  {
    if g != [] {
      IncreasingOnce(g[1..], x);
      assert g == [g[0]] + g[1..];
      if x == g[0] {
        assert x !in g[1..];
      }
    }
  }

  /** `Array.prototype.indexOf`: the first index holding `x`, or -1. */
  function IndexOf(s: seq<int>, x: int): (r: int)
    ensures -1 <= r < |s|
    ensures r == -1 <==> x !in s
    ensures 0 <= r ==> s[r] == x && x !in s[..r]
  {
    if |s| == 0 then -1
    else if s[0] == x then 0
    else
      var k := IndexOf(s[1..], x);
      assert s[1..][..k + 1] == s[1..k + 2] by { }
      if k < 0 then -1 else k + 1
  }

  /** The index of the blank on a board. */
  function BlankIndex(s: seq<int>): (b: int)
    requires IsBoard(s)
    ensures 0 <= b < 9 && s[b] == 0
    ensures forall i :: 0 <= i < 9 && s[i] == 0 ==> i == b
  {
    BoardFacts(s);
    IndexOf(s, 0)
  }

  /** The position of a move in the fixed listing order U, D, L, R. */
  function Rank(a: Action): nat
  {
    match a
    case U => 0
    case D => 1
    case L => 2
    case R => 3
    case Other(_) => 4
  }

  /**
   * The legal moves of the blank, listed in the order U, D, L, R:
   * up when it is not in the top row, down when not in the bottom row,
   * left when not in the left column, right when not in the right column.
   */
  function ValidActions(s: seq<int>): (r: seq<Action>)
    requires IsBoard(s)
    ensures 2 <= |r| <= 4
    ensures forall a :: a in r ==> !a.Other? && CanApply(s, a)
  {
    var blankIndex := IndexOf(s, 0);
    ListingMembers(blankIndex);
    ListingInRange(blankIndex);
    Listing(blankIndex)
  }

  /**
   * Which moves are legal, by the blank's row and column, and the order in
   * which `validActions` lists them.
   */
  lemma ValidActionsListing(s: seq<int>)
    requires IsBoard(s)
    ensures U in ValidActions(s) <==> BlankIndex(s) > 2
    ensures D in ValidActions(s) <==> BlankIndex(s) < 6
    ensures L in ValidActions(s) <==> BlankIndex(s) % 3 > 0
    ensures R in ValidActions(s) <==> BlankIndex(s) % 3 < 2
    ensures forall i, j :: 0 <= i < j < |ValidActions(s)| ==>
      Rank(ValidActions(s)[i]) < Rank(ValidActions(s)[j])
  {
    ListingMembers(BlankIndex(s));
    ListingOrdered(BlankIndex(s));
  }

  /** The four conditional pushes of `validActions` for the blank at index `b`. */
  function Listing(b: int): seq<Action>
  {
    (if b > 2 then [U] else [])
    + (if b < 6 then [D] else [])
    + (if b % 3 > 0 then [L] else [])
    + (if b % 3 < 2 then [R] else [])
  }

  /** Which moves the listing holds, checked for each of the nine blank positions. */
  lemma ListingMembers(b: int)
    requires 0 <= b < 9
    ensures 2 <= |Listing(b)| <= 4
    ensures U in Listing(b) <==> b > 2
    ensures D in Listing(b) <==> b < 6
    ensures L in Listing(b) <==> b % 3 > 0
    ensures R in Listing(b) <==> b % 3 < 2
  {
    if b == 0 {} else if b == 1 {} else if b == 2 {} else if b == 3 {} else if b == 4 {}
    else if b == 5 {} else if b == 6 {} else if b == 7 {} else {}
  }

  /** Every listed move is recognised and keeps the blank on the board. */
  lemma ListingInRange(b: int)
    requires 0 <= b < 9
    ensures forall a :: a in Listing(b) ==> !a.Other? && 0 <= b + Offset(a) < 9
  {
    if b == 0 {} else if b == 1 {} else if b == 2 {} else if b == 3 {} else if b == 4 {}
    else if b == 5 {} else if b == 6 {} else if b == 7 {} else {}
  }

  /** The listing is in the order U, D, L, R. */
  lemma ListingOrdered(b: int)
    requires 0 <= b < 9
    ensures forall i, j :: 0 <= i < j < |Listing(b)| ==> Rank(Listing(b)[i]) < Rank(Listing(b)[j])
  {
    if b == 0 {} else if b == 1 {} else if b == 2 {} else if b == 3 {} else if b == 4 {}
    else if b == 5 {} else if b == 6 {} else if b == 7 {} else {}
  }

  /** How far along the row-major board a move sends the blank. */
  function Offset(a: Action): int
  {
    match a
    case U => -3
    case D => 3
    case L => -1
    case R => 1
    case Other(_) => 0
  }

  /**
   * `transform` is defined whenever the cell it swaps the blank with exists:
   * an unrecognised name, or a target index inside the board. This admits the
   * row-wrapping left/right swaps the source performs without complaint.
   */
  predicate CanApply(s: seq<int>, a: Action)
    requires IsBoard(s)
  {
    a.Other? || 0 <= BlankIndex(s) + Offset(a) < 9
  }

  /** Column arithmetic on the nine cells: a cell off the left (right) edge has a left (right) neighbour. */
  lemma ColumnBounds(b: int)
    requires 0 <= b < 9
    ensures b % 3 > 0 ==> 1 <= b && (b - 1) / 3 == b / 3
    ensures b % 3 < 2 ==> b <= 7 && (b + 1) / 3 == b / 3
    ensures 0 <= b % 3 < 3 && b == 3 * (b / 3) + b % 3
  {
    if b == 0 {} else if b == 1 {} else if b == 2 {} else if b == 3 {} else if b == 4 {}
    else if b == 5 {} else if b == 6 {} else if b == 7 {} else {}
  }

  /**
   * A fresh board in which the blank and the cell `Offset(a)` away from it
   * have traded places; an unrecognised move gives back an equal board.
   */
  function Transform(s: seq<int>, a: Action): (r: seq<int>)
    requires IsBoard(s) && CanApply(s, a)
    ensures IsBoard(r)
    ensures a.Other? ==> r == s
    ensures !a.Other? ==>
      var b, t := BlankIndex(s), BlankIndex(s) + Offset(a);
      && r[t] == 0 && r[b] == s[t] && BlankIndex(r) == t
      && forall i :: 0 <= i < 9 && i != b && i != t ==> r[i] == s[i]
  {
    var blankIndex := IndexOf(s, 0);
    if a.Other? then s
    else
      var t := blankIndex + Offset(a);
      BoardFacts(s);
      var r := Swap(s, blankIndex, t);
      SwapPermutes(s, blankIndex, t);
      assert IsBoard(r);
      BoardFacts(r);
      r
  }

  /** `s` with the cells at `i` and `j` exchanged. */
  function Swap(s: seq<int>, i: int, j: int): (r: seq<int>)
    requires 0 <= i < |s| && 0 <= j < |s|
    ensures |r| == |s| && r[i] == s[j] && r[j] == s[i]
    ensures forall k :: 0 <= k < |s| && k != i && k != j ==> r[k] == s[k]
  {
    s[i := s[j]][j := s[i]]
  }

  lemma SwapPermutes(s: seq<int>, i: int, j: int)
    requires 0 <= i < |s| && 0 <= j < |s|
    ensures multiset(Swap(s, i, j)) == multiset(s)
  {
  }

  lemma SwapTwice(s: seq<int>, i: int, j: int)
    requires 0 <= i < |s| && 0 <= j < |s|
    ensures Swap(Swap(s, i, j), j, i) == s
  {
  }

  /** The move that undoes `a`. */
  function Opposite(a: Action): Action
  {
    match a
    case U => D
    case D => U
    case L => R
    case R => L
    case Other(_) => a
  }

  /** Opposite moves undo each other, and the undoing move is itself legal. */
  lemma RoundTrip(s: seq<int>, a: Action)
    requires IsBoard(s) && a in ValidActions(s)
    ensures Opposite(a) in ValidActions(Transform(s, a))
    ensures Transform(Transform(s, a), Opposite(a)) == s
  {
    OppositeIsValid(s, a);
    var b := BlankIndex(s);
    var r := Transform(s, a);
    var t := BlankIndex(r);
    assert Offset(Opposite(a)) == -Offset(a) && t == b + Offset(a);
    assert r == Swap(s, b, t);
    assert Transform(r, Opposite(a)) == Swap(r, t, b);
    SwapTwice(s, b, t);
  }

  lemma OppositeIsValid(s: seq<int>, a: Action)
    requires IsBoard(s) && a in ValidActions(s)
    ensures Opposite(a) in ValidActions(Transform(s, a))
  {
    var t := BlankIndex(Transform(s, a));
    ValidActionsListing(s);
    ValidActionsListing(Transform(s, a));
    ColumnBounds(BlankIndex(s));
    ColumnBounds(t);
    match a
    case U => assert t < 6;
    case D => assert t > 2;
    case L => assert t % 3 < 2;
    case R => assert t % 3 > 0;
  }

  /** One move of a replayed path: only a legal move takes effect. */
  function Step(s: seq<int>, a: Action): (r: Option<seq<int>>)
    requires IsBoard(s)
    ensures r.Some? <==> a in ValidActions(s)
    ensures r.Some? ==> IsBoard(r.value) && r.value == Transform(s, a)
  {
    if a in ValidActions(s) then Some(Transform(s, a)) else None
  }

  /** The board reached by playing the moves of `p` in order from `s`, if all are legal. */
  function Replay(s: seq<int>, p: seq<Action>): (r: Option<seq<int>>)
    requires IsBoard(s)
    ensures r.Some? ==> IsBoard(r.value)
    decreases |p|
  {
    if p == [] then Some(s)
    else
      match Replay(s, p[..|p| - 1])
      case None => None
      case Some(t) => Step(t, p[|p| - 1])
  }

  /** The boards one legal move away. */
  function Successors(s: seq<int>): set<seq<int>>
    requires IsBoard(s)
  {
    set a | a in ValidActions(s) :: Transform(s, a)
  }

  /** The boards one legal move away are boards. */
  lemma SuccessorsAreBoards(s: seq<int>)
    requires IsBoard(s)
    ensures forall t :: t in Successors(s) ==> IsBoard(t)
  {
    forall t | t in Successors(s)
      ensures IsBoard(t)
    {
      var a :| a in ValidActions(s) && t == Transform(s, a);
    }
  }

  /** No sequence of legal moves leads from `s` to the goal. */
  ghost predicate GoalUnreachable(s: seq<int>)
    requires IsBoard(s)
  {
    forall p :: Replay(s, p) != Some(Goal)
  }

  /** A set of boards that no legal move leads out of. */
  ghost predicate ClosedUnderMoves(S: set<seq<int>>)
  {
    forall x :: x in S ==> IsBoard(x) && Successors(x) <= S
  }

  /** Playing any path from inside a move-closed set never leaves it. */
  lemma {:induction false} ReplayStaysInside(S: set<seq<int>>, s: seq<int>, p: seq<Action>)
    requires ClosedUnderMoves(S) && s in S
    ensures Replay(s, p).Some? ==> Replay(s, p).value in S
    decreases |p|
  {
    if p != [] {
      ReplayStaysInside(S, s, p[..|p| - 1]);
    }
  }
}
