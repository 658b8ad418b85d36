/**
 * The parity test that decides whether a board can reach the goal:
 * count the out-of-order pairs of tiles, ignoring the blank.
 */
module Inversions {
  import opened Wrappers
  import opened Board

  /** `x` placed before `y` is an inversion: two tiles (not the blank) out of order. */
  predicate Inverted(x: int, y: int)
  {
    x != 0 && y != 0 && x > y
  }

  function Pair(x: int, y: int): nat
  {
    if Inverted(x, y) then 1 else 0
  }

  /** How many cells of `t` form an inversion with a value `x` standing before all of them. */
  function CountAfter(x: int, t: seq<int>): (r: nat)
    ensures r <= |t|
    ensures x == 0 ==> r == 0
    decreases |t|
  {
    if |t| == 0 then 0 else CountAfter(x, t[..|t| - 1]) + Pair(x, t[|t| - 1])
  }

  /** The number of index pairs i < j with `Inverted(s[i], s[j])`. */
  function InversionCount(s: seq<int>): nat
  {
    if |s| == 0 then 0 else CountAfter(s[0], s[1..]) + InversionCount(s[1..])
  }

  /** The nested loop that counts inversions over the nine cells. */
  method Inversions(state: seq<int>) returns (inversionSum: nat)
    requires |state| == 9
    ensures inversionSum == InversionCount(state)
  {
    inversionSum := 0;
    for i := 0 to 9
      invariant inversionSum + InversionCount(state[i..]) == InversionCount(state)
    {
      ghost var before := inversionSum;
      for j := i + 1 to 9
        invariant inversionSum == before + CountAfter(state[i], state[i + 1..j])
      {
        assert state[i + 1..j + 1][..j - i - 1] == state[i + 1..j];
        if state[i] != 0 && state[j] != 0 && state[i] > state[j] {
          inversionSum := inversionSum + 1;
        }
      }
      assert state[i..][1..] == state[i + 1..9];
    }
  }

  /** `ifSolvable`: an even number of inversions. */
  predicate IsSolvable(s: seq<int>)
  {
    InversionCount(s) % 2 == 0
  }

  lemma {:induction false} CountCons(x: int, y: int, t: seq<int>)
    ensures CountAfter(x, [y] + t) == Pair(x, y) + CountAfter(x, t)
    decreases |t|
  {
    if |t| > 0 {
      assert ([y] + t)[..|t|] == [y] + t[..|t| - 1];
      CountCons(x, y, t[..|t| - 1]);
    }
  }

  /** Exchanging two neighbouring cells does not change what a value before them counts. */
  lemma {:induction false} CountAfterSwap(x: int, t: seq<int>, k: int)
    requires 0 <= k < |t| - 1
    ensures CountAfter(x, Swap(t, k, k + 1)) == CountAfter(x, t)
    decreases |t|
  {
    var n := |t|;
    var t' := Swap(t, k, k + 1);
    if k + 1 < n - 1 {
      assert t'[..n - 1] == Swap(t[..n - 1], k, k + 1);
      CountAfterSwap(x, t[..n - 1], k);
    } else {
      assert t[..n - 1][..n - 2] == t[..n - 2] == t'[..n - 1][..n - 2];
    }
  }

  /** Exchanging neighbours at k and k + 1 flips exactly the inversion between those two. */
  lemma {:induction false} InversionSwap(s: seq<int>, k: int)
    requires 0 <= k < |s| - 1
    ensures InversionCount(Swap(s, k, k + 1)) + Pair(s[k], s[k + 1])
         == InversionCount(s) + Pair(s[k + 1], s[k])
    decreases |s|
  {
    var s' := Swap(s, k, k + 1);
    if k == 0 {
      var a, b, t := s[0], s[1], s[2..];
      assert s[1..] == [b] + t && s'[1..] == [a] + t;
      assert s[1..][1..] == t && s'[1..][1..] == t;
      CountCons(a, b, t);
      CountCons(b, a, t);
    } else {
      assert s'[1..] == Swap(s[1..], k - 1, k);
      CountAfterSwap(s[0], s[1..], k - 1);
      InversionSwap(s[1..], k - 1);
    }
  }

  /** Sliding the blank sideways never changes the inversion count. */
  lemma BlankSwapKeepsCount(s: seq<int>, k: int)
    requires 0 <= k < |s| - 1 && (s[k] == 0 || s[k + 1] == 0)
    ensures InversionCount(Swap(s, k, k + 1)) == InversionCount(s)
  {
    InversionSwap(s, k);
  }

  lemma SwapSymmetric(s: seq<int>, i: int, j: int)
    requires 0 <= i < |s| && 0 <= j < |s|
    ensures Swap(s, i, j) == Swap(s, j, i)
  {
  }

  /**
   * Moving the blank up three cells past two tiles changes the inversion
   * count by -2, 0 or +2: done as five neighbour exchanges, of which only the
   * two that pass the moving tile over another tile count.
   */
  lemma UpKeepsParity(s: seq<int>)
    requires IsBoard(s) && BlankIndex(s) >= 3
    ensures IsSolvable(Transform(s, U)) == IsSolvable(s)
  {
    var b := BlankIndex(s);
    UpIsLongSwap(s);
    TilesBeforeBlank(s);
    LongSwapParity(s, b - 3);
  }

  /** Moving the blank up exchanges it with the tile three cells before it. */
  lemma UpIsLongSwap(s: seq<int>)
    requires IsBoard(s) && BlankIndex(s) >= 3
    ensures Transform(s, U) == Swap(s, BlankIndex(s) - 3, BlankIndex(s))
  {
    var b := BlankIndex(s);
    assert Transform(s, U) == Swap(s, b, b - 3);
    SwapSymmetric(s, b, b - 3);
  }

  /** The three cells before the blank hold tiles, and the first differs from the other two. */
  lemma TilesBeforeBlank(s: seq<int>)
    requires IsBoard(s) && BlankIndex(s) >= 3
    ensures var b := BlankIndex(s);
      && s[b - 3] != 0 && s[b - 2] != 0 && s[b - 1] != 0
      && s[b - 3] != s[b - 2] && s[b - 3] != s[b - 1]
  {
    BoardDistinct(s);
  }

  lemma LongSwapParity(s: seq<int>, t: int)
    requires 0 <= t && t + 3 < |s| && s[t + 3] == 0
    requires s[t] != 0 && s[t + 1] != 0 && s[t + 2] != 0
    requires s[t] != s[t + 1] && s[t] != s[t + 2]
    ensures InversionCount(Swap(s, t, t + 3)) % 2 == InversionCount(s) % 2
  {
    var v, p, q := s[t], s[t + 1], s[t + 2];
    var s1 := Swap(s, t + 2, t + 3);
    var s2 := Swap(s1, t + 1, t + 2);
    var s3 := Swap(s2, t, t + 1);
    var s4 := Swap(s3, t + 1, t + 2);
    var s5 := Swap(s4, t + 2, t + 3);
    BlankSwapKeepsCount(s, t + 2);
    BlankSwapKeepsCount(s1, t + 1);
    BlankSwapKeepsCount(s2, t);
    InversionSwap(s3, t + 1);
    InversionSwap(s4, t + 2);
    assert Pair(v, p) + Pair(p, v) == 1 && Pair(v, q) + Pair(q, v) == 1;
    var k := Pair(p, v) + Pair(q, v) - 1;
    assert InversionCount(s5) == InversionCount(s) + 2 * k;
    EvenShift(InversionCount(s), k);
    FiveSwaps(s, t);
  }

  lemma FiveSwaps(s: seq<int>, t: int)
    requires 0 <= t && t + 3 < |s|
    ensures Swap(Swap(Swap(Swap(Swap(s, t + 2, t + 3), t + 1, t + 2), t, t + 1), t + 1, t + 2), t + 2, t + 3)
         == Swap(s, t, t + 3)
  {
    var s1 := Swap(s, t + 2, t + 3);
    var s2 := Swap(s1, t + 1, t + 2);
    var s3 := Swap(s2, t, t + 1);
    var s4 := Swap(s3, t + 1, t + 2);
    var s5 := Swap(s4, t + 2, t + 3);
    var w := Swap(s, t, t + 3);
    assert s3[t] == s[t + 3] && s3[t + 1] == s[t] && s3[t + 2] == s[t + 1] && s3[t + 3] == s[t + 2];
    forall i | 0 <= i < |s|
      ensures s5[i] == w[i]
    {
      if i < t || t + 3 < i {
        assert s5[i] == s4[i] == s3[i] == s2[i] == s1[i] == s[i];
      }
    }
  }

  lemma EvenShift(x: int, k: int)
    ensures (x + 2 * k) % 2 == x % 2
  {
  }

  /** Every move that `transform` can make keeps the solvability verdict. */
  lemma TransformKeepsSolvability(s: seq<int>, a: Action)
    requires IsBoard(s) && CanApply(s, a)
    ensures IsSolvable(Transform(s, a)) == IsSolvable(s)
  {
    var b := BlankIndex(s);
    match a
    case U => UpKeepsParity(s);
    case D => DownKeepsParity(s);
    case L =>
      SwapSymmetric(s, b, b - 1);
      BlankSwapKeepsCount(s, b - 1);
    case R =>
      BlankSwapKeepsCount(s, b);
    case Other(_) =>
  }

  /** Moving the blank down is undone by moving it up, which keeps the parity. */
  lemma DownKeepsParity(s: seq<int>)
    requires IsBoard(s) && CanApply(s, D)
    ensures IsSolvable(Transform(s, D)) == IsSolvable(s)
  {
    ValidActionsListing(s);
    assert D in ValidActions(s);
    RoundTrip(s, D);
    UpKeepsParity(Transform(s, D));
  }

  /** A strictly increasing sequence has no inversions; in particular the goal has none. */
  lemma {:induction false} IncreasingHasNoInversions(s: seq<int>)
    requires forall i, j :: 0 <= i < j < |s| ==> s[i] < s[j]
    ensures InversionCount(s) == 0
    decreases |s|
  {
    if |s| > 0 {
      NothingSmallerAfter(s[0], s[1..]);
      IncreasingHasNoInversions(s[1..]);
    }
  }

  lemma {:induction false} NothingSmallerAfter(x: int, t: seq<int>)
    requires forall k :: 0 <= k < |t| ==> x < t[k]
    ensures CountAfter(x, t) == 0
    decreases |t|
  {
    if |t| > 0 {
      NothingSmallerAfter(x, t[..|t| - 1]);
    }
  }

  lemma GoalIsSolvable()
    ensures InversionCount(Goal) == 0 && IsSolvable(Goal)
  {
    GoalAt();
    IncreasingHasNoInversions(Goal);
  }

  /** The number of tiles (non-blank cells). */
  function Tiles(s: seq<int>): nat
  {
    if |s| == 0 then 0 else (if s[0] != 0 then 1 else 0) + Tiles(s[1..])
  }

  /** The number of pairs that can be drawn from n tiles. */
  function PairsOf(n: nat): nat
  {
    if n == 0 then 0 else n - 1 + PairsOf(n - 1)
  }

  lemma {:induction false} CountAfterAtMostTiles(x: int, t: seq<int>)
    ensures CountAfter(x, t) <= (if x == 0 then 0 else Tiles(t))
    decreases |t|
  {
    if |t| > 0 {
      assert t == [t[0]] + t[1..];
      CountCons(x, t[0], t[1..]);
      CountAfterAtMostTiles(x, t[1..]);
    }
  }

  /** At most every pair of tiles is inverted. */
  lemma {:induction false} InversionsAtMostPairs(s: seq<int>)
    ensures InversionCount(s) <= PairsOf(Tiles(s))
    decreases |s|
  {
    if |s| > 0 {
      CountAfterAtMostTiles(s[0], s[1..]);
      InversionsAtMostPairs(s[1..]);
      if s[0] != 0 {
        PairsGrow(Tiles(s[1..]));
      }
    }
  }

  lemma PairsGrow(n: nat)
    ensures PairsOf(n + 1) == n + PairsOf(n)
  {
  }

  lemma {:induction false} TilesAndBlanks(s: seq<int>)
    ensures Tiles(s) + multiset(s)[0] == |s|
    decreases |s|
  {
    if |s| > 0 {
      assert s == [s[0]] + s[1..];
      assert multiset(s) == multiset{s[0]} + multiset(s[1..]);
      TilesAndBlanks(s[1..]);
    }
  }

  /** A board has eight tiles, so at most 28 inversions. */
  lemma InversionsOfBoard(s: seq<int>)
    requires IsBoard(s)
    ensures InversionCount(s) <= 28
  {
    TilesAndBlanks(s);
    BoardFacts(s);
    assert multiset(Goal)[0] == 1;
    assert Tiles(s) == 8;
    InversionsAtMostPairs(s);
  }

  /** Every legal path keeps the solvability verdict of the board it starts from. */
  lemma {:induction false} ReplayKeepsSolvability(s: seq<int>, p: seq<Action>)
    requires IsBoard(s)
    ensures Replay(s, p).Some? ==> IsSolvable(Replay(s, p).value) == IsSolvable(s)
    decreases |p|
  {
    if p != [] {
      ReplayKeepsSolvability(s, p[..|p| - 1]);
      var prev := Replay(s, p[..|p| - 1]);
      if prev.Some? && p[|p| - 1] in ValidActions(prev.value) {
        TransformKeepsSolvability(prev.value, p[|p| - 1]);
      }
    }
  }

  /** An unsolvable board never reaches the goal, whatever legal moves are played. */
  lemma UnsolvableNeverSolved(s: seq<int>, p: seq<Action>)
    requires IsBoard(s) && !IsSolvable(s)
    ensures Replay(s, p) != Some(Goal)
  {
    ReplayKeepsSolvability(s, p);
    GoalIsSolvable();
  }
}
