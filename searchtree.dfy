/**
 * The search tree: `Node` and its subclass `BoardNode` of 8puz.js and
 * 8-puzzle.js, folded into one class. A node's board, move label, parent and
 * depth never change after construction; only its list of children grows.
 */
module SearchTree {
  import opened Wrappers
  import opened Board
  import opened Heuristic

  /** `arrayEquals` / `arrayIsEqual`: same length and equal cell by cell, which is sequence equality. */
  predicate ArrayEquals(a: seq<int>, b: seq<int>)
    ensures ArrayEquals(a, b) <==> a == b
  {
    assert a[0..] == a && b[0..] == b;
    |a| == |b| && EveryFrom(a, b, 0)
  }

  /** `a.every((val, index) => val === b[index])`, from index `i` on: the two suffixes are equal. */
  predicate EveryFrom(a: seq<int>, b: seq<int>, i: nat)
    requires |a| == |b|
    ensures i <= |a| ==> (EveryFrom(a, b, i) <==> a[i..] == b[i..])
    decreases |a| - i
  {
    if i >= |a| then true
    else
      assert a[i..] == [a[i]] + a[i + 1..] && b[i..] == [b[i]] + b[i + 1..];
      a[i] == b[i] && EveryFrom(a, b, i + 1)
  }

  /** The `reverse` of a list. */
  function Reverse<T>(xs: seq<T>): (r: seq<T>)
    ensures |r| == |xs|
    ensures forall k :: 0 <= k < |xs| ==> r[k] == xs[|xs| - 1 - k]
  {
    if xs == [] then [] else Reverse(xs[1..]) + [xs[0]]
  }

  /** The move labels of a list of nodes, in order: `map((node) => node.action)`. */
  function Labels(ns: seq<BoardNode>): (r: seq<Option<Action>>)
    ensures |r| == |ns| && forall k :: 0 <= k < |ns| ==> r[k] == ns[k].action
  {
    if ns == [] then [] else [ns[0].action] + Labels(ns[1..])
  }

  /** Where an element of a sequence sits. */
  lemma Position<T>(xs: seq<T>, x: T) returns (k: int)
    requires x in xs
    ensures 0 <= k < |xs| && xs[k] == x
  {
    k :| 0 <= k < |xs| && xs[k] == x;
  }

  /** The boards held by a list of nodes. */
  ghost function StatesOf(ns: seq<BoardNode>): set<seq<int>>
  {
    set i | 0 <= i < |ns| :: ns[i].state
  }

  /** Children made one per valid move hold exactly the boards one move away. */
  lemma MovesReachChildren(s: seq<int>, moves: seq<Action>, ns: seq<BoardNode>)
    requires IsBoard(s) && moves == ValidActions(s) && |ns| == |moves|
    requires forall k :: 0 <= k < |ns| ==> ns[k].state == Transform(s, moves[k])
    ensures Successors(s) == StatesOf(ns)
  {
    MovedBoardsAreChildren(s, moves, ns);
    ChildrenAreMovedBoards(s, moves, ns);
  }

  lemma MovedBoardsAreChildren(s: seq<int>, moves: seq<Action>, ns: seq<BoardNode>)
    requires IsBoard(s) && (forall a :: a in moves ==> CanApply(s, a)) && |ns| == |moves|
    requires forall k :: 0 <= k < |ns| ==> ns[k].state == Transform(s, moves[k])
    ensures forall a :: a in moves ==> Transform(s, a) in StatesOf(ns)
  {
    forall a | a in moves
      ensures Transform(s, a) in StatesOf(ns)
    {
      var k := Position(moves, a);
      assert ns[k].state == Transform(s, a);
    }
  }

  lemma ChildrenAreMovedBoards(s: seq<int>, moves: seq<Action>, ns: seq<BoardNode>)
    requires IsBoard(s) && (forall a :: a in moves ==> CanApply(s, a)) && |ns| == |moves|
    requires forall k :: 0 <= k < |ns| ==> ns[k].state == Transform(s, moves[k])
    ensures forall t :: t in StatesOf(ns) ==> exists a :: a in moves && t == Transform(s, a)
  {
    forall t | t in StatesOf(ns)
      ensures exists a :: a in moves && t == Transform(s, a)
    {
      var k :| 0 <= k < |ns| && ns[k].state == t;
      assert moves[k] in moves;
    }
  }

  lemma StatesOfAppend(ns: seq<BoardNode>, n: BoardNode)
    ensures StatesOf(ns + [n]) == StatesOf(ns) + {n.state}
  {
    var ms := ns + [n];
    forall t | t in StatesOf(ms)
      ensures t in StatesOf(ns) + {n.state}
    {
      var i :| 0 <= i < |ms| && ms[i].state == t;
      if i < |ns| {
        assert ns[i] == ms[i];
      }
    }
    forall t | t in StatesOf(ns)
      ensures t in StatesOf(ms)
    {
      var i :| 0 <= i < |ns| && ns[i].state == t;
      assert ms[i] == ns[i];
    }
    assert ms[|ns|] == n;
  }

  /** The boards that `transform` makes from `s`, one per move, in order. */
  function MoveResults(s: seq<int>, moves: seq<Action>): (r: seq<seq<int>>)
    requires IsBoard(s) && forall a :: a in moves ==> CanApply(s, a)
    ensures |r| == |moves|
    decreases |moves|
  {
    if moves == [] then []
    else MoveResults(s, moves[..|moves| - 1]) + [Transform(s, moves[|moves| - 1])]
  }

  lemma {:induction false} MoveResultsAt(s: seq<int>, moves: seq<Action>, k: int)
    requires IsBoard(s) && forall a :: a in moves ==> CanApply(s, a)
    requires 0 <= k < |moves|
    ensures MoveResults(s, moves)[k] == Transform(s, moves[k])
    decreases |moves|
  {
    var init := moves[..|moves| - 1];
    assert MoveResults(s, moves) == MoveResults(s, init) + [Transform(s, moves[|moves| - 1])];
    if k < |moves| - 1 {
      assert init[k] == moves[k];
      MoveResultsAt(s, init, k);
    }
  }

  class BoardNode {
    const state: seq<int>
    const action: Option<Action>
    const parent: BoardNode?
    const depth: nat
    var nodes: seq<BoardNode>
    /** The board the node is compared with: the same goal for every node. */
    const goal: seq<int> := Goal

    /** `new BoardNode(state, action, parent, depth)`, with no children yet. */
    constructor (state: seq<int>, action: Option<Action>, parent: BoardNode?, depth: nat)
      ensures this.state == state && this.action == action
      ensures this.parent == parent && this.depth == depth
      ensures nodes == []
    {
      this.state := state;
      this.action := action;
      this.parent := parent;
      this.depth := depth;
      nodes := [];
    }

    /**
     * The node was built the way the search builds nodes: a board; a root has
     * depth 0 and no move; any other node is its parent's board after one of
     * the parent's valid moves, one level deeper.
     */
    ghost predicate Linked()
      decreases depth
    {
      Chain() && IsBoard(state) &&
      (parent != null ==>
        parent.Linked() && action.value in ValidActions(parent.state) &&
        state == Transform(parent.state, action.value))
    }

    /** The shape of the parent links: depth counts them, and only a root lacks a move. */
    ghost predicate Chain()
      decreases depth
    {
      if parent == null then
        depth == 0 && action == None
      else
        parent.depth + 1 == depth && action.Some? && parent.Chain()
    }

    /** `ns` are this node's children as `expand` makes them, one per valid move, in order. */
    ghost predicate ChildrenOk(ns: seq<BoardNode>)
      requires IsBoard(state)
    {
      var moves := ValidActions(state);
      |ns| == |moves| &&
      forall k :: 0 <= k < |ns| ==>
        ns[k].parent == this && ns[k].action == Some(moves[k]) &&
        ns[k].depth == depth + 1 && ns[k].state == Transform(state, moves[k])
    }

    /** A well-built node that is either unexpanded or holds exactly its expansion. */
    ghost predicate Valid()
      reads this
    {
      Linked() && (nodes == [] || ChildrenOk(nodes))
    }

    /** `addNode`: append a child. */
    method AddNode(node: BoardNode)
      modifies this
      ensures nodes == old(nodes) + [node]
    {
      nodes := nodes + [node];
    }

    /**
     * `expand`: on the first call, one fresh child per valid move, in the
     * order of `validActions`; later calls change nothing.
     */
    method Expand()
      requires Valid()
      modifies this
      ensures Valid() && nodes != []
      ensures old(nodes) != [] ==> nodes == old(nodes)
      ensures old(nodes) == [] ==> forall i :: 0 <= i < |nodes| ==> fresh(nodes[i]) && nodes[i].nodes == []
      ensures forall i :: 0 <= i < |nodes| ==> nodes[i].Linked() && nodes[i].Root() == Root()
      ensures Successors(state) == StatesOf(nodes)
    {
      if |nodes| == 0 {
        var actions := ValidActions(state);
        var newStates := MoveResults(state, actions);
        AddChildren(actions, newStates);
        ExpansionOk();
      }
      ChildrenLinked();
      ChildrenAreSuccessors();
    }

    /** Children built from the moves and the boards they lead to make this node valid and expanded. */
    lemma ExpansionOk()
      requires Linked()
      requires |nodes| == |ValidActions(state)|
      requires forall i :: 0 <= i < |nodes| ==> nodes[i].parent == this && nodes[i].depth == depth + 1
      requires forall i :: 0 <= i < |nodes| ==> nodes[i].action == Some(ValidActions(state)[i])
      requires forall i :: 0 <= i < |nodes| ==> nodes[i].state == MoveResults(state, ValidActions(state))[i]
      ensures Valid() && nodes != []
    {
      forall k | 0 <= k < |nodes|
        ensures nodes[k].state == Transform(state, ValidActions(state)[k])
      {
        MoveResultsAt(state, ValidActions(state), k);
      }
      assert ChildrenOk(nodes);
    }

    /** The children of an expanded node are well built and lead back to the same root. */
    lemma ChildrenLinked()
      requires Valid() && nodes != []
      ensures forall i :: 0 <= i < |nodes| ==> nodes[i].Linked() && nodes[i].Root() == Root()
    {
      var moves := ValidActions(state);
      forall i | 0 <= i < |nodes|
        ensures nodes[i].Linked()
      {
        assert moves[i] in moves;
      }
    }

    /** The boards of an expanded node's children are exactly the boards one move away. */
    lemma ChildrenAreSuccessors()
      requires Valid() && nodes != []
      ensures Successors(state) == StatesOf(nodes)
    {
      MovesReachChildren(state, ValidActions(state), nodes);
    }

    /** The loop of `expand`: a new child for each move and the board it leads to, added in order. */
    method AddChildren(actions: seq<Action>, newStates: seq<seq<int>>)
      requires nodes == [] && |newStates| == |actions|
      modifies this
      ensures |nodes| == |actions|
      ensures forall i :: 0 <= i < |nodes| ==> nodes[i].parent == this && nodes[i].depth == depth + 1
      ensures forall i :: 0 <= i < |nodes| ==> nodes[i].action == Some(actions[i])
      ensures forall i :: 0 <= i < |nodes| ==> nodes[i].state == newStates[i]
      ensures forall i :: 0 <= i < |nodes| ==> fresh(nodes[i]) && nodes[i].nodes == []
    {
      for k := 0 to |actions|
        invariant |nodes| == k
        invariant forall i :: 0 <= i < k ==> nodes[i].parent == this && nodes[i].depth == depth + 1
        invariant forall i :: 0 <= i < k ==> nodes[i].action == Some(actions[i])
        invariant forall i :: 0 <= i < k ==> nodes[i].state == newStates[i]
        invariant forall i :: 0 <= i < k ==> fresh(nodes[i]) && nodes[i].nodes == []
      {
        var newNode := new BoardNode(newStates[k], Some(actions[k]), this, depth + 1);
        AddNode(newNode);
      }
    }

    /** The chain from this node up to its root, this node first. */
    ghost function Ancestors(): (r: seq<BoardNode>)
      requires Chain()
      ensures |r| == depth + 1 && r[0] == this
      decreases depth
    {
      if parent == null then [this] else [this] + parent.Ancestors()
    }

    /**
     * Each ancestor is the parent of the one before it, one level shallower,
     * and the last one is a root: the depth counts the ancestors above a node.
     */
    lemma {:induction false} AncestorChain()
      requires Chain()
      ensures forall k :: 0 <= k < depth ==> Ancestors()[k].parent == Ancestors()[k + 1]
      ensures forall k :: 0 <= k <= depth ==> Ancestors()[k].depth == depth - k
      ensures Ancestors()[depth].parent == null
      decreases depth
    {
      if parent != null {
        parent.AncestorChain();
        var r, q := Ancestors(), parent.Ancestors();
        assert r == [this] + q;
        assert forall k :: 1 <= k <= depth ==> r[k] == q[k - 1];
      }
    }

    /** `iterateAncestors`: follow `parent` until `null`, collecting the nodes. */
    method IterateAncestors() returns (ancestors: seq<BoardNode>)
      requires Chain()
      ensures ancestors == Ancestors()
    {
      ancestors := [];
      var currentNode: BoardNode? := this;
      while currentNode != null
        invariant currentNode != null ==>
          currentNode.Chain() && ancestors + currentNode.Ancestors() == Ancestors()
        invariant currentNode == null ==> ancestors == Ancestors()
        decreases if currentNode == null then 0 else currentNode.depth + 1
      {
        ancestors := ancestors + [currentNode];
        currentNode := currentNode.parent;
      }
    }

    /** The root the parent links lead to. */
    ghost function Root(): (r: BoardNode)
      requires Chain()
      ensures r.parent == null && r.depth == 0
      decreases depth
    {
      if parent == null then this else parent.Root()
    }

    /** The root of a well-built node is well built, and so holds a board. */
    lemma {:induction false} RootLinked()
      requires Linked()
      ensures Root().Linked() && IsBoard(Root().state)
      decreases depth
    {
      if parent != null {
        parent.RootLinked();
      }
    }

    /** The moves that lead from the root to this node, first move first. */
    ghost function Path(): (p: seq<Action>)
      requires Chain()
      ensures |p| == depth
      decreases depth
    {
      if parent == null then [] else parent.Path() + [action.value]
    }

    /** Walking up the ancestors meets the path's moves last first. */
    lemma {:induction false} AncestorLabels()
      requires Chain()
      ensures forall k :: 0 <= k < depth ==> Ancestors()[k].action == Some(Path()[depth - 1 - k])
      ensures Ancestors()[depth].action == None
      decreases depth
    {
      if parent != null {
        parent.AncestorLabels();
      }
    }

    /** Replaying the path from the root rebuilds this node's board. */
    lemma {:induction false} ReplayPath()
      requires Linked()
      ensures IsBoard(Root().state) && Replay(Root().state, Path()) == Some(state)
      decreases depth
    {
      if parent != null {
        parent.ReplayPath();
        var p := Path();
        assert p[..|p| - 1] == parent.Path();
      }
    }

    /**
     * `actions` of 8puz.js: push every ancestor's label, drop the root's
     * (`pop`), then `reverse`.
     */
    method Actions() returns (path: seq<Action>)
      requires Chain()
      ensures path == Path()
    {
      var ancestors := IterateAncestors();
      AncestorLabels();
      var labels: seq<Option<Action>> := [];
      for i := 0 to |ancestors|
        invariant |labels| == i && forall k :: 0 <= k < i ==> labels[k] == ancestors[k].action
      {
        labels := labels + [ancestors[i].action];
      }
      labels := labels[..|labels| - 1];
      path := [];
      var i := |labels|;
      while i > 0
        invariant 0 <= i <= |labels|
        invariant |path| == |labels| - i
        invariant forall k :: 0 <= k < |path| ==> path[k] == Path()[k]
      {
        i := i - 1;
        path := path + [labels[i].value];
      }
    }

    /**
     * `actions` of 8-puzzle.js: the labels of the ancestors without the
     * root's (`slice(0, -1)`), reversed.
     */
    ghost function MappedActions(): (r: seq<Option<Action>>)
      requires Chain()
      ensures |r| == depth && forall k :: 0 <= k < depth ==> r[k] == Some(Path()[k])
    {
      var labels := Labels(Ancestors());
      AncestorLabels();
      Reverse(labels[..|labels| - 1])
    }

    /**
     * `cost`: the Manhattan distance of every cell, the blank included, plus
     * the depth. It is never below the depth, and equals it on the goal board only.
     */
    method Cost() returns (c: int)
      requires |state| == 9
      ensures c == ManhattanSum(state) + depth
      ensures IsBoard(state) ==> c >= depth && (c == depth <==> state == Goal)
    {
      var heuristicSum := 0;
      for i := 0 to |state|
        invariant heuristicSum == HeuristicUpTo(state, goal, i)
      {
        var item := state[i];
        var (currentX, currentY) := TranslateTo2D(i);
        var (goalX, goalY) := TranslateTo2D(IndexOf(goal, item));
        heuristicSum := heuristicSum + ManhattanDistance(currentX, currentY, goalX, goalY);
      }
      c := heuristicSum + depth;
      if IsBoard(state) {
        ManhattanZeroIffGoal(state);
      }
    }

    /** `isGoal`: the board equals the node's goal board. */
    predicate IsGoal()
      ensures IsGoal() <==> state == goal
    {
      ArrayEquals(state, goal)
    }
  }
}
