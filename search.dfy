/**
 * The search drivers: `BFS` of 8puz.js and of 8-puzzle.js, `ASTAR` of
 * 8-puzzle.js, and the two `solve` entry points. Both drivers pop a node,
 * mark its board explored, stop on the goal, and otherwise expand it and
 * enqueue each child whose board has not been explored yet; they differ only
 * in which node the frontier hands out next.
 */
module Search {
  import opened Wrappers
  import opened Board
  import opened Heuristic
  import opened Inversions
  import opened SearchTree

  /** What a driver of 8-puzzle.js returns on success: `[actions, nodesExpanded, maxSearchDepth]`. */
  datatype Outcome = Outcome(actions: seq<Action>, nodesExpanded: nat, maxSearchDepth: nat)

  // ---------------------------------------------------------------------------
  // Termination: the explored boards grow inside a finite set.

  /** All sequences of length `n` over 0..8. */
  ghost function Words(n: nat): set<seq<int>>
  {
    if n == 0 then {[]} else set x, w | 0 <= x < 9 && w in Words(n - 1) :: [x] + w
  }

  lemma {:induction false} InWords(w: seq<int>)
    requires forall i :: 0 <= i < |w| ==> 0 <= w[i] < 9
    ensures w in Words(|w|)
    decreases |w|
  {
    if |w| > 0 {
      InWords(w[1..]);
      assert w == [w[0]] + w[1..];
    }
  }

  /** A finite set holding every board. */
  lemma BoardUniverse() returns (universe: set<seq<int>>)
    ensures forall s {:trigger IsBoard(s)} :: IsBoard(s) ==> s in universe
  {
    universe := Words(9);
    forall s | IsBoard(s)
      ensures s in universe
    {
      BoardSize(s);
      BoardRange(s);
      InWords(s);
    }
  }

  /** Exploring a board not explored before leaves fewer unexplored boards. */
  lemma FewerUnexplored(universe: set<seq<int>>, explored0: set<seq<int>>, explored: set<seq<int>>)
    requires explored0 <= explored <= universe && explored0 != explored
    ensures universe - explored < universe - explored0
  {
    var t :| t in explored && t !in explored0;
    assert t in universe - explored0 && t !in universe - explored;
  }

  // ---------------------------------------------------------------------------
  // Facts about lists of nodes.

  /** No board appears twice among the nodes: each board differs from all the boards before it. */
  ghost predicate DistinctStates(ns: seq<BoardNode>)
    decreases |ns|
  {
    ns == [] || (DistinctStates(ns[..|ns| - 1]) && ns[|ns| - 1].state !in StatesOf(ns[..|ns| - 1]))
  }

  /** `DistinctStates` means that any two positions hold different boards. */
  lemma {:induction false} DistinctPairs(ns: seq<BoardNode>)
    requires DistinctStates(ns)
    ensures forall i, j :: 0 <= i < j < |ns| ==> ns[i].state != ns[j].state
    decreases |ns|
  {
    if ns != [] {
      var init := ns[..|ns| - 1];
      DistinctPairs(init);
      forall i, j | 0 <= i < j < |ns|
        ensures ns[i].state != ns[j].state
      {
        if j < |ns| - 1 {
          assert ns[i] == init[i] && ns[j] == init[j];
        } else {
          assert ns[i] == init[i];
          assert init[i].state in StatesOf(init);
        }
      }
    }
  }

  lemma DistinctAppend(ns: seq<BoardNode>, n: BoardNode)
    requires DistinctStates(ns) && n.state !in StatesOf(ns)
    ensures DistinctStates(ns + [n])
  {
    assert (ns + [n])[..|ns|] == ns;
  }

  /** The greatest depth among the nodes, 0 for none: what `maxSearchDepth` tracks. */
  function MaxDepth(ns: seq<BoardNode>): (r: nat)
    ensures forall i :: 0 <= i < |ns| ==> ns[i].depth <= r
    ensures ns == [] ==> r == 0
    ensures ns != [] ==> exists i :: 0 <= i < |ns| && ns[i].depth == r
    decreases |ns|
  {
    if ns == [] then 0
    else
      var m := MaxDepth(ns[..|ns| - 1]);
      if ns[|ns| - 1].depth > m then ns[|ns| - 1].depth else m
  }

  /** None of the nodes holds the goal board. */
  ghost predicate NoGoal(ns: seq<BoardNode>)
  {
    forall i :: 0 <= i < |ns| ==> ns[i].state != Goal
  }

  lemma NoGoalAppend(ns: seq<BoardNode>, node: BoardNode)
    requires NoGoal(ns) && node.state != Goal
    ensures NoGoal(ns + [node])
  {
  }

  /** Every board one move away from one of the nodes is explored. */
  ghost predicate Covered(ns: seq<BoardNode>, explored: set<seq<int>>)
    decreases |ns|
  {
    ns == [] ||
    (Covered(ns[..|ns| - 1], explored) &&
     IsBoard(ns[|ns| - 1].state) && Successors(ns[|ns| - 1].state) <= explored)
  }

  /** What `Covered` says about one node. */
  lemma {:induction false} CoveredAt(ns: seq<BoardNode>, explored: set<seq<int>>, i: int)
    requires Covered(ns, explored) && 0 <= i < |ns|
    ensures IsBoard(ns[i].state) && Successors(ns[i].state) <= explored
    decreases |ns|
  {
    if i < |ns| - 1 {
      CoveredAt(ns[..|ns| - 1], explored, i);
    }
  }

  /** Exploring more boards keeps the nodes covered. */
  lemma {:induction false} CoveredMore(ns: seq<BoardNode>, explored0: set<seq<int>>, explored: set<seq<int>>)
    requires Covered(ns, explored0) && explored0 <= explored
    ensures Covered(ns, explored)
    decreases |ns|
  {
    if ns != [] {
      CoveredMore(ns[..|ns| - 1], explored0, explored);
    }
  }

  /** Popping one more expanded node whose neighbours are all explored keeps the popped nodes covered. */
  lemma CoveredGrow(ns: seq<BoardNode>, node: BoardNode, explored0: set<seq<int>>, explored: set<seq<int>>)
    requires Covered(ns, explored0) && explored0 <= explored
    requires IsBoard(node.state) && Successors(node.state) <= explored
    ensures Covered(ns + [node], explored)
  {
    CoveredMore(ns, explored0, explored);
    assert (ns + [node])[..|ns|] == ns;
  }

  /** Every node lies in the tree. */
  ghost predicate InTree(ns: seq<BoardNode>, tree: set<BoardNode>)
  {
    forall i :: 0 <= i < |ns| ==> ns[i] in tree
  }

  lemma InTreeAppend(ns: seq<BoardNode>, added: seq<BoardNode>, children: seq<BoardNode>,
                     tree: set<BoardNode>, grown: set<BoardNode>)
    requires InTree(ns, tree) && tree <= grown && InTree(children, grown)
    requires forall j :: 0 <= j < |added| ==> added[j] in children
    ensures InTree(ns + added, grown)
  {
    forall i | |ns| <= i < |ns + added|
      ensures (ns + added)[i] in grown
    {
      var c := Position(children, added[i - |ns|]);
    }
  }

  lemma InTreeMember(ns: seq<BoardNode>, tree: set<BoardNode>, node: BoardNode)
    requires InTree(ns, tree) && node in ns
    ensures node in tree
  {
    var k := Position(ns, node);
  }

  /**
   * The tree the drivers grow: every node in it is valid and hangs from
   * `root`, and the children of each node are in it too. A node's validity is
   * looked at only where a proof names it.
   */
  ghost predicate Closed(tree: set<BoardNode>, root: BoardNode)
    reads tree
  {
    (forall n {:trigger n.Valid()} :: n in tree ==> n.Valid() && n.Root() == root) &&
    (forall n {:trigger InTree(n.nodes, tree)} :: n in tree ==> InTree(n.nodes, tree))
  }

  /** `kids` records, for each node of `tree`, the children it holds. */
  ghost predicate Mirrors(tree: set<BoardNode>, kids: map<BoardNode, seq<BoardNode>>)
    reads tree
  {
    kids.Keys == tree && forall n {:trigger kids[n]} :: n in tree ==> n.nodes == kids[n]
  }

  /** The children each node of `tree` holds. */
  ghost function Snapshot(tree: set<BoardNode>): (r: map<BoardNode, seq<BoardNode>>)
    reads tree
    ensures Mirrors(tree, r)
  {
    map n | n in tree :: n.nodes
  }

  /**
   * The record of held children once `node` holds `children`: a child not
   * recorded before holds none.
   */
  ghost function AfterExpand(kids: map<BoardNode, seq<BoardNode>>, node: BoardNode, children: seq<BoardNode>)
    : (r: map<BoardNode, seq<BoardNode>>)
    ensures r.Keys == kids.Keys + {node} + (set c | c in children)
    ensures r[node] == children
    ensures forall n :: n in kids && n != node ==> r[n] == kids[n]
    ensures forall n :: n in r && n !in kids ==> n == node || r[n] == []
  {
    (map c | c in children :: []) + kids[node := children]
  }

  /** A node of a closed tree is well built, on a board, under the tree's root. */
  lemma TreeNode(tree: set<BoardNode>, root: BoardNode, n: BoardNode)
    requires Closed(tree, root) && n in tree
    ensures n.Valid() && n.Linked() && IsBoard(n.state) && |n.state| == 9
    ensures n.Root() == root && IsBoard(root.state)
  {
    assert n.Valid();
    BoardSize(n.state);
    n.RootLinked();
  }

  /**
   * `expand` on a node of a closed tree: afterwards the node holds its
   * children, whose boards are the boards one move away, and the tree grown
   * by those children is closed again.
   */
  method ExpandInTree(node: BoardNode, ghost tree: set<BoardNode>, ghost root: BoardNode)
    returns (ghost grown: set<BoardNode>)
    requires node in tree && Closed(tree, root)
    modifies node
    ensures Closed(grown, root) && tree <= grown
    ensures forall n :: n in grown ==> n in tree || n in node.nodes
    ensures forall n :: n in grown && n !in tree ==> fresh(n)
    ensures node.nodes != [] && IsBoard(node.state) && Successors(node.state) == StatesOf(node.nodes)
    ensures node.ChildrenOk(node.nodes) && InTree(node.nodes, grown)
    ensures old(node.nodes) != [] ==> node.nodes == old(node.nodes)
    ensures forall n :: n in grown && n !in tree ==> n.nodes == []
  {
    ghost var before := node.nodes;
    assert InTree(before, tree);
    assert node.Valid();
    node.Expand();
    assert forall n {:trigger n.Valid()} :: n in tree ==> n.Valid() && n.Root() == root by {
      forall n | n in tree
        ensures n.Valid() && n.Root() == root
      {
        if n != node {
          assert old(n.Valid());
        }
      }
    }
    assert forall n :: n in tree && n != node ==> InTree(n.nodes, tree) by {
      forall n | n in tree && n != node
        ensures InTree(n.nodes, tree)
      {
        assert old(InTree(n.nodes, tree));
      }
    }
    if before != [] {
      grown := tree;
      assert InTree(node.nodes, tree);
      assert forall n :: n in grown ==> InTree(n.nodes, grown);
    } else {
      grown := tree + (set c | c in node.nodes);
      ChildrenValid(tree, root, node, grown);
      ChildrenInTree(tree, node, grown);
    }
  }

  /** Expanding `node` updates the record of held children as `AfterExpand` says. */
  lemma MirrorsAfter(tree: set<BoardNode>, grown: set<BoardNode>, kids: map<BoardNode, seq<BoardNode>>,
                     node: BoardNode)
    requires kids.Keys == tree && node in tree && tree <= grown && InTree(node.nodes, grown)
    requires forall n :: n in grown ==> n in tree || n in node.nodes
    requires forall n :: n in tree && n != node ==> n.nodes == kids[n]
    requires forall n :: n in grown && n !in tree ==> n.nodes == []
    ensures Mirrors(grown, AfterExpand(kids, node, node.nodes))
  {
  }

  /** The fresh, unexpanded children of a node of a closed tree are valid and hang from its root. */
  lemma ChildrenValid(tree: set<BoardNode>, root: BoardNode, node: BoardNode, grown: set<BoardNode>)
    requires grown == tree + (set c | c in node.nodes)
    requires forall n {:trigger n.Valid()} :: n in tree ==> n.Valid() && n.Root() == root
    requires forall i :: 0 <= i < |node.nodes| ==>
      node.nodes[i].Linked() && node.nodes[i].Root() == root && node.nodes[i].nodes == []
    ensures forall n {:trigger n.Valid()} :: n in grown ==> n.Valid() && n.Root() == root
  {
    forall n | n in grown && n !in tree
      ensures n.Valid() && n.Root() == root
    {
      var i := Position(node.nodes, n);
    }
  }

  /** Growing the tree by a node's unexpanded children keeps every node's children in the tree. */
  lemma ChildrenInTree(tree: set<BoardNode>, node: BoardNode, grown: set<BoardNode>)
    requires node in tree && grown == tree + (set c | c in node.nodes)
    requires forall n :: n in tree && n != node ==> InTree(n.nodes, tree)
    requires forall i :: 0 <= i < |node.nodes| ==> node.nodes[i].nodes == []
    ensures forall n {:trigger InTree(n.nodes, grown)} :: n in grown ==> InTree(n.nodes, grown)
    ensures InTree(node.nodes, grown)
  {
    forall n | n in grown
      ensures InTree(n.nodes, grown)
    {
      if n in tree && n != node {
        assert InTree(n.nodes, tree);
      } else if n !in tree {
        var i := Position(node.nodes, n);
      }
    }
  }

  /**
   * The neighbour loop that `BFS` and `ASTAR` share: each child whose board is
   * not explored yet is enqueued and its board marked explored, and
   * `maxSearchDepth` follows the deepest node enqueued. `enqueued` is every
   * node ever put on the frontier, the start first.
   */
  method EnqueueChildren(children: seq<BoardNode>, frontier: seq<BoardNode>, explored: set<seq<int>>,
                         maxSearchDepth: nat, ghost enqueued: seq<BoardNode>)
    returns (frontier': seq<BoardNode>, explored': set<seq<int>>, maxSearchDepth': nat,
             ghost enqueued': seq<BoardNode>, ghost added: seq<BoardNode>)
    requires |enqueued| > 0 && explored == StatesOf(enqueued) && DistinctStates(enqueued)
    requires maxSearchDepth == MaxDepth(enqueued[1..])
    ensures frontier' == frontier + added && enqueued' == enqueued + added
    ensures forall j :: 0 <= j < |added| ==> added[j] in children
    ensures added == NewChildren(children, explored)
    ensures explored' == explored + StatesOf(children)
    ensures explored' == StatesOf(enqueued') && DistinctStates(enqueued')
    ensures maxSearchDepth' == MaxDepth(enqueued'[1..])
    ensures explored' == explored ==> added == []
    ensures Enqueuing(children, |children|, frontier, explored, enqueued,
                      frontier', explored', maxSearchDepth', enqueued', added)
  {
    frontier', explored', maxSearchDepth', enqueued', added := frontier, explored, maxSearchDepth, enqueued, [];
    EnqueueStart(children, frontier, explored, maxSearchDepth, enqueued);
    for k := 0 to |children|
      invariant Enqueuing(children, k, frontier, explored, enqueued,
                          frontier', explored', maxSearchDepth', enqueued', added)
    {
      var neighbor := children[k];
      if neighbor.state !in explored' {
        EnqueueNew(children, k, frontier, explored, enqueued, frontier', explored', maxSearchDepth', enqueued', added);
        frontier' := frontier' + [neighbor];
        enqueued' := enqueued' + [neighbor];
        added := added + [neighbor];
        explored' := explored' + {neighbor.state};
        if neighbor.depth > maxSearchDepth' {
          maxSearchDepth' := neighbor.depth;
        }
      } else {
        EnqueueSkip(children, k, frontier, explored, enqueued, frontier', explored', maxSearchDepth', enqueued', added);
      }
    }
    EnqueueDone(children, frontier, explored, enqueued, frontier', explored', maxSearchDepth', enqueued', added);
  }

  /**
   * What the neighbour loop keeps after looking at the first `k` children:
   * the frontier and `enqueued` grew by `added`, children all; the explored
   * boards are those explored before plus the first `k` children's, and are
   * exactly the enqueued ones, none twice; the depth bound follows.
   */
  ghost predicate Enqueuing(children: seq<BoardNode>, k: int, frontier: seq<BoardNode>,
                            explored: set<seq<int>>, enqueued: seq<BoardNode>,
                            frontier': seq<BoardNode>, explored': set<seq<int>>, maxSearchDepth': nat,
                            enqueued': seq<BoardNode>, added: seq<BoardNode>)
  {
    0 <= k <= |children| && |enqueued| > 0 &&
    frontier' == frontier + added && enqueued' == enqueued + added &&
    (forall j :: 0 <= j < |added| ==> added[j] in children) &&
    added == NewChildren(children[..k], explored) &&
    explored' == explored + StatesOf(children[..k]) &&
    explored' == StatesOf(enqueued') && DistinctStates(enqueued') &&
    maxSearchDepth' == MaxDepth(enqueued'[1..]) &&
    (explored' == explored ==> added == [])
  }

  /**
   * The children the neighbour loop enqueues when `explored` holds the boards
   * seen before: in order, each child whose board is neither explored nor
   * held by an earlier child.
   */
  ghost function NewChildren(children: seq<BoardNode>, explored: set<seq<int>>): seq<BoardNode>
    decreases |children|
  {
    if children == [] then []
    else
      var init := children[..|children| - 1];
      var c := children[|children| - 1];
      NewChildren(init, explored) + (if c.state in explored + StatesOf(init) then [] else [c])
  }

  lemma EnqueueStart(children: seq<BoardNode>, frontier: seq<BoardNode>, explored: set<seq<int>>,
                     maxSearchDepth: nat, enqueued: seq<BoardNode>)
    requires |enqueued| > 0 && explored == StatesOf(enqueued) && DistinctStates(enqueued)
    requires maxSearchDepth == MaxDepth(enqueued[1..])
    ensures Enqueuing(children, 0, frontier, explored, enqueued, frontier, explored, maxSearchDepth, enqueued, [])
  {
    assert children[..0] == [];
    assert StatesOf([]) == {};
    assert frontier + [] == frontier && enqueued + [] == enqueued;
  }

  /** A child whose board is explored already is passed over. */
  lemma EnqueueSkip(children: seq<BoardNode>, k: int, frontier: seq<BoardNode>,
                    explored: set<seq<int>>, enqueued: seq<BoardNode>,
                    frontier': seq<BoardNode>, explored': set<seq<int>>, maxSearchDepth': nat,
                    enqueued': seq<BoardNode>, added: seq<BoardNode>)
    requires Enqueuing(children, k, frontier, explored, enqueued, frontier', explored', maxSearchDepth', enqueued', added)
    requires k < |children| && children[k].state in explored'
    ensures Enqueuing(children, k + 1, frontier, explored, enqueued, frontier', explored', maxSearchDepth', enqueued', added)
  {
    assert children[..k + 1] == children[..k] + [children[k]];
    assert children[..k + 1][..k] == children[..k];
    StatesOfAppend(children[..k], children[k]);
  }

  /** A child whose board is new is enqueued, its board marked explored, and the depth bound raised. */
  lemma EnqueueNew(children: seq<BoardNode>, k: int, frontier: seq<BoardNode>,
                   explored: set<seq<int>>, enqueued: seq<BoardNode>,
                   frontier': seq<BoardNode>, explored': set<seq<int>>, maxSearchDepth': nat,
                   enqueued': seq<BoardNode>, added: seq<BoardNode>)
    requires Enqueuing(children, k, frontier, explored, enqueued, frontier', explored', maxSearchDepth', enqueued', added)
    requires k < |children| && children[k].state !in explored'
    ensures Enqueuing(children, k + 1, frontier, explored, enqueued,
                      frontier' + [children[k]], explored' + {children[k].state},
                      if children[k].depth > maxSearchDepth' then children[k].depth else maxSearchDepth',
                      enqueued' + [children[k]], added + [children[k]])
  {
    var n := children[k];
    assert children[..k + 1] == children[..k] + [n];
    assert children[..k + 1][..k] == children[..k];
    StatesOfAppend(children[..k], n);
    StatesOfAppend(enqueued', n);
    DistinctAppend(enqueued', n);
    assert (enqueued' + [n])[1..] == enqueued'[1..] + [n];
    assert (enqueued' + [n])[1..][..|enqueued'| - 1] == enqueued'[1..];
    assert enqueued' + [n] == enqueued + (added + [n]);
    assert frontier' + [n] == frontier + (added + [n]);
  }

  lemma EnqueueDone(children: seq<BoardNode>, frontier: seq<BoardNode>,
                    explored: set<seq<int>>, enqueued: seq<BoardNode>,
                    frontier': seq<BoardNode>, explored': set<seq<int>>, maxSearchDepth': nat,
                    enqueued': seq<BoardNode>, added: seq<BoardNode>)
    requires Enqueuing(children, |children|, frontier, explored, enqueued,
                       frontier', explored', maxSearchDepth', enqueued', added)
    ensures frontier' == frontier + added && enqueued' == enqueued + added
    ensures forall j :: 0 <= j < |added| ==> added[j] in children
    ensures added == NewChildren(children, explored)
    ensures explored' == explored + StatesOf(children)
    ensures explored' == StatesOf(enqueued') && DistinctStates(enqueued')
    ensures maxSearchDepth' == MaxDepth(enqueued'[1..])
    ensures explored' == explored ==> added == []
  {
    assert children[..|children|] == children;
  }

  // ---------------------------------------------------------------------------
  // What both drivers keep between two pops.

  /**
   * `enqueued` lists every node ever put on the frontier, the start first,
   * no board twice, all in the tree; `popped` lists the nodes taken off the
   * frontier, the start first, none of them the goal, each with every
   * neighbouring board explored; before the first pop nothing is explored and
   * after it the explored boards are exactly the enqueued ones; and
   * `maxSearchDepth` is the greatest depth enqueued after the start.
   */
  ghost predicate SearchInvariant(start: BoardNode, enqueued: seq<BoardNode>, popped: seq<BoardNode>,
                                  explored: set<seq<int>>, maxSearchDepth: nat, tree: set<BoardNode>)
  {
    |enqueued| > 0 && enqueued[0] == start && DistinctStates(enqueued) && InTree(enqueued, tree) &&
    NoGoal(popped) && Covered(popped, explored) &&
    (popped != [] ==> popped[0] == start) &&
    (popped == [] ==> explored == {} && enqueued == [start]) &&
    (popped != [] ==> explored == StatesOf(enqueued)) &&
    maxSearchDepth == MaxDepth(enqueued[1..])
  }

  lemma InitialSearch(start: BoardNode, tree: set<BoardNode>)
    requires start in tree
    ensures SearchInvariant(start, [start], [], {}, 0, tree)
  {
    assert [start][1..] == [];
    assert MaxDepth([start][1..]) == 0;
    assert InTree([start], tree);
    assert NoGoal([]) && Covered([], {});
    assert [start][..0] == [];
    assert DistinctStates([start]);
  }

  /** Popping an enqueued node marks a board that is then exactly the enqueued boards. */
  lemma PopExplores(start: BoardNode, enqueued: seq<BoardNode>, popped: seq<BoardNode>,
                    explored: set<seq<int>>, node: BoardNode)
    requires |enqueued| > 0 && enqueued[0] == start && node in enqueued
    requires popped == [] ==> explored == {} && enqueued == [start]
    requires popped != [] ==> explored == StatesOf(enqueued)
    ensures explored + {node.state} == StatesOf(enqueued)
  {
    var k := Position(enqueued, node);
    assert enqueued[k].state in StatesOf(enqueued);
    if popped == [] {
      assert StatesOf([start]) == {start.state};
    }
  }

  /** The start is the goal only while nothing was popped, and then nothing deeper is enqueued. */
  lemma StartIsGoal(start: BoardNode, enqueued: seq<BoardNode>, popped: seq<BoardNode>,
                    explored: set<seq<int>>, maxSearchDepth: nat, tree: set<BoardNode>)
    requires SearchInvariant(start, enqueued, popped, explored, maxSearchDepth, tree)
    requires start.state == Goal
    ensures popped == [] && enqueued == [start] && maxSearchDepth == 0
  {
    assert enqueued[1..] == [];
  }

  /** The boards explored after an expansion are boards. */
  lemma ExploredAreBoards(universe: set<seq<int>>, explored0: set<seq<int>>, s: seq<int>,
                          next: set<seq<int>>, explored: set<seq<int>>)
    requires explored0 <= universe && forall t {:trigger IsBoard(t)} :: IsBoard(t) ==> t in universe
    requires IsBoard(s) && forall t :: t in next ==> IsBoard(t)
    requires explored == (explored0 + {s}) + next
    ensures explored <= universe
  {
    forall t | t in explored
      ensures t in universe
    {
      if t !in explored0 && t != s {
        assert IsBoard(t);
      }
    }
  }

  /**
   * One expansion step of either driver: `node`, an enqueued node that is not
   * the goal, was popped and expanded, and `added`, those of its children
   * whose boards were new, were enqueued. The invariant holds again with
   * `node` popped, and either fewer boards are left unexplored or nothing was
   * added.
   */
  lemma ExpansionStep(start: BoardNode, enqueued0: seq<BoardNode>, popped0: seq<BoardNode>,
                      explored0: set<seq<int>>, maxSearchDepth0: nat, tree0: set<BoardNode>,
                      node: BoardNode, tree: set<BoardNode>, frontier0: seq<BoardNode>,
                      frontier: seq<BoardNode>, added: seq<BoardNode>, enqueued: seq<BoardNode>,
                      explored: set<seq<int>>, maxSearchDepth: nat, universe: set<seq<int>>)
    requires SearchInvariant(start, enqueued0, popped0, explored0, maxSearchDepth0, tree0)
    requires explored0 <= universe && forall s {:trigger IsBoard(s)} :: IsBoard(s) ==> s in universe
    requires node in enqueued0 && node.state != Goal
    requires IsBoard(node.state) && Successors(node.state) == StatesOf(node.nodes)
    requires tree0 <= tree && InTree(node.nodes, tree)
    requires Enqueuing(node.nodes, |node.nodes|, frontier0, explored0 + {node.state}, enqueued0,
                       frontier, explored, maxSearchDepth, enqueued, added)
    ensures SearchInvariant(start, enqueued, popped0 + [node], explored, maxSearchDepth, tree)
    ensures explored <= universe
    ensures explored != explored0 ==> universe - explored < universe - explored0
    ensures explored == explored0 ==> added == []
  {
    PopExplores(start, enqueued0, popped0, explored0, node);
    assert node.nodes[..|node.nodes|] == node.nodes;
    InTreeAppend(enqueued0, added, node.nodes, tree0, tree);
    CoveredGrow(popped0, node, explored0, explored);
    NoGoalAppend(popped0, node);
    SuccessorsAreBoards(node.state);
    ExploredAreBoards(universe, explored0, node.state, StatesOf(node.nodes), explored);
    if popped0 == [] {
      assert enqueued0 == [start] && node == start;
      assert popped0 + [node] == [start];
    } else {
      assert (popped0 + [node])[0] == popped0[0] == start;
    }
    assert |enqueued| > 0 && enqueued[0] == start;
    if explored != explored0 {
      FewerUnexplored(universe, explored0, explored);
    }
  }

  /** Once every enqueued node is popped, the goal cannot be reached from the start. */
  lemma Exhausted(start: BoardNode, enqueued: seq<BoardNode>, popped: seq<BoardNode>,
                  explored: set<seq<int>>, maxSearchDepth: nat, tree: set<BoardNode>)
    requires SearchInvariant(start, enqueued, popped, explored, maxSearchDepth, tree)
    requires forall n :: n in enqueued ==> n in popped
    ensures IsBoard(start.state) && GoalUnreachable(start.state)
  {
    assert enqueued[0] in enqueued;
    assert enqueued[0].state in StatesOf(enqueued);
    Unreachable(start.state, enqueued, popped, explored);
  }

  /**
   * When every enqueued node was popped without being the goal and every
   * popped node had all its neighbours explored, the explored boards are
   * closed under moves and lack the goal: no sequence of moves from the start
   * reaches the goal.
   */
  lemma Unreachable(start: seq<int>, enqueued: seq<BoardNode>, popped: seq<BoardNode>, explored: set<seq<int>>)
    requires explored == StatesOf(enqueued) && start in explored
    requires forall n :: n in enqueued ==> n in popped
    requires Covered(popped, explored)
    requires NoGoal(popped)
    ensures IsBoard(start) && GoalUnreachable(start)
  {
    forall x | x in explored
      ensures IsBoard(x) && Successors(x) <= explored && x != Goal
    {
      var i :| 0 <= i < |enqueued| && enqueued[i].state == x;
      var j := Position(popped, enqueued[i]);
      CoveredAt(popped, explored, j);
    }
    assert ClosedUnderMoves(explored);
    forall p
      ensures Replay(start, p) != Some(Goal)
    {
      ReplayStaysInside(explored, start, p);
    }
  }

  /**
   * The part of an iteration that both drivers share once the popped `node`
   * turned out not to be the goal: expand it (`nodesExpanded` is counted by
   * the caller) and enqueue each child whose board is not explored yet.
   * `explored` already holds the popped board.
   */
  method ExpandAndEnqueue(node: BoardNode, frontier: seq<BoardNode>, explored: set<seq<int>>,
                          maxSearchDepth: nat, ghost enqueued: seq<BoardNode>,
                          ghost grown: set<BoardNode>, ghost root: BoardNode,
                          ghost kids: map<BoardNode, seq<BoardNode>>)
    returns (frontier': seq<BoardNode>, explored': set<seq<int>>, maxSearchDepth': nat,
             ghost enqueued': seq<BoardNode>, ghost added: seq<BoardNode>, ghost grown': set<BoardNode>)
    requires node in grown && Closed(grown, root) && Mirrors(grown, kids)
    requires |enqueued| > 0 && explored == StatesOf(enqueued) && DistinctStates(enqueued)
    requires maxSearchDepth == MaxDepth(enqueued[1..])
    modifies node
    ensures Closed(grown', root) && grown <= grown'
    ensures forall n :: n in grown' && n !in grown ==> fresh(n)
    ensures node.nodes != [] && IsBoard(node.state) && Successors(node.state) == StatesOf(node.nodes)
    ensures node.ChildrenOk(node.nodes) && InTree(node.nodes, grown')
    ensures old(node.nodes) != [] ==> node.nodes == old(node.nodes)
    ensures forall n :: n in grown' && n !in grown ==> n.nodes == []
    ensures Mirrors(grown', AfterExpand(kids, node, node.nodes))
    ensures added == NewChildren(node.nodes, explored)
    ensures Enqueuing(node.nodes, |node.nodes|, frontier, explored, enqueued,
                      frontier', explored', maxSearchDepth', enqueued', added)
  {
    grown' := ExpandInTree(node, grown, root);
    assert forall n :: n in grown && n != node ==> n.nodes == kids[n] by {
      forall n | n in grown && n != node
        ensures n.nodes == kids[n]
      {
        assert old(n.nodes) == kids[n];
      }
    }
    MirrorsAfter(grown, grown', kids, node);
    frontier', explored', maxSearchDepth', enqueued', added :=
      EnqueueChildren(node.nodes, frontier, explored, maxSearchDepth, enqueued);
  }

  // ---------------------------------------------------------------------------
  // The run a driver makes, as a function of the order in which it pops nodes.

  /**
   * Every node a driver enqueues when the nodes it pops, in that order, have
   * the child lists of `expansions`: the start, then for each expansion, in
   * turn, the children its neighbour loop enqueues, with the boards enqueued
   * before counting as explored.
   */
  ghost function Discovered(start: BoardNode, expansions: seq<seq<BoardNode>>): (r: seq<BoardNode>)
    ensures |r| > 0 && r[0] == start
    decreases |expansions|
  {
    if expansions == [] then [start]
    else
      var before := Discovered(start, expansions[..|expansions| - 1]);
      before + NewChildren(expansions[|expansions| - 1], StatesOf(before))
  }

  /** The popped nodes were expanded, in order, into the child lists of `expansions`, as `expand` makes them. */
  ghost predicate Expanded(popped: seq<BoardNode>, expansions: seq<seq<BoardNode>>)
  {
    |popped| == |expansions| &&
    forall i :: 0 <= i < |popped| ==> IsBoard(popped[i].state) && popped[i].ChildrenOk(expansions[i])
  }

  /** `enqueued` is what popping and expanding `popped` from `start` enqueues. */
  ghost predicate Traced(start: BoardNode, enqueued: seq<BoardNode>, popped: seq<BoardNode>,
                         expansions: seq<seq<BoardNode>>)
  {
    enqueued == Discovered(start, expansions) && Expanded(popped, expansions)
  }

  lemma InitialTrace(start: BoardNode)
    ensures Traced(start, [start], [], [])
  {
  }

  /** Expanding one more node and enqueuing its new children extends the run by one expansion. */
  lemma DiscoverStep(start: BoardNode, expansions0: seq<seq<BoardNode>>, enqueued0: seq<BoardNode>,
                     children: seq<BoardNode>, enqueued: seq<BoardNode>)
    requires enqueued0 == Discovered(start, expansions0)
    requires enqueued == enqueued0 + NewChildren(children, StatesOf(enqueued0))
    ensures enqueued == Discovered(start, expansions0 + [children])
  {
    var expansions := expansions0 + [children];
    assert expansions[..|expansions| - 1] == expansions0;
  }

  /**
   * The tree a run leaves behind, once it popped `popped`: each popped node
   * holds the children it was expanded into, and a node the run added to
   * `tree` holds none unless it was popped.
   */
  ghost predicate TreeAfter(tree: set<BoardNode>, grown: set<BoardNode>, popped: seq<BoardNode>,
                            expansions: seq<seq<BoardNode>>)
    reads grown, set i | 0 <= i < |popped| :: popped[i]
  {
    |popped| == |expansions| &&
    (forall i :: 0 <= i < |popped| ==> popped[i].nodes == expansions[i] && expansions[i] != []) &&
    (forall n :: n in grown && n !in tree && n !in popped ==> n.nodes == [])
  }

  /**
   * The same as a record of held children: `kids0` before the run, `kids`
   * after it. A node that held children keeps them, a popped node holds its
   * expansion, and every other node holds what it held before, or nothing if
   * the run added it.
   */
  ghost predicate Grew(kids0: map<BoardNode, seq<BoardNode>>, kids: map<BoardNode, seq<BoardNode>>,
                       popped: seq<BoardNode>, expansions: seq<seq<BoardNode>>)
  {
    |popped| == |expansions| && kids0.Keys <= kids.Keys &&
    (forall i :: 0 <= i < |popped| ==> popped[i] in kids && kids[popped[i]] == expansions[i] && expansions[i] != []) &&
    (forall n :: n in kids && n !in popped ==> kids[n] == (if n in kids0 then kids0[n] else [])) &&
    (forall n :: n in kids0 && kids0[n] != [] ==> kids[n] == kids0[n])
  }

  /** Before the first pop nothing has changed. */
  lemma InitialGrew(kids0: map<BoardNode, seq<BoardNode>>)
    ensures Grew(kids0, kids0, [], [])
  {
  }

  /**
   * Expanding `node` into `children`, which it already held if it held any,
   * extends the record.
   */
  lemma GrowStep(kids0: map<BoardNode, seq<BoardNode>>, kids: map<BoardNode, seq<BoardNode>>,
                 popped: seq<BoardNode>, expansions: seq<seq<BoardNode>>, node: BoardNode, children: seq<BoardNode>)
    requires Grew(kids0, kids, popped, expansions)
    requires node in kids && children != [] && (kids[node] != [] ==> children == kids[node])
    ensures Grew(kids0, AfterExpand(kids, node, children), popped + [node], expansions + [children])
  {
    var kids', popped', expansions' := AfterExpand(kids, node, children), popped + [node], expansions + [children];
    forall i | 0 <= i < |popped'|
      ensures popped'[i] in kids' && kids'[popped'[i]] == expansions'[i] && expansions'[i] != []
    {
      if i < |popped| && popped[i] == node {
        assert kids[node] == expansions[i];
      }
    }
  }

  /**
   * `expand` is idempotent from one pop to the next: a node popped for the
   * first time holds what it held when the run started, and keeps it, when
   * it was not empty, once it is popped and expanded.
   */
  lemma ExpandKeeps(kids0: map<BoardNode, seq<BoardNode>>, kids: map<BoardNode, seq<BoardNode>>,
                    kids': map<BoardNode, seq<BoardNode>>, popped: seq<BoardNode>,
                    expansions: seq<seq<BoardNode>>, node: BoardNode, children: seq<BoardNode>)
    requires Grew(kids0, kids, popped, expansions) && Grew(kids0, kids', popped + [node], expansions + [children])
    requires node in kids && node !in popped
    ensures node in kids' && (kids[node] != [] ==> kids'[node] == kids[node] && children == kids[node])
  {
    assert (popped + [node])[|popped|] == node;
  }

  /** The record read back as the nodes' own child lists. */
  lemma TreeFromKids(tree: set<BoardNode>, grown: set<BoardNode>, kids0: map<BoardNode, seq<BoardNode>>,
                     kids: map<BoardNode, seq<BoardNode>>, popped: seq<BoardNode>,
                     expansions: seq<seq<BoardNode>>)
    requires Mirrors(grown, kids) && Grew(kids0, kids, popped, expansions) && kids0.Keys == tree
    ensures TreeAfter(tree, grown, popped, expansions)
    ensures forall n :: n in tree && kids0[n] != [] ==> n.nodes == kids0[n]
    ensures forall n :: n in tree && n !in popped ==> n.nodes == kids0[n]
  {
  }

  /** Popping `node` and expanding it into its children extends the record of expansions. */
  lemma ExpandStep(popped0: seq<BoardNode>, expansions0: seq<seq<BoardNode>>, node: BoardNode,
                   children: seq<BoardNode>)
    requires Expanded(popped0, expansions0) && IsBoard(node.state) && node.ChildrenOk(children)
    ensures Expanded(popped0 + [node], expansions0 + [children])
  {
  }

  // ---------------------------------------------------------------------------
  // Breadth-first search.

  /**
   * What `BFS` keeps between two pops: the search invariant, with every node
   * ever enqueued either popped already or still queued, in order.
   */
  ghost predicate QueueInvariant(start: BoardNode, enqueued: seq<BoardNode>, popped: seq<BoardNode>,
                                 frontier: seq<BoardNode>, explored: set<seq<int>>, maxSearchDepth: nat,
                                 nodesExpanded: nat, tree: set<BoardNode>, universe: set<seq<int>>)
  {
    SearchInvariant(start, enqueued, popped, explored, maxSearchDepth, tree) &&
    enqueued == popped + frontier && nodesExpanded == |popped| && explored <= universe
  }

  /** The front of the queue is the first enqueued node not popped yet, and it may be expanded. */
  lemma QueueFront(start: BoardNode, enqueued: seq<BoardNode>, popped: seq<BoardNode>,
                   frontier: seq<BoardNode>, explored: set<seq<int>>, maxSearchDepth: nat,
                   nodesExpanded: nat, tree: set<BoardNode>, universe: set<seq<int>>)
    requires QueueInvariant(start, enqueued, popped, frontier, explored, maxSearchDepth, nodesExpanded, tree, universe)
    requires frontier != []
    ensures frontier[0] in enqueued && frontier[0] in tree
    ensures explored + {frontier[0].state} == StatesOf(enqueued) && DistinctStates(enqueued)
    ensures |enqueued| > 0 && maxSearchDepth == MaxDepth(enqueued[1..])
  {
    assert frontier[0] == enqueued[|popped|];
    PopExplores(start, enqueued, popped, explored, frontier[0]);
    InTreeMember(enqueued, tree, frontier[0]);
  }

  /**
   * The goal is popped: it is the node right after the `nodesExpanded`
   * popped ones, none of which was the goal; and if the start is the goal,
   * it is popped first with nothing expanded and nothing enqueued after it.
   */
  lemma QueueGoal(start: BoardNode, enqueued: seq<BoardNode>, popped: seq<BoardNode>,
                  frontier: seq<BoardNode>, explored: set<seq<int>>, maxSearchDepth: nat,
                  nodesExpanded: nat, tree: set<BoardNode>, universe: set<seq<int>>, node: BoardNode)
    requires QueueInvariant(start, enqueued, popped, frontier, explored, maxSearchDepth, nodesExpanded, tree, universe)
    requires frontier != [] && node == frontier[0] && node.state == Goal
    ensures |enqueued| > 0 && enqueued[0] == start && DistinctStates(enqueued) && InTree(enqueued, tree)
    ensures nodesExpanded <= |enqueued| && NoGoal(enqueued[..nodesExpanded])
    ensures maxSearchDepth == MaxDepth(enqueued[1..])
    ensures nodesExpanded < |enqueued| && node == enqueued[nodesExpanded] && node.state == Goal
    ensures enqueued[..nodesExpanded] == popped
    ensures start.state == Goal ==> node == start && nodesExpanded == 0 && maxSearchDepth == 0
  {
    assert enqueued[..|popped|] == popped;
    if start.state == Goal {
      StartIsGoal(start, enqueued, popped, explored, maxSearchDepth, tree);
    }
  }

  /**
   * The rest of a `BFS` iteration once the popped front turned out not to be
   * the goal: expand it and enqueue its new children at the back.
   */
  method QueueExpand(start: BoardNode, node: BoardNode, frontier: seq<BoardNode>, explored: set<seq<int>>,
                     maxSearchDepth: nat, ghost enqueued0: seq<BoardNode>, ghost popped0: seq<BoardNode>,
                     ghost frontier0: seq<BoardNode>, ghost explored0: set<seq<int>>, ghost nodesExpanded0: nat,
                     ghost grown: set<BoardNode>, ghost root: BoardNode, ghost universe: set<seq<int>>,
                     ghost kids0: map<BoardNode, seq<BoardNode>>, ghost kids: map<BoardNode, seq<BoardNode>>,
                     ghost expansions0: seq<seq<BoardNode>>)
    returns (frontier': seq<BoardNode>, explored': set<seq<int>>, maxSearchDepth': nat,
             ghost enqueued': seq<BoardNode>, ghost grown': set<BoardNode>, ghost kids': map<BoardNode, seq<BoardNode>>)
    requires QueueInvariant(start, enqueued0, popped0, frontier0, explored0, maxSearchDepth, nodesExpanded0, grown, universe)
    requires Closed(grown, root) && forall s {:trigger IsBoard(s)} :: IsBoard(s) ==> s in universe
    requires Mirrors(grown, kids) && Grew(kids0, kids, popped0, expansions0)
    requires frontier0 != [] && node == frontier0[0] && node.state != Goal
    requires frontier == frontier0[1..] && explored == explored0 + {node.state}
    modifies node
    ensures Closed(grown', root) && grown <= grown'
    ensures forall n :: n in grown' && n !in grown ==> fresh(n)
    ensures QueueInvariant(start, enqueued', popped0 + [node], frontier', explored', maxSearchDepth',
                           nodesExpanded0 + 1, grown', universe)
    ensures node.nodes != [] && enqueued' == enqueued0 + NewChildren(node.nodes, StatesOf(enqueued0))
    ensures IsBoard(node.state) && node.ChildrenOk(node.nodes)
    ensures old(node.nodes) != [] ==> node.nodes == old(node.nodes)
    ensures forall n :: n in grown' && n !in grown ==> n.nodes == []
    ensures Mirrors(grown', kids') && Grew(kids0, kids', popped0 + [node], expansions0 + [node.nodes])
    ensures explored' != explored0 ==> universe - explored' < universe - explored0
    ensures explored' == explored0 ==> |frontier'| < |frontier0|
  {
    QueueFront(start, enqueued0, popped0, frontier0, explored0, maxSearchDepth, nodesExpanded0, grown, universe);
    ghost var added;
    frontier', explored', maxSearchDepth', enqueued', added, grown' :=
      ExpandAndEnqueue(node, frontier, explored, maxSearchDepth, enqueued0, grown, root, kids);
    GrowStep(kids0, kids, popped0, expansions0, node, node.nodes);
    kids' := AfterExpand(kids, node, node.nodes);
    QueueAdvance(start, enqueued0, popped0, frontier0, explored0, maxSearchDepth, nodesExpanded0, grown, universe,
                 node, grown', frontier', added, enqueued', explored', maxSearchDepth');
  }

  /** Popping the front, expanding it and enqueueing the new children keeps the queue invariant. */
  lemma QueueAdvance(start: BoardNode, enqueued0: seq<BoardNode>, popped0: seq<BoardNode>,
                     frontier0: seq<BoardNode>, explored0: set<seq<int>>, maxSearchDepth0: nat,
                     nodesExpanded0: nat, tree0: set<BoardNode>, universe: set<seq<int>>,
                     node: BoardNode, tree: set<BoardNode>, frontier: seq<BoardNode>, added: seq<BoardNode>,
                     enqueued: seq<BoardNode>, explored: set<seq<int>>, maxSearchDepth: nat)
    requires QueueInvariant(start, enqueued0, popped0, frontier0, explored0, maxSearchDepth0, nodesExpanded0, tree0, universe)
    requires forall s {:trigger IsBoard(s)} :: IsBoard(s) ==> s in universe
    requires frontier0 != [] && node == frontier0[0] && node.state != Goal
    requires IsBoard(node.state) && Successors(node.state) == StatesOf(node.nodes)
    requires tree0 <= tree && InTree(node.nodes, tree)
    requires Enqueuing(node.nodes, |node.nodes|, frontier0[1..], explored0 + {node.state}, enqueued0,
                       frontier, explored, maxSearchDepth, enqueued, added)
    ensures QueueInvariant(start, enqueued, popped0 + [node], frontier, explored, maxSearchDepth,
                           nodesExpanded0 + 1, tree, universe)
    ensures explored != explored0 ==> universe - explored < universe - explored0
    ensures explored == explored0 ==> |frontier| < |frontier0|
  {
    assert node == enqueued0[|popped0|];
    ExpansionStep(start, enqueued0, popped0, explored0, maxSearchDepth0, tree0,
                  node, tree, frontier0[1..], frontier, added, enqueued, explored, maxSearchDepth, universe);
    QueueStep(enqueued0, popped0, frontier0, added);
  }

  /** Popping the front and appending at the back keeps `enqueued` split into popped and queued nodes. */
  lemma QueueStep(enqueued: seq<BoardNode>, popped: seq<BoardNode>, frontier: seq<BoardNode>, added: seq<BoardNode>)
    requires enqueued == popped + frontier && frontier != []
    ensures enqueued + added == (popped + [frontier[0]]) + (frontier[1..] + added)
  {
  }

  /** An empty queue: every enqueued node was popped, and the goal cannot be reached from the start. */
  lemma QueueExhausted(start: BoardNode, enqueued: seq<BoardNode>, popped: seq<BoardNode>,
                       explored: set<seq<int>>, maxSearchDepth: nat,
                       nodesExpanded: nat, tree: set<BoardNode>, universe: set<seq<int>>)
    requires QueueInvariant(start, enqueued, popped, [], explored, maxSearchDepth, nodesExpanded, tree, universe)
    ensures |enqueued| > 0 && enqueued[0] == start && DistinctStates(enqueued) && InTree(enqueued, tree)
    ensures nodesExpanded <= |enqueued| && NoGoal(enqueued[..nodesExpanded])
    ensures maxSearchDepth == MaxDepth(enqueued[1..])
    ensures nodesExpanded == |enqueued| && IsBoard(start.state) && GoalUnreachable(start.state)
    ensures enqueued[..nodesExpanded] == popped
    ensures start.state != Goal
  {
    assert enqueued == popped;
    assert enqueued[..|enqueued|] == enqueued;
    Exhausted(start, enqueued, popped, explored, maxSearchDepth, tree);
    assert Replay(start.state, []) == Some(start.state);
  }

  /**
   * `BFS` of 8puz.js: a first-in first-out frontier. The run is the one that
   * pops the enqueued nodes in the order they were enqueued: the first
   * `nodesExpanded` of them are popped and expanded, none of them the goal,
   * and the nodes enqueued are exactly those that popping them discovers, no
   * board twice. It returns the next one when that is the goal, or `null`
   * once every enqueued node was popped, and then no sequence of moves leads
   * from the start to the goal.
   */
  method BreadthFirst(start: BoardNode, ghost tree: set<BoardNode>, ghost root: BoardNode)
    returns (goalNode: BoardNode?, nodesExpanded: nat, maxSearchDepth: nat,
             ghost enqueued: seq<BoardNode>, ghost popped: seq<BoardNode>, ghost expansions: seq<seq<BoardNode>>,
             ghost grown: set<BoardNode>)
    requires start in tree && Closed(tree, root)
    modifies tree
    ensures Closed(grown, root) && tree <= grown
    ensures forall n :: n in grown && n !in tree ==> fresh(n)
    ensures |enqueued| > 0 && enqueued[0] == start && DistinctStates(enqueued) && InTree(enqueued, grown)
    ensures nodesExpanded == |expansions| <= |enqueued| && NoGoal(enqueued[..nodesExpanded])
    ensures Traced(start, enqueued, enqueued[..nodesExpanded], expansions)
    ensures maxSearchDepth == MaxDepth(enqueued[1..])
    ensures goalNode != null ==>
      nodesExpanded < |enqueued| && goalNode == enqueued[nodesExpanded] && goalNode.state == Goal
    ensures goalNode == null ==>
      nodesExpanded == |enqueued| && IsBoard(start.state) && GoalUnreachable(start.state)
    ensures start.state == Goal ==> goalNode == start && nodesExpanded == 0 && maxSearchDepth == 0
    ensures popped == enqueued[..nodesExpanded] && TreeAfter(tree, grown, popped, expansions)
    ensures forall n :: n in tree && old(n.nodes) != [] ==> n.nodes == old(n.nodes)
    ensures forall n :: n in tree && n !in popped ==> n.nodes == old(n.nodes)
  {
    grown := tree;
    goalNode := null;
    var frontier := [start];
    var explored: set<seq<int>> := {};
    nodesExpanded, maxSearchDepth := 0, 0;
    enqueued := [start];
    popped := [];
    expansions := [];
    ghost var kids0: map<BoardNode, seq<BoardNode>> := map n | n in tree :: n.nodes;
    ghost var kids := kids0;
    assert forall n :: n in tree ==> old(n.nodes) == kids0[n];
    InitialSearch(start, tree);
    InitialTrace(start);
    InitialGrew(kids0);
    ghost var universe := BoardUniverse();
    while |frontier| > 0
      invariant Closed(grown, root) && tree <= grown
      invariant forall n :: n in grown && n !in tree ==> fresh(n)
      // kept as one fact (not split into its conjuncts): the lemmas below take it whole
      invariant QueueInvariant(start, enqueued, popped, frontier, explored, maxSearchDepth, nodesExpanded, grown, universe) == true
      invariant enqueued == Discovered(start, expansions)
      invariant Expanded(popped, expansions)
      invariant Mirrors(grown, kids) == true && Grew(kids0, kids, popped, expansions) == true
      decreases universe - explored, |frontier|
    {
      ghost var enqueued0, popped0, frontier0, explored0 := enqueued, popped, frontier, explored;
      var node := frontier[0];
      QueueFront(start, enqueued, popped, frontier, explored, maxSearchDepth, nodesExpanded, grown, universe);
      frontier := frontier[1..];
      explored := explored + {node.state};
      if node.IsGoal() {
        QueueGoal(start, enqueued, popped, frontier0, explored0, maxSearchDepth, nodesExpanded, grown, universe, node);
        TreeFromKids(tree, grown, kids0, kids, popped, expansions);
        goalNode := node;
        return;
      }
      frontier, explored, maxSearchDepth, enqueued, grown, kids :=
        QueueExpand(start, node, frontier, explored, maxSearchDepth, enqueued, popped, frontier0, explored0,
                    nodesExpanded, grown, root, universe, kids0, kids, expansions);
      DiscoverStep(start, expansions, enqueued0, node.nodes, enqueued);
      ExpandStep(popped, expansions, node, node.nodes);
      nodesExpanded := nodesExpanded + 1;
      popped := popped + [node];
      expansions := expansions + [node.nodes];
    }
    QueueExhausted(start, enqueued, popped, explored, maxSearchDepth, nodesExpanded, grown, universe);
    TreeFromKids(tree, grown, kids0, kids, popped, expansions);
  }

  // ---------------------------------------------------------------------------
  // A* search.

  /** The value the comparator of `ASTAR` orders by: what `cost()` returns, the heuristic plus the depth. */
  function Priority(n: BoardNode): (p: int)
    requires |n.state| == 9
    ensures p >= n.depth
  {
    ManhattanSum(n.state) + n.depth
  }

  /** Every node on the frontier holds nine cells, so its cost is defined. */
  ghost predicate Sized(frontier: seq<BoardNode>)
  {
    forall i :: 0 <= i < |frontier| ==> |frontier[i].state| == 9
  }

  /** The node at `k` costs no more than any other node on the frontier: one the priority queue may hand out. */
  predicate IsCheapest(frontier: seq<BoardNode>, k: int)
    requires Sized(frontier)
  {
    0 <= k < |frontier| && forall i :: 0 <= i < |frontier| ==> Priority(frontier[k]) <= Priority(frontier[i])
  }

  /** A non-empty list of costs has a position holding the least of them. */
  lemma {:induction false} LeastAt(costs: seq<int>) returns (k: int)
    requires costs != []
    ensures 0 <= k < |costs| && forall i :: 0 <= i < |costs| ==> costs[k] <= costs[i]
    decreases |costs|
  {
    var last := |costs| - 1;
    if last == 0 {
      k := 0;
    } else {
      k := LeastAt(costs[..last]);
      assert forall i :: 0 <= i < last ==> costs[..last][i] == costs[i];
      if costs[last] < costs[k] {
        k := last;
      }
    }
  }

  /** A frontier that is not empty holds a cheapest node. */
  lemma CheapestExists(frontier: seq<BoardNode>)
    requires frontier != [] && Sized(frontier)
    ensures exists k :: 0 <= k < |frontier| && IsCheapest(frontier, k)
  {
    var costs := seq(|frontier|, i requires 0 <= i < |frontier| => Priority(frontier[i]));
    var k := LeastAt(costs);
    forall i | 0 <= i < |frontier|
      ensures Priority(frontier[k]) <= Priority(frontier[i])
    {
      assert costs[k] <= costs[i];
    }
    assert IsCheapest(frontier, k);
  }

  /**
   * What `ASTAR` keeps between two pops: the search invariant, with every
   * node ever enqueued either popped already or still on the frontier, once.
   */
  ghost predicate HeapInvariant(start: BoardNode, enqueued: seq<BoardNode>, popped: seq<BoardNode>,
                                frontier: seq<BoardNode>, explored: set<seq<int>>, maxSearchDepth: nat,
                                nodesExpanded: nat, tree: set<BoardNode>, universe: set<seq<int>>)
  {
    SearchInvariant(start, enqueued, popped, explored, maxSearchDepth, tree) &&
    multiset(enqueued) == multiset(popped) + multiset(frontier) &&
    nodesExpanded == |popped| && explored <= universe
  }

  /** The frontier holds nodes of the tree, and so boards, and one of them is cheapest. */
  lemma HeapBoards(start: BoardNode, enqueued: seq<BoardNode>, popped: seq<BoardNode>,
                   frontier: seq<BoardNode>, explored: set<seq<int>>, maxSearchDepth: nat,
                   nodesExpanded: nat, tree: set<BoardNode>, root: BoardNode, universe: set<seq<int>>)
    requires HeapInvariant(start, enqueued, popped, frontier, explored, maxSearchDepth, nodesExpanded, tree, universe)
    requires Closed(tree, root) && frontier != []
    ensures Sized(frontier) && exists k :: 0 <= k < |frontier| && IsCheapest(frontier, k)
  {
    PendingEnqueued(enqueued, popped, frontier);
    FrontierInTree(enqueued, frontier, tree);
    TreeSized(frontier, tree, root);
    CheapestExists(frontier);
  }

  /** Popped and pending nodes were all enqueued. */
  lemma PendingEnqueued(enqueued: seq<BoardNode>, popped: seq<BoardNode>, frontier: seq<BoardNode>)
    requires multiset(enqueued) == multiset(popped) + multiset(frontier)
    ensures multiset(popped) <= multiset(enqueued)
    ensures forall n :: n in frontier ==> n in enqueued
  {
    forall n | n in frontier
      ensures n in enqueued
    {
      assert n in multiset(enqueued);
    }
  }

  lemma FrontierInTree(enqueued: seq<BoardNode>, frontier: seq<BoardNode>, tree: set<BoardNode>)
    requires InTree(enqueued, tree) && forall n :: n in frontier ==> n in enqueued
    ensures InTree(frontier, tree)
  {
    forall i | 0 <= i < |frontier|
      ensures frontier[i] in tree
    {
      InTreeMember(enqueued, tree, frontier[i]);
    }
  }

  /** Nodes of a closed tree hold boards of nine cells. */
  lemma TreeSized(ns: seq<BoardNode>, tree: set<BoardNode>, root: BoardNode)
    requires InTree(ns, tree) && Closed(tree, root)
    ensures Sized(ns)
  {
    forall i | 0 <= i < |ns|
      ensures |ns[i].state| == 9
    {
      TreeNode(tree, root, ns[i]);
    }
  }

  /** A node on the frontier was enqueued, lies in the tree, and may be expanded. */
  lemma HeapPop(start: BoardNode, enqueued: seq<BoardNode>, popped: seq<BoardNode>,
                frontier: seq<BoardNode>, explored: set<seq<int>>, maxSearchDepth: nat,
                nodesExpanded: nat, tree: set<BoardNode>, universe: set<seq<int>>, k: int)
    requires HeapInvariant(start, enqueued, popped, frontier, explored, maxSearchDepth, nodesExpanded, tree, universe)
    requires 0 <= k < |frontier|
    ensures frontier[k] in enqueued && frontier[k] in tree
    ensures explored + {frontier[k].state} == StatesOf(enqueued) && DistinctStates(enqueued)
    ensures |enqueued| > 0 && maxSearchDepth == MaxDepth(enqueued[1..])
  {
    assert frontier[k] in multiset(enqueued);
    PopExplores(start, enqueued, popped, explored, frontier[k]);
    InTreeMember(enqueued, tree, frontier[k]);
  }

  /**
   * The goal is popped: it was enqueued, and none of the `nodesExpanded`
   * popped before it was the goal; if the start is the goal, it is popped
   * first with nothing expanded and nothing enqueued after it.
   */
  lemma HeapGoal(start: BoardNode, enqueued: seq<BoardNode>, popped: seq<BoardNode>,
                 frontier: seq<BoardNode>, explored: set<seq<int>>, maxSearchDepth: nat,
                 nodesExpanded: nat, tree: set<BoardNode>, universe: set<seq<int>>, k: int)
    requires HeapInvariant(start, enqueued, popped, frontier, explored, maxSearchDepth, nodesExpanded, tree, universe)
    requires 0 <= k < |frontier| && frontier[k].state == Goal
    ensures |enqueued| > 0 && enqueued[0] == start && DistinctStates(enqueued) && InTree(enqueued, tree)
    ensures nodesExpanded == |popped| && NoGoal(popped) && multiset(popped) <= multiset(enqueued)
    ensures maxSearchDepth == MaxDepth(enqueued[1..])
    ensures frontier[k] in enqueued
    ensures start.state == Goal ==> frontier[k] == start && nodesExpanded == 0 && maxSearchDepth == 0
  {
    PendingEnqueued(enqueued, popped, frontier);
    assert frontier[k] in frontier;
    if start.state == Goal {
      StartIsGoal(start, enqueued, popped, explored, maxSearchDepth, tree);
    }
  }

  /** Taking the node at `k` off the frontier and adding nodes to both lists keeps the count of pending nodes. */
  lemma PendingStep(enqueued: seq<BoardNode>, popped: seq<BoardNode>, frontier: seq<BoardNode>,
                    k: int, added: seq<BoardNode>)
    requires multiset(enqueued) == multiset(popped) + multiset(frontier) && 0 <= k < |frontier|
    ensures multiset(enqueued + added) ==
      multiset(popped + [frontier[k]]) + multiset((frontier[..k] + frontier[k + 1..]) + added)
  {
    assert frontier == frontier[..k] + [frontier[k]] + frontier[k + 1..];
  }

  /** `n` is pending, enqueued and not popped yet, and no pending node costs less. */
  ghost predicate LeastPending(enqueued: seq<BoardNode>, popped: seq<BoardNode>, n: BoardNode)
  {
    n in enqueued && n !in popped && |n.state| == 9 &&
    forall m {:trigger Priority(m)} :: m in enqueued && m !in popped ==> |m.state| == 9 && Priority(n) <= Priority(m)
  }

  /**
   * Every node of `popped` was, when it was popped, a pending node of least
   * cost, the nodes enqueued then being those discovered by the pops before it.
   */
  ghost predicate PoppedCheapest(start: BoardNode, expansions: seq<seq<BoardNode>>, popped: seq<BoardNode>)
  {
    |popped| == |expansions| &&
    forall i :: 0 <= i < |popped| ==> LeastPending(Discovered(start, expansions[..i]), popped[..i], popped[i])
  }

  /** Nodes holding different boards are different nodes: none is listed twice. */
  lemma {:induction false} AtMostOnce(ns: seq<BoardNode>, n: BoardNode)
    requires DistinctStates(ns)
    ensures multiset(ns)[n] <= 1
    decreases |ns|
  {
    if ns != [] {
      var init, last := ns[..|ns| - 1], ns[|ns| - 1];
      AtMostOnce(init, n);
      assert ns == init + [last];
      if last == n {
        forall j | 0 <= j < |init|
          ensures init[j] != n
        {
          assert init[j].state in StatesOf(init);
        }
      }
    }
  }

  /** A node still waiting on the frontier has not been popped. */
  lemma NotPopped(enqueued: seq<BoardNode>, popped: seq<BoardNode>, frontier: seq<BoardNode>, k: int)
    requires multiset(enqueued) == multiset(popped) + multiset(frontier) && DistinctStates(enqueued)
    requires 0 <= k < |frontier|
    ensures frontier[k] !in popped
  {
    var n := frontier[k];
    AtMostOnce(enqueued, n);
    assert n in multiset(frontier);
  }

  /** The node the priority queue hands out is a pending node of least cost. */
  lemma CheapestPending(enqueued: seq<BoardNode>, popped: seq<BoardNode>, frontier: seq<BoardNode>, k: int)
    requires multiset(enqueued) == multiset(popped) + multiset(frontier) && DistinctStates(enqueued)
    requires Sized(frontier) && IsCheapest(frontier, k)
    ensures LeastPending(enqueued, popped, frontier[k])
  {
    NotPopped(enqueued, popped, frontier, k);
    assert frontier[k] in multiset(enqueued);
    forall m | m in enqueued && m !in popped
      ensures |m.state| == 9 && Priority(frontier[k]) <= Priority(m)
    {
      assert m in multiset(enqueued);
      assert m in multiset(frontier);
      var i :| 0 <= i < |frontier| && frontier[i] == m;
    }
  }

  /** Popping a pending node of least cost extends a history of cheapest pops. */
  lemma CheapestAppend(start: BoardNode, expansions: seq<seq<BoardNode>>, popped: seq<BoardNode>,
                       node: BoardNode, children: seq<BoardNode>)
    requires PoppedCheapest(start, expansions, popped)
    requires LeastPending(Discovered(start, expansions), popped, node)
    ensures PoppedCheapest(start, expansions + [children], popped + [node])
  {
    var es, ps := expansions + [children], popped + [node];
    forall i | 0 <= i < |ps|
      ensures LeastPending(Discovered(start, es[..i]), ps[..i], ps[i])
    {
      if i < |popped| {
        assert es[..i] == expansions[..i] && ps[..i] == popped[..i];
      } else {
        assert es[..i] == expansions && ps[..i] == popped;
      }
    }
  }

  /**
   * The rest of an `ASTAR` iteration once the popped node turned out not to
   * be the goal: expand it and enqueue its new children.
   */
  method HeapExpand(start: BoardNode, node: BoardNode, frontier: seq<BoardNode>, explored: set<seq<int>>,
                    maxSearchDepth: nat, ghost enqueued0: seq<BoardNode>, ghost popped0: seq<BoardNode>,
                    ghost frontier0: seq<BoardNode>, ghost explored0: set<seq<int>>, ghost nodesExpanded0: nat,
                    ghost k: int, ghost grown: set<BoardNode>, ghost root: BoardNode, ghost universe: set<seq<int>>,
                    ghost kids0: map<BoardNode, seq<BoardNode>>, ghost kids: map<BoardNode, seq<BoardNode>>,
                    ghost expansions0: seq<seq<BoardNode>>)
    returns (frontier': seq<BoardNode>, explored': set<seq<int>>, maxSearchDepth': nat,
             ghost enqueued': seq<BoardNode>, ghost grown': set<BoardNode>, ghost kids': map<BoardNode, seq<BoardNode>>)
    requires HeapInvariant(start, enqueued0, popped0, frontier0, explored0, maxSearchDepth, nodesExpanded0, grown, universe)
    requires Closed(grown, root) && forall s {:trigger IsBoard(s)} :: IsBoard(s) ==> s in universe
    requires Mirrors(grown, kids) && Grew(kids0, kids, popped0, expansions0)
    requires enqueued0 == Discovered(start, expansions0) && Expanded(popped0, expansions0)
    requires PoppedCheapest(start, expansions0, popped0) && LeastPending(enqueued0, popped0, node)
    requires 0 <= k < |frontier0| && node == frontier0[k] && node.state != Goal
    requires frontier == frontier0[..k] + frontier0[k + 1..] && explored == explored0 + {node.state}
    modifies node
    ensures Closed(grown', root) && grown <= grown'
    ensures forall n :: n in grown' && n !in grown ==> fresh(n)
    ensures HeapInvariant(start, enqueued', popped0 + [node], frontier', explored', maxSearchDepth',
                          nodesExpanded0 + 1, grown', universe)
    ensures enqueued' == Discovered(start, expansions0 + [node.nodes])
    ensures Expanded(popped0 + [node], expansions0 + [node.nodes])
    ensures PoppedCheapest(start, expansions0 + [node.nodes], popped0 + [node])
    ensures Mirrors(grown', kids') && Grew(kids0, kids', popped0 + [node], expansions0 + [node.nodes])
    ensures explored' != explored0 ==> universe - explored' < universe - explored0
    ensures explored' == explored0 ==> |frontier'| < |frontier0|
  {
    HeapPop(start, enqueued0, popped0, frontier0, explored0, maxSearchDepth, nodesExpanded0, grown, universe, k);
    ghost var added;
    frontier', explored', maxSearchDepth', enqueued', added, grown' :=
      ExpandAndEnqueue(node, frontier, explored, maxSearchDepth, enqueued0, grown, root, kids);
    GrowStep(kids0, kids, popped0, expansions0, node, node.nodes);
    DiscoverStep(start, expansions0, enqueued0, node.nodes, enqueued');
    ExpandStep(popped0, expansions0, node, node.nodes);
    CheapestAppend(start, expansions0, popped0, node, node.nodes);
    kids' := AfterExpand(kids, node, node.nodes);
    HeapAdvance(start, enqueued0, popped0, frontier0, explored0, maxSearchDepth, nodesExpanded0, grown, universe,
                k, grown', frontier', added, enqueued', explored', maxSearchDepth');
  }

  /** Popping a frontier node, expanding it and enqueueing the new children keeps the heap invariant. */
  lemma HeapAdvance(start: BoardNode, enqueued0: seq<BoardNode>, popped0: seq<BoardNode>,
                    frontier0: seq<BoardNode>, explored0: set<seq<int>>, maxSearchDepth0: nat,
                    nodesExpanded0: nat, tree0: set<BoardNode>, universe: set<seq<int>>,
                    k: int, tree: set<BoardNode>, frontier: seq<BoardNode>, added: seq<BoardNode>,
                    enqueued: seq<BoardNode>, explored: set<seq<int>>, maxSearchDepth: nat)
    requires HeapInvariant(start, enqueued0, popped0, frontier0, explored0, maxSearchDepth0, nodesExpanded0, tree0, universe)
    requires forall s {:trigger IsBoard(s)} :: IsBoard(s) ==> s in universe
    requires 0 <= k < |frontier0| && frontier0[k].state != Goal
    requires IsBoard(frontier0[k].state) && Successors(frontier0[k].state) == StatesOf(frontier0[k].nodes)
    requires tree0 <= tree && InTree(frontier0[k].nodes, tree)
    requires Enqueuing(frontier0[k].nodes, |frontier0[k].nodes|, frontier0[..k] + frontier0[k + 1..],
                       explored0 + {frontier0[k].state}, enqueued0, frontier, explored, maxSearchDepth, enqueued, added)
    ensures HeapInvariant(start, enqueued, popped0 + [frontier0[k]], frontier, explored, maxSearchDepth,
                          nodesExpanded0 + 1, tree, universe)
    ensures explored != explored0 ==> universe - explored < universe - explored0
    ensures explored == explored0 ==> |frontier| < |frontier0|
  {
    var node := frontier0[k];
    assert node in multiset(enqueued0);
    ExpansionStep(start, enqueued0, popped0, explored0, maxSearchDepth0, tree0,
                  node, tree, frontier0[..k] + frontier0[k + 1..], frontier, added, enqueued, explored,
                  maxSearchDepth, universe);
    PendingStep(enqueued0, popped0, frontier0, k, added);
  }

  /** An empty frontier: every enqueued node was popped, and the goal cannot be reached from the start. */
  lemma HeapExhausted(start: BoardNode, enqueued: seq<BoardNode>, popped: seq<BoardNode>,
                      explored: set<seq<int>>, maxSearchDepth: nat, nodesExpanded: nat,
                      tree: set<BoardNode>, universe: set<seq<int>>)
    requires HeapInvariant(start, enqueued, popped, [], explored, maxSearchDepth, nodesExpanded, tree, universe)
    ensures |enqueued| > 0 && enqueued[0] == start && DistinctStates(enqueued) && InTree(enqueued, tree)
    ensures nodesExpanded == |popped| && NoGoal(popped) && multiset(popped) == multiset(enqueued)
    ensures maxSearchDepth == MaxDepth(enqueued[1..])
    ensures IsBoard(start.state) && GoalUnreachable(start.state)
    ensures start.state != Goal
  {
    forall n | n in enqueued
      ensures n in popped
    {
      assert n in multiset(enqueued);
    }
    Exhausted(start, enqueued, popped, explored, maxSearchDepth, tree);
    assert Replay(start.state, []) == Some(start.state);
  }

  /**
   * The loop of `ASTAR` in 8-puzzle.js: the frontier hands out a node of
   * least cost. The nodes enqueued are exactly those that popping and
   * expanding the `nodesExpanded` nodes of `popped`, in that order,
   * discovers, no board twice; each of them, and the goal node returned,
   * was a pending node of least cost when it was popped, and none of them
   * was the goal. It returns the first goal node popped, or `null` once
   * every enqueued node was popped, and then no sequence of moves leads
   * from the start to the goal.
   */
  method BestFirst(start: BoardNode, ghost tree: set<BoardNode>, ghost root: BoardNode)
    returns (goalNode: BoardNode?, nodesExpanded: nat, maxSearchDepth: nat,
             ghost enqueued: seq<BoardNode>, ghost popped: seq<BoardNode>,
             ghost expansions: seq<seq<BoardNode>>, ghost grown: set<BoardNode>,
             ghost kids0: map<BoardNode, seq<BoardNode>>, ghost kids: map<BoardNode, seq<BoardNode>>)
    requires start in tree && Closed(tree, root)
    modifies tree
    ensures Closed(grown, root) && tree <= grown
    ensures forall n :: n in grown && n !in tree ==> fresh(n)
    ensures |enqueued| > 0 && enqueued[0] == start && DistinctStates(enqueued) && InTree(enqueued, grown)
    ensures nodesExpanded == |popped| && NoGoal(popped) && multiset(popped) <= multiset(enqueued)
    ensures Traced(start, enqueued, popped, expansions) && PoppedCheapest(start, expansions, popped)
    ensures maxSearchDepth == MaxDepth(enqueued[1..])
    ensures goalNode != null ==>
      goalNode in enqueued && goalNode.state == Goal && LeastPending(enqueued, popped, goalNode)
    ensures goalNode == null ==>
      multiset(popped) == multiset(enqueued) && IsBoard(start.state) &&
      GoalUnreachable(start.state)
    ensures start.state == Goal ==> goalNode == start && nodesExpanded == 0 && maxSearchDepth == 0
    ensures kids0 == old(Snapshot(tree))
    ensures Mirrors(grown, kids) == true && Grew(kids0, kids, popped, expansions) == true
  {
    grown := tree;
    goalNode := null;
    var frontier := [start];
    var explored: set<seq<int>> := {};
    nodesExpanded, maxSearchDepth := 0, 0;
    enqueued := [start];
    popped, expansions := [], [];
    kids0 := Snapshot(tree);
    kids := kids0;
    InitialSearch(start, tree);
    InitialTrace(start);
    InitialGrew(kids0);
    ghost var universe := BoardUniverse();
    while |frontier| > 0
      invariant Closed(grown, root) && tree <= grown
      invariant forall n :: n in grown && n !in tree ==> fresh(n)
      // kept as one fact (not split into its conjuncts): the lemmas below take it whole
      invariant HeapInvariant(start, enqueued, popped, frontier, explored, maxSearchDepth, nodesExpanded, grown, universe) == true
      invariant enqueued == Discovered(start, expansions)
      invariant Expanded(popped, expansions)
      invariant PoppedCheapest(start, expansions, popped) == true
      invariant Mirrors(grown, kids) == true && Grew(kids0, kids, popped, expansions) == true
      decreases universe - explored, |frontier|
    {
      ghost var enqueued0, frontier0, explored0 := enqueued, frontier, explored;
      HeapBoards(start, enqueued, popped, frontier, explored, maxSearchDepth, nodesExpanded, grown, root, universe);
      var k :| 0 <= k < |frontier| && IsCheapest(frontier, k);
      var node := frontier[k];
      HeapPop(start, enqueued, popped, frontier, explored, maxSearchDepth, nodesExpanded, grown, universe, k);
      CheapestPending(enqueued, popped, frontier, k);
      frontier := frontier[..k] + frontier[k + 1..];
      explored := explored + {node.state};
      if node.IsGoal() {
        HeapGoal(start, enqueued, popped, frontier0, explored0, maxSearchDepth, nodesExpanded, grown, universe, k);
        goalNode := node;
        return;
      }
      frontier, explored, maxSearchDepth, enqueued, grown, kids :=
        HeapExpand(start, node, frontier, explored, maxSearchDepth, enqueued, popped, frontier0, explored0,
                   nodesExpanded, k, grown, root, universe, kids0, kids, expansions);
      nodesExpanded := nodesExpanded + 1;
      popped := popped + [node];
      expansions := expansions + [node.nodes];
    }
    HeapExhausted(start, enqueued, popped, explored, maxSearchDepth, nodesExpanded, grown, universe);
  }

  // ---------------------------------------------------------------------------
  // What the drivers of 8-puzzle.js return, and the two `solve` entry points.

  /**
   * The moves from the tree's root to a goal node of the tree, as `actions`
   * lists them: replaying them from the root's board reaches the goal.
   */
  method GoalActions(goalNode: BoardNode, ghost tree: set<BoardNode>, ghost root: BoardNode)
    returns (actions: seq<Action>)
    requires goalNode in tree && Closed(tree, root) && goalNode.state == Goal
    ensures IsBoard(root.state) && Replay(root.state, actions) == Some(Goal)
    ensures |actions| == goalNode.depth
    ensures goalNode == root ==> actions == []
  {
    TreeNode(tree, root, goalNode);
    actions := goalNode.Actions();
    goalNode.ReplayPath();
  }

  /**
   * The `return` of a driver: `[node.actions(), nodesExpanded, maxSearchDepth]`
   * for a goal node, the moves replaying from the tree's root to the goal,
   * one per level of the goal node; nothing when there is no goal node.
   */
  method Answer(goalNode: BoardNode?, nodesExpanded: nat, maxSearchDepth: nat,
                ghost tree: set<BoardNode>, ghost root: BoardNode)
    returns (result: Option<Outcome>)
    requires Closed(tree, root) && (goalNode != null ==> goalNode in tree && goalNode.state == Goal)
    ensures Closed(tree, root)
    ensures result.None? <==> goalNode == null
    ensures result.Some? ==>
      IsBoard(root.state) && Replay(root.state, result.value.actions) == Some(Goal) &&
      |result.value.actions| == goalNode.depth &&
      result.value.nodesExpanded == nodesExpanded && result.value.maxSearchDepth == maxSearchDepth
    ensures goalNode == root ==> result == Some(Outcome([], nodesExpanded, maxSearchDepth))
  {
    if goalNode == null {
      result := None;
    } else {
      var actions := GoalActions(goalNode, tree, root);
      result := Some(Outcome(actions, nodesExpanded, maxSearchDepth));
    }
  }

  /**
   * `ASTAR` of 8-puzzle.js: `[actions, nodesExpanded, maxSearchDepth]` for
   * the first goal node popped, the moves counted from the tree's root, or
   * nothing when the goal cannot be reached from the start. The counts are
   * those of the run: `nodesExpanded` nodes popped and expanded, each a
   * pending node of least cost, and `maxSearchDepth` the deepest node
   * enqueued after the start; the goal node was a pending node of least
   * cost too, as deep as the moves are many.
   */
  method AStar(start: BoardNode, ghost tree: set<BoardNode>, ghost root: BoardNode)
    returns (result: Option<Outcome>, ghost goalNode: BoardNode?, ghost enqueued: seq<BoardNode>,
             ghost popped: seq<BoardNode>, ghost expansions: seq<seq<BoardNode>>, ghost grown: set<BoardNode>)
    requires start in tree && Closed(tree, root)
    modifies tree
    ensures Closed(grown, root) && tree <= grown
    ensures forall n :: n in grown && n !in tree ==> fresh(n)
    ensures IsBoard(root.state) && IsBoard(start.state)
    ensures Traced(start, enqueued, popped, expansions) && PoppedCheapest(start, expansions, popped)
    ensures NoGoal(popped) && DistinctStates(enqueued)
    ensures result.Some? ==> Replay(root.state, result.value.actions) == Some(Goal)
    ensures result.Some? ==>
      result.value.nodesExpanded == |popped| && result.value.maxSearchDepth == MaxDepth(enqueued[1..]) &&
      goalNode != null && goalNode.state == Goal && goalNode.depth == |result.value.actions|
    ensures goalNode != null ==> LeastPending(enqueued, popped, goalNode) == true
    ensures result.None? ==> multiset(popped) == multiset(enqueued) && GoalUnreachable(start.state)
    ensures start.state == Goal && start == root ==> result == Some(Outcome([], 0, 0))
    ensures TreeAfter(tree, grown, popped, expansions)
    ensures forall n :: n in tree && old(n.nodes) != [] ==> n.nodes == old(n.nodes)
    ensures forall n :: n in tree && n !in popped ==> n.nodes == old(n.nodes)
  {
    TreeNode(tree, root, start);
    var found, nodesExpanded, maxSearchDepth;
    ghost var kids0, kids;
    found, nodesExpanded, maxSearchDepth, enqueued, popped, expansions, grown, kids0, kids := BestFirst(start, tree, root);
    assert forall n :: n in tree ==> old(n.nodes) == kids0[n];
    TreeFromKids(tree, grown, kids0, kids, popped, expansions);
    goalNode := found;
    if found != null {
      InTreeMember(enqueued, grown, found);
    }
    result := Answer(found, nodesExpanded, maxSearchDepth, grown, root);
  }

  /**
   * `BFS` of 8-puzzle.js: the same as `ASTAR`, with a first-in first-out
   * frontier: the `nodesExpanded` nodes popped and expanded are the first
   * ones enqueued, in order, and the goal node is the next one.
   */
  method Bfs(start: BoardNode, ghost tree: set<BoardNode>, ghost root: BoardNode)
    returns (result: Option<Outcome>, ghost enqueued: seq<BoardNode>, ghost popped: seq<BoardNode>,
             ghost expansions: seq<seq<BoardNode>>, ghost grown: set<BoardNode>)
    requires start in tree && Closed(tree, root)
    modifies tree
    ensures Closed(grown, root) && tree <= grown
    ensures forall n :: n in grown && n !in tree ==> fresh(n)
    ensures IsBoard(root.state) && IsBoard(start.state)
    ensures |expansions| <= |enqueued| && Traced(start, enqueued, enqueued[..|expansions|], expansions)
    ensures NoGoal(enqueued[..|expansions|]) && DistinctStates(enqueued)
    ensures result.Some? ==> Replay(root.state, result.value.actions) == Some(Goal)
    ensures result.Some? ==>
      result.value.nodesExpanded == |expansions| < |enqueued| &&
      result.value.maxSearchDepth == MaxDepth(enqueued[1..]) &&
      enqueued[|expansions|].state == Goal && enqueued[|expansions|].depth == |result.value.actions|
    ensures result.None? ==> |expansions| == |enqueued| && GoalUnreachable(start.state)
    ensures start.state == Goal && start == root ==> result == Some(Outcome([], 0, 0))
    ensures popped == enqueued[..|expansions|] && TreeAfter(tree, grown, popped, expansions)
    ensures forall n :: n in tree && old(n.nodes) != [] ==> n.nodes == old(n.nodes)
    ensures forall n :: n in tree && n !in popped ==> n.nodes == old(n.nodes)
  {
    TreeNode(tree, root, start);
    var goalNode, nodesExpanded, maxSearchDepth;
    goalNode, nodesExpanded, maxSearchDepth, enqueued, popped, expansions, grown := BreadthFirst(start, tree, root);
    if goalNode != null {
      InTreeMember(enqueued, grown, goalNode);
    }
    result := Answer(goalNode, nodesExpanded, maxSearchDepth, grown, root);
  }

  /** A lone root holding a board is a closed tree. */
  lemma RootAlone(root: BoardNode)
    requires root.parent == null && root.depth == 0 && root.action == None
    requires IsBoard(root.state) && root.nodes == []
    ensures Closed({root}, root)
  {
    assert root.Linked();
    assert root.Valid();
    assert InTree(root.nodes, {root});
  }

  /**
   * `solve` of 8-puzzle.js: run `ASTAR` and then `BFS` from a new root
   * holding the board; `BFS` reuses the children `ASTAR` already made. Each
   * result, when there is one, is a sequence of moves that leads from the
   * board to the goal; each is missing exactly when no sequence of moves
   * does, as for every board of odd inversion parity.
   */
  method Solve(state: seq<int>) returns (astar: Option<Outcome>, bfs: Option<Outcome>)
    requires IsBoard(state)
    ensures astar.Some? ==> Replay(state, astar.value.actions) == Some(Goal)
    ensures bfs.Some? ==> Replay(state, bfs.value.actions) == Some(Goal)
    ensures astar.None? <==> GoalUnreachable(state)
    ensures bfs.None? <==> GoalUnreachable(state)
    ensures state == Goal ==> astar == Some(Outcome([], 0, 0)) && bfs == Some(Outcome([], 0, 0))
    ensures !IsSolvable(state) ==> astar == None && bfs == None
  {
    var initialState := new BoardNode(state, None, null, 0);
    RootAlone(initialState);
    ghost var goalNode, enqueued, popped, expansions, grown, regrown;
    astar, goalNode, enqueued, popped, expansions, grown := AStar(initialState, {initialState}, initialState);
    bfs, enqueued, popped, expansions, regrown := Bfs(initialState, grown, initialState);
    Answered(state, astar);
    Answered(state, bfs);
  }

  /**
   * A driver's answer for a board: moves that reach the goal when there is
   * one, and none only when no moves do. Then there is none exactly when no
   * moves reach the goal, and none for a board of odd inversion parity.
   */
  lemma Answered(state: seq<int>, result: Option<Outcome>)
    requires IsBoard(state)
    requires result.Some? ==> Replay(state, result.value.actions) == Some(Goal)
    requires result.None? ==> GoalUnreachable(state)
    ensures result.None? <==> GoalUnreachable(state)
    ensures !IsSolvable(state) ==> result == None
  {
    if !IsSolvable(state) && result.Some? {
      UnsolvableNeverSolved(state, result.value.actions);
    }
  }

  /**
   * `solve` of 8puz.js: `BFS` from a new root holding the board, then
   * `actions()` of the goal node it returns. Where `BFS` returns `null` the
   * source fails with a `TypeError`; that is `None` here, and it happens
   * exactly when no sequence of moves leads from the board to the goal.
   */
  method SolveByBfs(state: seq<int>) returns (r: Option<seq<Action>>)
    requires IsBoard(state)
    ensures r.Some? ==> Replay(state, r.value) == Some(Goal)
    ensures r.None? <==> GoalUnreachable(state)
    ensures state == Goal ==> r == Some([])
    ensures !IsSolvable(state) ==> r == None
  {
    var initialState := new BoardNode(state, None, null, 0);
    RootAlone(initialState);
    var goalNode, nodesExpanded, maxSearchDepth;
    ghost var enqueued, popped, expansions, grown;
    goalNode, nodesExpanded, maxSearchDepth, enqueued, popped, expansions, grown :=
      BreadthFirst(initialState, {initialState}, initialState);
    if goalNode == null {
      r := None;
    } else {
      InTreeMember(enqueued, grown, goalNode);
      var actions := GoalActions(goalNode, grown, initialState);
      r := Some(actions);
    }
    if !IsSolvable(state) && r.Some? {
      UnsolvableNeverSolved(state, r.value);
    }
  }
}
