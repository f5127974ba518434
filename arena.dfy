/** The search tree as an arena: node `j` of the sequence `ns` is one
    `TwoPlayersGameMonteCarloTreeSearchNode`, its `parent` and `children`
    are positions in the same sequence, and the root sits at position 0.
    This module holds the invariants of the tree and, as functions of the
    arena value, the effect of each operation of the node, with the lemmas
    about them. */
module Arena {
  import opened Wrappers
  import opened Games
  import opened Nodes

  // ---------------------------------------------------------------------
  // Invariants

  /** Every parent link points to an earlier position. */
  ghost predicate ParentsBefore<S, A>(ns: seq<Node<S, A>>)
  {
    forall j :: 0 <= j < |ns| && ns[j].parent.Some? ==> ns[j].parent.value < j
  }

  /** The root is at position 0 and is the only node without a parent; each
      other node is listed among its parent's children. */
  ghost predicate Parented<S, A>(ns: seq<Node<S, A>>)
  {
    |ns| > 0 && ns[0].parent.None? && ParentsBefore(ns) &&
    forall c :: 0 < c < |ns| ==> ns[c].parent.Some? && c in ns[ns[c].parent.value].children
  }

  /** The children of node `j` are nodes whose parent is `j`, listed in the
      order they were created (so none is listed twice). */
  ghost predicate LinkedAt<S, A>(ns: seq<Node<S, A>>, j: nat)
    requires j < |ns|
  {
    (forall k :: 0 <= k < |ns[j].children| ==>
       ns[j].children[k] < |ns| && ns[ns[j].children[k]].parent == Some(j)) &&
    (forall k1, k2 :: 0 <= k1 < k2 < |ns[j].children| ==> ns[j].children[k1] < ns[j].children[k2])
  }

  ghost predicate Linked<S, A>(ns: seq<Node<S, A>>)
  {
    forall j :: 0 <= j < |ns| ==> LinkedAt(ns, j)
  }

  /** The untried-action cache of node `j`: while unfilled the node has no
      children; once filled it is the part of the legal actions that has
      not been popped yet, and the `k`-th child is the state reached by the
      `k`-th action popped from the end. */
  ghost predicate CacheAt<S, A>(g: Game<S, A>, ns: seq<Node<S, A>>, j: nat)
    requires j < |ns|
  {
    var nd := ns[j];
    var legal := g.legalActions(nd.state);
    match nd.untried
    case None => nd.children == []
    case Some(u) =>
      |u| + |nd.children| == |legal| && u == legal[..|u|] &&
      forall k :: 0 <= k < |nd.children| ==>
        nd.children[k] < |ns| && ns[nd.children[k]].state == g.move(nd.state, legal[|legal| - 1 - k])
  }

  ghost predicate Cache<S, A>(g: Game<S, A>, ns: seq<Node<S, A>>)
  {
    forall j :: 0 <= j < |ns| ==> CacheAt(g, ns, j)
  }

  /** The tally of each node holds exactly as many results as it has visits. */
  ghost predicate Stats<S, A>(ns: seq<Node<S, A>>)
  {
    forall j :: 0 <= j < |ns| ==> |ns[j].tally| == ns[j].visits
  }

  /** No child has more visits than its parent. */
  ghost predicate Monotone<S, A>(ns: seq<Node<S, A>>)
  {
    forall c :: 0 <= c < |ns| && ns[c].parent.Some? && ns[c].parent.value < |ns| ==>
      ns[c].visits <= ns[ns[c].parent.value].visits
  }

  ghost predicate Valid<S, A>(g: Game<S, A>, ns: seq<Node<S, A>>)
  {
    Parented(ns) && Linked(ns) && Cache(g, ns) && Stats(ns) && Monotone(ns)
  }

  /** Two arenas that differ at most in visit counts and tallies. */
  ghost predicate SameShape<S, A>(ns: seq<Node<S, A>>, ns': seq<Node<S, A>>)
  {
    |ns'| == |ns| &&
    forall j :: 0 <= j < |ns| ==>
      ns'[j].state == ns[j].state && ns'[j].parent == ns[j].parent &&
      ns'[j].children == ns[j].children && ns'[j].untried == ns[j].untried
  }

  /** A fresh tree: the root alone, as `__init__` builds it without a parent. */
  lemma RootValid<S, A>(g: Game<S, A>, state: S)
    ensures Valid(g, [Fresh<S, A>(state, None)])
  {
  }

  // ---------------------------------------------------------------------
  // The untried-action cache

  /** The arena after the `untried_actions` getter ran on node `i`. */
  function ForceCache<S, A>(g: Game<S, A>, ns: seq<Node<S, A>>, i: nat): seq<Node<S, A>>
    requires i < |ns|
  {
    ns[i := Cached(g, ns[i])]
  }

  /** The getter computes the legal actions only on the first access: later
      accesses see the cached sequence, so a second access changes nothing
      and both return the same actions. */
  lemma CacheOnce<S, A>(g: Game<S, A>, ns: seq<Node<S, A>>, i: nat)
    requires i < |ns|
    ensures ns[i].untried.Some? ==> ForceCache(g, ns, i) == ns
    ensures ForceCache(g, ForceCache(g, ns, i), i) == ForceCache(g, ns, i)
    ensures Untried(g, ForceCache(g, ns, i)[i]) == Untried(g, ns[i])
    ensures ns[i].untried.None? ==> ForceCache(g, ns, i)[i].untried == Some(g.legalActions(ns[i].state))
  {
  }

  lemma ForceCacheValid<S, A>(g: Game<S, A>, ns: seq<Node<S, A>>, i: nat)
    requires Valid(g, ns) && i < |ns|
    ensures Valid(g, ForceCache(g, ns, i))
    ensures SameParents(ns, ForceCache(g, ns, i))
  {
    ForceCacheShape(g, ns, i);
    ForceCacheParented(g, ns, i);
    ForceCacheLinked(g, ns, i);
    ForceCacheCache(g, ns, i);
  }

  lemma ForceCacheShape<S, A>(g: Game<S, A>, ns: seq<Node<S, A>>, i: nat)
    requires i < |ns|
    ensures var ns' := ForceCache(g, ns, i);
      |ns'| == |ns| &&
      forall j :: 0 <= j < |ns| ==>
        ns'[j].state == ns[j].state && ns'[j].parent == ns[j].parent &&
        ns'[j].children == ns[j].children && ns'[j].visits == ns[j].visits &&
        ns'[j].tally == ns[j].tally && (j != i ==> ns'[j].untried == ns[j].untried)
  {
  }

  lemma ForceCacheParented<S, A>(g: Game<S, A>, ns: seq<Node<S, A>>, i: nat)
    requires Parented(ns) && i < |ns|
    ensures Parented(ForceCache(g, ns, i))
  {
    ForceCacheShape(g, ns, i);
  }

  lemma ForceCacheCache<S, A>(g: Game<S, A>, ns: seq<Node<S, A>>, i: nat)
    requires Cache(g, ns) && i < |ns|
    ensures Cache(g, ForceCache(g, ns, i))
  {
    var ns' := ForceCache(g, ns, i);
    ForceCacheShape(g, ns, i);
    forall j | 0 <= j < |ns'| ensures CacheAt(g, ns', j) {
      assert CacheAt(g, ns, j);
      if j == i && ns[i].untried.None? {
        var legal := g.legalActions(ns[i].state);
        assert legal == legal[..|legal|];
      }
    }
  }

  lemma ForceCacheLinked<S, A>(g: Game<S, A>, ns: seq<Node<S, A>>, i: nat)
    requires Linked(ns) && i < |ns|
    ensures Linked(ForceCache(g, ns, i))
  {
    var ns' := ForceCache(g, ns, i);
    forall j | 0 <= j < |ns'| ensures LinkedAt(ns', j) {
      assert LinkedAt(ns, j);
    }
  }

  /** `is_fully_expanded`: the untried-action sequence is empty. */
  ghost predicate FullyExpanded<S, A>(g: Game<S, A>, ns: seq<Node<S, A>>, j: nat)
    requires j < |ns|
  {
    |Untried(g, ns[j])| == 0
  }

  /** Every legal action of a node is either still untried or has become
      exactly one child; so a node is fully expanded exactly when it has one
      child per legal action (or when its state has no legal action). */
  lemma ExpansionAccounting<S, A>(g: Game<S, A>, ns: seq<Node<S, A>>, j: nat)
    requires Valid(g, ns) && j < |ns|
    ensures |Untried(g, ns[j])| + |ns[j].children| == |g.legalActions(ns[j].state)|
    ensures FullyExpanded(g, ns, j) <==> |ns[j].children| == |g.legalActions(ns[j].state)|
  {
    assert CacheAt(g, ns, j);
  }

  // ---------------------------------------------------------------------
  // Expansion

  /** `expand` on node `i`: pop the last untried action, and append one
      fresh child whose state is the result of that move. */
  function Expanded<S, A>(g: Game<S, A>, ns: seq<Node<S, A>>, i: nat): (ns': seq<Node<S, A>>)
    requires i < |ns| && |Untried(g, ns[i])| > 0
    ensures |ns'| == |ns| + 1
    ensures var u := Untried(g, ns[i]);
      ns'[i] == ns[i].(untried := Some(u[..|u| - 1]), children := ns[i].children + [|ns|]) &&
      ns'[|ns|] == Fresh(g.move(ns[i].state, u[|u| - 1]), Some(i))
    ensures forall j :: 0 <= j < |ns| && j != i ==> ns'[j] == ns[j]
  {
    var u := Untried(g, ns[i]);
    var action := u[|u| - 1];
    var child := Fresh(g.move(ns[i].state, action), Some(i));
    ns[i := ns[i].(untried := Some(u[..|u| - 1]), children := ns[i].children + [|ns|])] + [child]
  }

  /** `expand` reads the untried actions through the getter and then pops:
      the same arena as popping from the filled cache. */
  lemma ExpandedAfterCache<S, A>(g: Game<S, A>, ns: seq<Node<S, A>>, i: nat)
    requires i < |ns| && |Untried(g, ns[i])| > 0
    ensures var ns1 := ForceCache(g, ns, i);
      var u := ns1[i].untried.value;
      |u| > 0 &&
      Expanded(g, ns, i) ==
        ns1[i := ns1[i].(untried := Some(u[..|u| - 1]), children := ns1[i].children + [|ns1|])]
        + [Fresh(g.move(ns1[i].state, u[|u| - 1]), Some(i))]
  {
  }

  /** `expand` moves one action from the untried sequence to the children:
      their total length is unchanged. */
  lemma ExpandConserves<S, A>(g: Game<S, A>, ns: seq<Node<S, A>>, i: nat)
    requires i < |ns| && |Untried(g, ns[i])| > 0
    ensures var ns' := Expanded(g, ns, i);
      |Untried(g, ns'[i])| == |Untried(g, ns[i])| - 1 &&
      |ns'[i].children| == |ns[i].children| + 1
  {
  }

  /** Parent links of all existing nodes are kept (new nodes are added at the end). */
  ghost predicate SameParents<S, A>(ns: seq<Node<S, A>>, ns': seq<Node<S, A>>)
  {
    |ns| <= |ns'| && forall j :: 0 <= j < |ns| ==> ns'[j].parent == ns[j].parent
  }

  lemma ExpandParented<S, A>(g: Game<S, A>, ns: seq<Node<S, A>>, i: nat)
    requires Parented(ns) && i < |ns| && |Untried(g, ns[i])| > 0
    ensures Parented(Expanded(g, ns, i))
    ensures SameParents(ns, Expanded(g, ns, i))
  {
    var ns' := Expanded(g, ns, i);
    forall c | 0 < c < |ns'|
      ensures ns'[c].parent.Some? && ns'[c].parent.value < c && c in ns'[ns'[c].parent.value].children
    {
      if c < |ns| {
        var p := ns[c].parent.value;
        assert c in ns[p].children;
        assert ns[p].children <= ns'[p].children;
      } else {
        assert ns'[i].children[|ns[i].children|] == c;
      }
    }
  }

  lemma ExpandLinked<S, A>(g: Game<S, A>, ns: seq<Node<S, A>>, i: nat)
    requires Parented(ns) && Linked(ns) && i < |ns| && |Untried(g, ns[i])| > 0
    ensures Linked(Expanded(g, ns, i))
  {
    var ns' := Expanded(g, ns, i);
    forall j | 0 <= j < |ns'| ensures LinkedAt(ns', j) {
      if j < |ns| {
        assert LinkedAt(ns, j);
        forall k | 0 <= k < |ns[j].children| ensures ns'[ns[j].children[k]].parent == Some(j) {
          var c := ns[j].children[k];
          assert ns'[c].parent == ns[c].parent;
        }
      }
    }
  }

  /** The expanded node's cache still matches its children: the popped
      action is the one the new child was made from. */
  lemma ExpandCacheAt<S, A>(g: Game<S, A>, ns: seq<Node<S, A>>, i: nat)
    requires i < |ns| && CacheAt(g, ns, i) && |Untried(g, ns[i])| > 0
    ensures CacheAt(g, Expanded(g, ns, i), i)
  {
    var ns' := Expanded(g, ns, i);
    var legal := g.legalActions(ns[i].state);
    var u := Untried(g, ns[i]);
    assert u == legal[..|u|];
    assert u[..|u| - 1] == legal[..|u| - 1];
    assert u[|u| - 1] == legal[|legal| - 1 - |ns[i].children|];
    forall k | 0 <= k < |ns'[i].children|
      ensures ns'[i].children[k] < |ns'| && ns'[ns'[i].children[k]].state == g.move(ns[i].state, legal[|legal| - 1 - k])
    {
      if k < |ns[i].children| {
        assert ns'[i].children[k] == ns[i].children[k];
      }
    }
  }

  lemma ExpandCache<S, A>(g: Game<S, A>, ns: seq<Node<S, A>>, i: nat)
    requires Cache(g, ns) && i < |ns| && |Untried(g, ns[i])| > 0
    ensures Cache(g, Expanded(g, ns, i))
  {
    var ns' := Expanded(g, ns, i);
    assert forall j :: 0 <= j < |ns| ==> ns'[j].state == ns[j].state;
    ExpandCacheAt(g, ns, i);
    forall j | 0 <= j < |ns'| && j != i ensures CacheAt(g, ns', j) {
      if j < |ns| {
        assert CacheAt(g, ns, j);
      }
    }
  }

  lemma ExpandValid<S, A>(g: Game<S, A>, ns: seq<Node<S, A>>, i: nat)
    requires Valid(g, ns) && i < |ns| && |Untried(g, ns[i])| > 0
    ensures Valid(g, Expanded(g, ns, i))
    ensures SameParents(ns, Expanded(g, ns, i))
  {
    ExpandParented(g, ns, i);
    ExpandLinked(g, ns, i);
    ExpandCache(g, ns, i);
  }

  // ---------------------------------------------------------------------
  // Backpropagation

  /** Node `i` and all its ancestors up to the root. */
  ghost function Ancestors<S, A>(ns: seq<Node<S, A>>, i: nat): (r: set<nat>)
    requires ParentsBefore(ns) && i < |ns|
    ensures i in r
    ensures forall a :: a in r ==> a <= i
    ensures forall a :: a in r && ns[a].parent.Some? ==> ns[a].parent.value in r
    decreases i
  {
    match ns[i].parent
    case None => {i}
    case Some(p) => {i} + Ancestors(ns, p)
  }

  /** The ancestor chain depends on the parent links only. */
  lemma {:induction false} AncestorsFrame<S, A>(ns: seq<Node<S, A>>, ns': seq<Node<S, A>>, i: nat)
    requires ParentsBefore(ns) && ParentsBefore(ns') && i < |ns|
    requires SameParents(ns, ns')
    ensures Ancestors(ns', i) == Ancestors(ns, i)
    decreases i
  {
    assert ns'[i].parent == ns[i].parent;
    if ns[i].parent.Some? {
      AncestorsFrame(ns, ns', ns[i].parent.value);
    }
  }

  /** In a rooted tree, the root is an ancestor of every node. */
  lemma {:induction false} RootIsAncestor<S, A>(ns: seq<Node<S, A>>, i: nat)
    requires Parented(ns) && i < |ns|
    ensures 0 in Ancestors(ns, i)
    decreases i
  {
    if i > 0 {
      RootIsAncestor(ns, ns[i].parent.value);
    }
  }

  /** `backpropagate(result)` on node `i`: bump the node, then, if it has a
      parent, backpropagate the same result from the parent. */
  ghost function Backprop<S, A>(ns: seq<Node<S, A>>, i: nat, result: Outcome): (r: seq<Node<S, A>>)
    requires ParentsBefore(ns) && i < |ns|
    ensures SameShape(ns, r)
    decreases i
  {
    var bumped := ns[i := Bump(ns[i], result)];
    assert SameShape(ns, bumped);
    match ns[i].parent
    case None => bumped
    case Some(p) => Backprop(bumped, p, result)
  }

  /** Backpropagation bumps every ancestor of `i` (the node itself included)
      exactly once and leaves every other node as it was. */
  lemma {:induction false} BackpropAt<S, A>(ns: seq<Node<S, A>>, i: nat, result: Outcome, j: nat)
    requires ParentsBefore(ns) && i < |ns| && j < |ns|
    ensures Backprop(ns, i, result)[j] == if j in Ancestors(ns, i) then Bump(ns[j], result) else ns[j]
    decreases i
  {
    var bumped := ns[i := Bump(ns[i], result)];
    assert SameShape(ns, bumped);
    if ns[i].parent.Some? {
      var p := ns[i].parent.value;
      BackpropAt(bumped, p, result, j);
      AncestorsFrame(ns, bumped, p);
    }
  }

  lemma BackpropStats<S, A>(ns: seq<Node<S, A>>, i: nat, result: Outcome)
    requires ParentsBefore(ns) && Stats(ns) && i < |ns|
    ensures Stats(Backprop(ns, i, result))
  {
    var ns' := Backprop(ns, i, result);
    forall j | 0 <= j < |ns| ensures |ns'[j].tally| == ns'[j].visits {
      BackpropAt(ns, i, result, j);
    }
  }

  lemma BackpropMonotone<S, A>(ns: seq<Node<S, A>>, i: nat, result: Outcome)
    requires ParentsBefore(ns) && Monotone(ns) && i < |ns|
    ensures Monotone(Backprop(ns, i, result))
  {
    var ns' := Backprop(ns, i, result);
    forall c | 0 <= c < |ns'| && ns'[c].parent.Some? && ns'[c].parent.value < |ns'|
      ensures ns'[c].visits <= ns'[ns'[c].parent.value].visits
    {
      var p := ns[c].parent.value;
      BackpropAt(ns, i, result, c);
      BackpropAt(ns, i, result, p);
    }
  }

  lemma ShapeParented<S, A>(ns: seq<Node<S, A>>, ns': seq<Node<S, A>>)
    requires Parented(ns) && SameShape(ns, ns')
    ensures Parented(ns')
  {
  }

  lemma ShapeLinked<S, A>(ns: seq<Node<S, A>>, ns': seq<Node<S, A>>)
    requires Linked(ns) && SameShape(ns, ns')
    ensures Linked(ns')
  {
    forall j | 0 <= j < |ns'| ensures LinkedAt(ns', j) {
      assert LinkedAt(ns, j);
    }
  }

  lemma ShapeCache<S, A>(g: Game<S, A>, ns: seq<Node<S, A>>, ns': seq<Node<S, A>>)
    requires Cache(g, ns) && SameShape(ns, ns')
    ensures Cache(g, ns')
  {
    forall j | 0 <= j < |ns'| ensures CacheAt(g, ns', j) {
      assert CacheAt(g, ns, j);
    }
  }

  /** Backpropagation keeps every invariant of the tree. */
  lemma BackpropValid<S, A>(g: Game<S, A>, ns: seq<Node<S, A>>, i: nat, result: Outcome)
    requires Valid(g, ns) && i < |ns|
    ensures Valid(g, Backprop(ns, i, result))
  {
    var ns' := Backprop(ns, i, result);
    ShapeParented(ns, ns');
    ShapeLinked(ns, ns');
    ShapeCache(g, ns, ns');
    BackpropStats(ns, i, result);
    BackpropMonotone(ns, i, result);
  }

  /** The root gets one more visit from every backpropagation. */
  lemma RootCountsBackprop<S, A>(g: Game<S, A>, ns: seq<Node<S, A>>, i: nat, result: Outcome)
    requires Valid(g, ns) && i < |ns|
    ensures Backprop(ns, i, result)[0].visits == ns[0].visits + 1
    ensures Backprop(ns, i, result)[0].tally == ns[0].tally + multiset{result}
  {
    RootIsAncestor(ns, i);
    BackpropAt(ns, i, result, 0);
  }

  // ---------------------------------------------------------------------
  // Queries: q, is_terminal_node, and how the operations affect them

  /** `q` of node `i`: its differential seen from the player to move at its
      parent.  It needs a parent, so it is not defined on the root. */
  function Q<S, A>(g: Game<S, A>, ns: seq<Node<S, A>>, i: nat): (q: int)
    requires i < |ns| && ns[i].parent.Some? && ns[i].parent.value < |ns|
    ensures -|ns[i].tally| <= q <= |ns[i].tally|
  {
    Differential(ns[i].tally, g.nextToMove(ns[ns[i].parent.value].state))
  }

  /** In a valid tree `|q| <= n` for every non-root node. */
  lemma QBounded<S, A>(g: Game<S, A>, ns: seq<Node<S, A>>, i: nat)
    requires Valid(g, ns) && 0 < i < |ns|
    ensures -(ns[i].visits as int) <= Q(g, ns, i) <= ns[i].visits
  {
  }

  /** After backpropagating `result` from node `j`, the `q` of a node on the
      path moves by one towards the winner (and stays put on a draw); the
      `q` of any other node is unchanged. */
  lemma QAfterBackprop<S, A>(g: Game<S, A>, ns: seq<Node<S, A>>, j: nat, result: Outcome, i: nat)
    requires Valid(g, ns) && j < |ns| && 0 < i < |ns|
    ensures var mover := g.nextToMove(ns[ns[i].parent.value].state);
      Q(g, Backprop(ns, j, result), i) ==
        Q(g, ns, i) +
        (if i !in Ancestors(ns, j) then 0
         else if result == mover then 1
         else if result == -(mover as int) then -1
         else 0)
  {
    var p := ns[i].parent.value;
    BackpropAt(ns, j, result, i);
    DifferentialRecord(ns[i].tally, g.nextToMove(ns[p].state), result);
  }

  /** `is_terminal_node`: the game is over in the node's state. */
  predicate IsTerminalNode<S, A>(g: Game<S, A>, ns: seq<Node<S, A>>, i: nat)
    requires i < |ns|
  {
    g.isGameOver(ns[i].state)
  }

  /** A node's state never changes, so neither does `is_terminal_node`: no
      operation turns a terminal node into a non-terminal one or back. */
  lemma TerminalStable<S, A>(g: Game<S, A>, ns: seq<Node<S, A>>, i: nat, result: Outcome, j: nat)
    requires ParentsBefore(ns) && i < |ns| && j < |ns|
    ensures IsTerminalNode(g, ForceCache(g, ns, i), j) == IsTerminalNode(g, ns, j)
    ensures IsTerminalNode(g, Backprop(ns, i, result), j) == IsTerminalNode(g, ns, j)
    ensures |Untried(g, ns[i])| > 0 ==> IsTerminalNode(g, Expanded(g, ns, i), j) == IsTerminalNode(g, ns, j)
  {
  }

  /** Once a node is fully expanded it stays so: the cache is never
      refilled, expansion only pops, and backpropagation does not touch it. */
  lemma FullyExpandedStays<S, A>(g: Game<S, A>, ns: seq<Node<S, A>>, i: nat, result: Outcome, j: nat)
    requires ParentsBefore(ns) && i < |ns| && j < |ns| && FullyExpanded(g, ns, j)
    ensures FullyExpanded(g, ForceCache(g, ns, i), j)
    ensures FullyExpanded(g, Backprop(ns, i, result), j)
    ensures |Untried(g, ns[i])| > 0 ==> FullyExpanded(g, Expanded(g, ns, i), j)
  {
  }

  // ---------------------------------------------------------------------
  // Selection

  /** Every child of node `i` has been visited at least once. */
  ghost predicate AllVisited<S, A>(ns: seq<Node<S, A>>, i: nat)
    requires i < |ns|
  {
    forall c :: c in ns[i].children ==> c < |ns| && ns[c].visits > 0
  }

  /** `q` of child `c` of node `i` (a child always has a parent). */
  function ChildQ<S, A>(g: Game<S, A>, ns: seq<Node<S, A>>, i: nat, c: nat): int
    requires Valid(g, ns) && i < |ns| && c in ns[i].children
  {
    assert LinkedAt(ns, i);
    Q(g, ns, c)
  }

  /** The UCT weight of child `c` of node `i`. */
  function ChildWeight<S, A>(g: Game<S, A>, ns: seq<Node<S, A>>, i: nat, c: nat, bonus: (nat, nat) -> real): real
    requires Valid(g, ns) && i < |ns| && AllVisited(ns, i) && c in ns[i].children
  {
    Weight(ChildQ(g, ns, i, c), ns[c].visits, ns[i].visits, bonus)
  }

  /** The weights of the children of node `i`, in the order of `children`. */
  function ChildWeights<S, A>(g: Game<S, A>, ns: seq<Node<S, A>>, i: nat, bonus: (nat, nat) -> real): (w: seq<real>)
    requires Valid(g, ns) && i < |ns| && AllVisited(ns, i)
    ensures |w| == |ns[i].children|
    ensures forall k :: 0 <= k < |w| ==> w[k] == ChildWeight(g, ns, i, ns[i].children[k], bonus)
  {
    seq(|ns[i].children|, k requires 0 <= k < |ns[i].children| => ChildWeight(g, ns, i, ns[i].children[k], bonus))
  }

  /** `best_child`: a child of highest weight, and among children of equal
      highest weight the one created first. */
  function BestChild<S, A>(g: Game<S, A>, ns: seq<Node<S, A>>, i: nat, bonus: (nat, nat) -> real): (c: nat)
    requires Valid(g, ns) && i < |ns| && |ns[i].children| > 0 && AllVisited(ns, i)
    ensures c in ns[i].children
    ensures forall k :: 0 <= k < |ns[i].children| ==>
      ChildWeight(g, ns, i, ns[i].children[k], bonus) <= ChildWeight(g, ns, i, c, bonus)
    ensures forall k :: 0 <= k < |ns[i].children| && ns[i].children[k] < c ==>
      ChildWeight(g, ns, i, ns[i].children[k], bonus) < ChildWeight(g, ns, i, c, bonus)
  {
    assert LinkedAt(ns, i);
    var k := ArgMax(ChildWeights(g, ns, i, bonus));
    ns[i].children[k]
  }

  /** With `c_param = 0` the chosen child has the best mean value `q / n`
      (stated by cross-multiplication), and every child created before it
      has a strictly worse one. */
  lemma GreedyBestChild<S, A>(g: Game<S, A>, ns: seq<Node<S, A>>, i: nat)
    requires Valid(g, ns) && i < |ns| && |ns[i].children| > 0 && AllVisited(ns, i)
    ensures var c := BestChild(g, ns, i, NoExploration);
      (forall k :: 0 <= k < |ns[i].children| ==> var d := ns[i].children[k];
         ChildQ(g, ns, i, d) * ns[c].visits <= ChildQ(g, ns, i, c) * ns[d].visits) &&
      (forall k :: 0 <= k < |ns[i].children| && ns[i].children[k] < c ==> var d := ns[i].children[k];
         ChildQ(g, ns, i, d) * ns[c].visits < ChildQ(g, ns, i, c) * ns[d].visits)
  {
    var c := BestChild(g, ns, i, NoExploration);
    forall k | 0 <= k < |ns[i].children|
      ensures var d := ns[i].children[k];
        ChildQ(g, ns, i, d) * ns[c].visits <= ChildQ(g, ns, i, c) * ns[d].visits &&
        (d < c ==> ChildQ(g, ns, i, d) * ns[c].visits < ChildQ(g, ns, i, c) * ns[d].visits)
    {
      var d := ns[i].children[k];
      MeanOrder(ChildQ(g, ns, i, d), ns[d].visits, ChildQ(g, ns, i, c), ns[c].visits);
    }
  }

  // ---------------------------------------------------------------------
  // Visit accounting against the record of all backpropagations

  /** Each entry of a history is one call of `backpropagate`: the node it
      started from and the result it carried. */
  ghost predicate HistoryIn<S, A>(ns: seq<Node<S, A>>, h: seq<(nat, Outcome)>)
  {
    forall k :: 0 <= k < |h| ==> h[k].0 < |ns|
  }

  /** The results, in order, of the backpropagations in `h` whose path went
      through node `j`. */
  ghost function Passes<S, A>(ns: seq<Node<S, A>>, h: seq<(nat, Outcome)>, j: nat): seq<Outcome>
    requires ParentsBefore(ns) && HistoryIn(ns, h)
    decreases |h|
  {
    if |h| == 0 then []
    else
      var last := h[|h| - 1];
      Passes(ns, h[..|h| - 1], j) + (if j in Ancestors(ns, last.0) then [last.1] else [])
  }

  /** Every node's visit count is the number of backpropagations that went
      through it, and its tally holds exactly their results. */
  ghost predicate Accounted<S, A>(ns: seq<Node<S, A>>, h: seq<(nat, Outcome)>)
  {
    ParentsBefore(ns) && HistoryIn(ns, h) &&
    forall j :: 0 <= j < |ns| ==> ns[j].visits == |Passes(ns, h, j)| && ns[j].tally == multiset(Passes(ns, h, j))
  }

  /** The record of a node depends on the parent links only, and a node
      created after all the recorded calls is on none of their paths. */
  lemma {:induction false} PassesFrame<S, A>(ns: seq<Node<S, A>>, ns': seq<Node<S, A>>, h: seq<(nat, Outcome)>, j: nat)
    requires ParentsBefore(ns) && ParentsBefore(ns') && HistoryIn(ns, h) && SameParents(ns, ns')
    ensures HistoryIn(ns', h)
    ensures Passes(ns', h, j) == if j < |ns| then Passes(ns, h, j) else []
    decreases |h|
  {
    if |h| > 0 {
      var init := h[..|h| - 1];
      PassesFrame(ns, ns', init, j);
      AncestorsFrame(ns, ns', h[|h| - 1].0);
    }
  }

  /** The root is on the path of every call: its record is the whole history. */
  lemma {:induction false} PassesRoot<S, A>(ns: seq<Node<S, A>>, h: seq<(nat, Outcome)>)
    requires Parented(ns) && HistoryIn(ns, h)
    ensures |Passes(ns, h, 0)| == |h|
    ensures forall k :: 0 <= k < |h| ==> Passes(ns, h, 0)[k] == h[k].1
    decreases |h|
  {
    if |h| > 0 {
      var init := h[..|h| - 1];
      PassesRoot(ns, init);
      RootIsAncestor(ns, h[|h| - 1].0);
      assert Passes(ns, h, 0) == Passes(ns, init, 0) + [h[|h| - 1].1];
    }
  }

  /** A fresh root with an empty history is accounted for. */
  lemma RootAccounted<S, A>(state: S)
    ensures Accounted([Fresh<S, A>(state, None)], [])
  {
  }

  lemma ForceCacheAccounted<S, A>(g: Game<S, A>, ns: seq<Node<S, A>>, h: seq<(nat, Outcome)>, i: nat)
    requires Accounted(ns, h) && i < |ns|
    ensures Accounted(ForceCache(g, ns, i), h)
  {
    var ns' := ForceCache(g, ns, i);
    ForceCacheShape(g, ns, i);
    forall j | 0 <= j < |ns'|
      ensures ns'[j].visits == |Passes(ns', h, j)| && ns'[j].tally == multiset(Passes(ns', h, j))
    {
      PassesFrame(ns, ns', h, j);
    }
  }

  lemma ExpandAccounted<S, A>(g: Game<S, A>, ns: seq<Node<S, A>>, h: seq<(nat, Outcome)>, i: nat)
    requires Parented(ns) && Accounted(ns, h) && i < |ns| && |Untried(g, ns[i])| > 0
    ensures Accounted(Expanded(g, ns, i), h)
  {
    var ns' := Expanded(g, ns, i);
    ExpandParented(g, ns, i);
    forall j | 0 <= j < |ns'|
      ensures ns'[j].visits == |Passes(ns', h, j)| && ns'[j].tally == multiset(Passes(ns', h, j))
    {
      PassesFrame(ns, ns', h, j);
    }
  }

  lemma BackpropAccounted<S, A>(ns: seq<Node<S, A>>, h: seq<(nat, Outcome)>, i: nat, result: Outcome)
    requires Accounted(ns, h) && i < |ns|
    ensures Accounted(Backprop(ns, i, result), h + [(i, result)])
  {
    var ns' := Backprop(ns, i, result);
    var h' := h + [(i, result)];
    assert h'[..|h|] == h;
    assert SameParents(ns, ns');
    assert ParentsBefore(ns');
    forall j | 0 <= j < |ns'|
      ensures ns'[j].visits == |Passes(ns', h', j)| && ns'[j].tally == multiset(Passes(ns', h', j))
    {
      PassesFrame(ns, ns', h, j);
      AncestorsFrame(ns, ns', i);
      BackpropAt(ns, i, result, j);
    }
  }

  /** After `N` calls of `backpropagate`, the root has been visited `N` times. */
  lemma RootVisits<S, A>(ns: seq<Node<S, A>>, h: seq<(nat, Outcome)>)
    requires Parented(ns) && Accounted(ns, h)
    ensures ns[0].visits == |h|
  {
    PassesRoot(ns, h);
  }
}
