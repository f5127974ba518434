/** The search tree whose nodes the driver updates in place.  Each node of
    the source is an object; here all of them live in one arena, the field
    `nodes`, and a node is named by its position.  The ghost `history`
    records every call of `backpropagate` so that the visit counts can be
    stated as counts of calls. */
module SearchTrees {
  import opened Wrappers
  import opened Games
  import opened Nodes
  import opened Arena

  class SearchTree<S, A> {
    const game: Game<S, A>
    var nodes: seq<Node<S, A>>
    ghost var history: seq<(nat, Outcome)>

    ghost predicate Valid()
      reads this
    {
      Arena.Valid(game, nodes) && Accounted(nodes, history)
    }

    /** `TwoPlayersGameMonteCarloTreeSearchNode(state)`: a root without a
        parent, with no children, no visits, an empty tally and no cached
        actions. */
    constructor (game: Game<S, A>, state: S)
      ensures Valid()
      ensures this.game == game && nodes == [Fresh(state, None)] && history == []
    {
      this.game := game;
      nodes := [Fresh(state, None)];
      history := [];
      new;
      RootValid(game, state);
      RootAccounted<S, A>(state);
    }

    /** The `untried_actions` getter on node `i`: fill the cache from the
        legal actions if it is still empty, and return the cached sequence. */
    method UntriedActions(i: nat) returns (actions: seq<A>)
      requires Valid() && i < |nodes|
      modifies this
      ensures Valid() && history == old(history)
      ensures nodes == ForceCache(game, old(nodes), i)
      ensures actions == Untried(game, old(nodes)[i]) && nodes[i].untried == Some(actions)
    {
      ForceCacheValid(game, nodes, i);
      ForceCacheAccounted(game, nodes, history, i);
      if nodes[i].untried.None? {
        nodes := nodes[i := nodes[i].(untried := Some(game.legalActions(nodes[i].state)))];
      }
      actions := nodes[i].untried.value;
    }

    /** `is_fully_expanded` on node `i` (through the getter, so the cache is
        filled as a side effect). */
    method IsFullyExpanded(i: nat) returns (full: bool)
      requires Valid() && i < |nodes|
      modifies this
      ensures Valid() && history == old(history)
      ensures nodes == ForceCache(game, old(nodes), i)
      ensures full == FullyExpanded(game, old(nodes), i)
    {
      var actions := UntriedActions(i);
      full := |actions| == 0;
    }

    /** `expand` on node `i`: pop the last untried action and append a new
        child for the state it leads to; the new child's position is returned. */
    method Expand(i: nat) returns (child: nat)
      requires Valid() && i < |nodes| && |Untried(game, nodes[i])| > 0
      modifies this
      ensures Valid() && history == old(history)
      ensures nodes == Expanded(game, old(nodes), i)
      ensures child == |old(nodes)| && child < |nodes|
      ensures nodes[child].parent == Some(i) && nodes[child].visits == 0 && nodes[child].untried.None?
    {
      ghost var before := nodes;
      var actions := UntriedActions(i);
      var action := actions[|actions| - 1];
      var nextState := game.move(nodes[i].state, action);
      child := |nodes|;
      ExpandedAfterCache(game, before, i);
      nodes := nodes[i := nodes[i].(untried := Some(actions[..|actions| - 1]), children := nodes[i].children + [child])]
        + [Fresh(nextState, Some(i))];
      ExpandValid(game, before, i);
      ExpandAccounted(game, before, history, i);
    }

    /** `backpropagate(result)` from node `i`: bump the node, then its
        parent, and so on up to the root. */
    method Backpropagate(i: nat, result: Outcome)
      requires Valid() && i < |nodes|
      modifies this
      ensures Valid()
      ensures nodes == Backprop(old(nodes), i, result)
      ensures history == old(history) + [(i, result)]
      ensures nodes[0].visits == |history|
    {
      ghost var start := nodes;
      nodes := BumpAncestors(nodes, i, result);
      BackpropValid(game, start, i, result);
      BackpropAccounted(start, history, i, result);
      history := history + [(i, result)];
      RootVisits(nodes, history);
    }
  }

  /** The walk of `backpropagate` up the parent chain: bump the node at
      `i`, then its parent, and so on up to the root. */
  method BumpAncestors<S, A>(ns: seq<Node<S, A>>, i: nat, result: Outcome) returns (ns': seq<Node<S, A>>)
    requires ParentsBefore(ns) && i < |ns|
    ensures ns' == Backprop(ns, i, result)
  {
    ns' := ns;
    var current: Option<nat> := Some(i);
    while current.Some?
      invariant ParentsBefore(ns') && |ns'| == |ns|
      invariant current.Some? ==> current.value < |ns'|
      invariant Backprop(ns, i, result) == if current.Some? then Backprop(ns', current.value, result) else ns'
      decreases if current.Some? then current.value + 1 else 0
    {
      var c := current.value;
      var parent := ns'[c].parent;
      ns' := ns'[c := Bump(ns'[c], result)];
      current := parent;
    }
  }
}
