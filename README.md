# Search-tree node of a two-player Monte Carlo Tree Search

This project is a Dafny model of `TwoPlayersGameMonteCarloTreeSearchNode`
and of the concrete helpers of its base class `MonteCarloTreeSearchNode`
(`mctspy/tree/nodes.py`). The model checks the node's bookkeeping:

- the lazily filled cache of untried actions;
- `expand`, which turns one untried action into one child;
- `backpropagate`, which increments the visit count and the result tally of
  the node and of every ancestor;
- the win-minus-loss score `q`;
- `best_child`, the argmax over the UCT weights of the children;
- `rollout`, a random playout.

Layout:

- `games.dfy` (module `Games`): the game-state interface the node uses.
  `Game` is a value that holds the five operations `get_legal_actions`,
  `move`, `is_game_over`, `game_result` and `next_to_move`. Players are the
  signed identities `1` and `-1`. An outcome is an `int`: `1` or `-1` is a
  win for that player, and any other value is a draw marker. No concrete
  game is part of the model.
- `nodes.dfy` (module `Nodes`): a node as a value (`Node`), plus everything
  that involves one node only:
  - the getter's cache (`Untried`, `Cached`);
  - the statistics step of `backpropagate` (`Bump`);
  - the differential behind `q` (`Differential`);
  - the UCT weight (`Weight`) and `np.argmax` (`ArgMax`);
  - `rollout_policy` and `rollout` (`RolloutPolicy`, `Playout`, `Rollout`).

  The result tally is a `defaultdict(int)` used as a counter. It is
  modelled as a `multiset` of outcomes, so an outcome never seen counts 0,
  and the sum of all counts is the size of the multiset.
- `arena.dfy` (module `Arena`): the whole tree as a sequence of nodes. The
  root is at position 0, and `parent` and `children` hold positions in the
  sequence. The module defines:
  - the tree's invariants (`Valid`): one parent per non-root node, parent
    position smaller than the child's, `children` listed in creation order,
    the cache agreeing with the children, every tally holding as many
    results as the node has visits, and no child visited more often than
    its parent;
  - each operation as a function of the arena (`ForceCache`, `Expanded`,
    `Backprop`, `Q`, `IsTerminalNode`, `BestChild`);
  - the lemmas relating them.

  The ghost record `Passes` lists, for each node, the results of the
  backpropagations whose path went through it. It states what a visit count
  means.
- `tree.dfy` (module `SearchTrees`): class `SearchTree`. Its field `nodes`
  is the arena and its ghost field `history` records every `backpropagate`
  call. It has the state-changing operations as methods: `UntriedActions`
  (the getter, which writes the cache), `IsFullyExpanded`, `Expand` and
  `Backpropagate`. Each method keeps `Valid()` and states its new state
  through the functions of `Arena`. The source's `backpropagate` calls
  itself on the parent; `Backpropagate` hands the arena to
  `BumpAncestors`, which walks the same parent chain in a loop and makes
  the same updates in the same order. `Arena.Backprop`
  keeps the recursive form.
- `wrappers.dfy` (module `Wrappers`): `Option`, used for the parent link
  and for the unfilled cache (`None` in the source).

The property `n` is the `visits` field of a node. `q` is `Arena.Q`, which
needs a parent, as in the source. `is_terminal_node` is
`Arena.IsTerminalNode`.

The cache and the children are tied together: expansion pops untried actions from the end, so
the `k`-th child of a node is always the state reached by the action at
position `|legal| - 1 - k` of its legal actions (`Arena.CacheAt`).

## Model

| member | source | states |
|---|---|---|
| `SearchTrees.SearchTree.constructor` | mctspy/tree/nodes.py:83-87 | a new root has no parent, no children, 0 visits, an empty tally and no cached actions, and the tree invariants hold |
| `Nodes.Fresh` | mctspy/tree/nodes.py:83-87 | the node `__init__` builds (also for the child made at lines 120-122): the given state and parent, no children, 0 visits, an empty tally and no cached actions |
| `Nodes.Untried` | mctspy/tree/nodes.py:99-104 | what the getter returns: the cached sequence if the cache is filled, otherwise the state's legal actions |
| `Arena.ForceCache` | mctspy/tree/nodes.py:99-104 | the arena after the getter ran on node `i`: that node replaced by `Cached` of it, every other node unchanged |
| `Arena.FullyExpanded` | mctspy/tree/nodes.py:57-58 | `is_fully_expanded`: the sequence the getter returns is empty |
| `Arena.Q` | mctspy/tree/nodes.py:106-111 | `q`: the count of the parent's mover in the tally minus the count of the other player; defined only for a node with a parent; bounded in size by the number of recorded results |
| `Arena.IsTerminalNode` | mctspy/tree/nodes.py:126-127 | `is_terminal_node`: the game is over in the node's state |
| `Nodes.Weight` | mctspy/tree/nodes.py:63 | the UCT weight `q / n + bonus(N, n)` of a child with `n > 0` visits under a parent with `N` visits, the exploration term `c_param * sqrt(2 * ln N / n)` being the abstract `bonus` |
| `Nodes.Playout` | mctspy/tree/nodes.py:129-136 | the state a random playout ends in: the state itself if the game is over, otherwise the playout from the state reached by the move `RolloutPolicy` picks with the next draw |
| `Arena.RootValid` | mctspy/tree/nodes.py:83-87 | a tree made of one fresh root satisfies every tree invariant |
| `Arena.RootAccounted` | mctspy/tree/nodes.py:85-86 | a fresh root with no backpropagation recorded has visits and tally matching the (empty) record |
| `Nodes.Cached` | mctspy/tree/nodes.py:99-104 | after one access of the getter, the cache holds what the getter returns; the legal actions are stored only when the cache was empty and a filled cache is left as it is; nothing else in the node changes |
| `Arena.CacheOnce` | mctspy/tree/nodes.py:99-104 | a node with a filled cache is not changed by the getter; a second access changes nothing more and returns the same actions; a first access stores the state's legal actions |
| `SearchTrees.SearchTree.UntriedActions` | mctspy/tree/nodes.py:99-104 | the getter returns the cached actions, or the legal actions on the first access, and afterwards the cache holds exactly the returned sequence; only that node's cache changes |
| `SearchTrees.SearchTree.IsFullyExpanded` | mctspy/tree/nodes.py:57-58 | true exactly when the untried-action sequence is empty; the cache is filled as a side effect of the getter |
| `Arena.ExpansionAccounting` | mctspy/tree/nodes.py:57-58 | in a valid tree, untried actions plus children equal the legal actions of the state, so a node is fully expanded exactly when it has one child per legal action |
| `Arena.FullyExpandedStays` | mctspy/tree/nodes.py:117-118 | once a node is fully expanded it stays so under the getter, `expand` and `backpropagate` |
| `Arena.Expanded` | mctspy/tree/nodes.py:117-124 | `expand` removes the last untried action and appends one new child position. The new node's state is the move's result, its parent is the expanded node, and it has no children, 0 visits, an empty tally and no cache. Every other node is unchanged |
| `Arena.ExpandedAfterCache` | mctspy/tree/nodes.py:117-118 | popping from the cache filled by the getter gives the same arena as `Expanded` |
| `Arena.ExpandConserves` | mctspy/tree/nodes.py:117-124 | `expand` shortens the untried sequence by one and lengthens `children` by one |
| `Arena.ExpandValid` | mctspy/tree/nodes.py:117-124 | `expand` keeps every tree invariant, including the match between popped actions and their children, and does not change any existing parent link |
| `Arena.ForceCacheValid` | mctspy/tree/nodes.py:99-104 | filling the cache keeps every tree invariant and every parent link |
| `SearchTrees.SearchTree.Expand` | mctspy/tree/nodes.py:117-124 | the new tree is `Expanded` of the old one, the returned position is the new child, and all invariants hold |
| `Nodes.Bump` | mctspy/tree/nodes.py:138-141 | one more visit and one more count for the result; the counts of all other outcomes, and the rest of the node, are unchanged |
| `Arena.Ancestors` | mctspy/tree/nodes.py:142-143 | the nodes on the parent chain from a node contain the node itself, lie at earlier or equal positions, and include the parent of each member |
| `Arena.Backprop` | mctspy/tree/nodes.py:138-143 | `backpropagate` changes only visit counts and tallies: every node's state, parent, children and cache are unchanged |
| `Arena.BackpropAt` | mctspy/tree/nodes.py:138-143 | every node on the parent chain, the start node included, is bumped exactly once with the same result; every other node is unchanged |
| `Arena.BackpropStats` | mctspy/tree/nodes.py:139-141 | `backpropagate` keeps "the tally holds as many results as the node has visits" on every node |
| `Arena.BackpropMonotone` | mctspy/tree/nodes.py:138-143 | `backpropagate` keeps "no child has more visits than its parent" |
| `Arena.BackpropValid` | mctspy/tree/nodes.py:138-143 | `backpropagate` keeps every tree invariant |
| `Arena.RootIsAncestor` | mctspy/tree/nodes.py:142-143 | in a valid tree the walk from any node reaches the root |
| `Arena.RootCountsBackprop` | mctspy/tree/nodes.py:138-143 | every `backpropagate` adds exactly one visit and one copy of the result to the root |
| `Arena.PassesFrame` | mctspy/tree/nodes.py:138-143 | which recorded backpropagations pass through a node depends only on the parent links, and a node created after them is on none of their paths |
| `Arena.PassesRoot` | mctspy/tree/nodes.py:142-143 | every recorded backpropagation passes through the root |
| `Arena.ForceCacheAccounted` | mctspy/tree/nodes.py:99-104 | filling the cache keeps each node's visits and tally equal to the record of backpropagations through it |
| `Arena.ExpandAccounted` | mctspy/tree/nodes.py:117-124 | `expand` keeps each node's visits and tally equal to the record; the new child has none |
| `Arena.BackpropAccounted` | mctspy/tree/nodes.py:138-143 | after `backpropagate(r)` from node `i`, each node's visit count is the number of recorded calls whose path went through it, and its tally is the multiset of their results |
| `Arena.RootVisits` | mctspy/tree/nodes.py:138-143 | after N recorded calls of `backpropagate`, the root has N visits |
| `SearchTrees.BumpAncestors` | mctspy/tree/nodes.py:138-143 | walking the parent chain from node `i` to the root, bumping each node's visits and tally with the result, yields exactly `Backprop` of the input arena |
| `SearchTrees.SearchTree.Backpropagate` | mctspy/tree/nodes.py:138-143 | the new tree is `Backprop` of the old one, the call is appended to the history, the invariants hold, and the root's visit count equals the number of calls so far |
| `Nodes.PairBound` | mctspy/tree/nodes.py:109-110 | the counts of two different outcomes add up to at most the number of recorded results |
| `Nodes.Differential` | mctspy/tree/nodes.py:106-111 | wins minus losses of the mover is bounded in size by the number of recorded results |
| `Nodes.DifferentialRecord` | mctspy/tree/nodes.py:106-111 | recording a result changes the differential by +1 for a win of the mover, -1 for a win of the opponent and 0 for a draw |
| `Arena.QBounded` | mctspy/tree/nodes.py:106-111 | in a valid tree a non-root node has `-n <= q <= n` |
| `Arena.QAfterBackprop` | mctspy/tree/nodes.py:106-111 | after a `backpropagate`, `q` of a node on the path moves by +1, -1 or 0 depending on who won from its parent's mover's view; `q` of every other node is unchanged |
| `Arena.TerminalStable` | mctspy/tree/nodes.py:126-127 | the getter, `expand` and `backpropagate` never change whether an existing node is terminal |
| `Nodes.ArgMax` | mctspy/tree/nodes.py:66 | the position returned holds a maximum weight, and every earlier position holds a strictly smaller one (first maximum on ties) |
| `Arena.ChildWeights` | mctspy/tree/nodes.py:61-65 | one UCT weight per child, in the order of `children` |
| `Arena.BestChild` | mctspy/tree/nodes.py:60-66 | the result is a child whose weight is at least that of every sibling, and every sibling created before it has a strictly smaller weight |
| `Nodes.MeanOrder` | mctspy/tree/nodes.py:63 | with positive visit counts, comparing `q / n` is comparing the cross products |
| `Arena.GreedyBestChild` | mctspy/tree/nodes.py:60-66 | with `c_param = 0` the chosen child has the best mean value `q / n` among its siblings (stated by cross-multiplication), and every earlier sibling's is strictly worse |
| `Nodes.RolloutPolicy` | mctspy/tree/nodes.py:68-70 | the chosen move is one of the possible moves |
| `Nodes.PlayoutEndsOver` | mctspy/tree/nodes.py:129-136 | a playout always ends in a game-over state, and from a game-over state it makes no move |
| `Nodes.Rollout` | mctspy/tree/nodes.py:129-136 | the loop returns the game result of the state the playout ends in |

## Left out

- The search driver `MonteCarloTreeSearch` (tree policy, budget loop, final choice) is not part of this model: it is in `mctspy/tree/search.py`, outside the node module this model covers.
- `mctspy/main.py` is a Tkinter window with drawing and timer scheduling that drives a search on Connect 4. It is not part of this model.
- The `update` property (mctspy/tree/nodes.py:89-97) is a property over a method with parameters, so it can only run with its all-`None` defaults and does nothing. It is not modelled.
- The abstract methods of `MonteCarloTreeSearchNode` (mctspy/tree/nodes.py:19-55) declare an interface and have no behaviour.
- Arena.BestChild: the exploration term `c_param * sqrt(2 * ln(N) / n)` is the abstract parameter `bonus(N, n)`, because `sqrt` and `log` on floats cannot be modelled exactly. Weights are real numbers, not floats, so two weights that differ as reals but round to the same float are not treated as a tie. `c_param = 0` is `Nodes.NoExploration`.
- Arena.BestChild: requires at least one child and every child visited at least once. The source raises an error from `np.argmax` on an empty list, or divides by zero, in those cases; those errors are not modelled.
- Arena.Q: requires a parent. On the root the source fails with an attribute error, which is not modelled. In the source, reading a missing outcome from the `defaultdict` also inserts it with count 0. That is invisible in a multiset, whose counts are the same.
- SearchTrees.SearchTree.Expand: requires a non-empty untried sequence. The source raises an error from `list.pop` otherwise, and that error is not modelled.
- Nodes.Rollout: `np.random.randint` is replaced by an abstract stream `draw`, and the `step`-th move uses index `draw(step) % |moves|`. The loop has no bound in the source, so the model requires the game to come with a measure that every legal move lowers (`Games.Finite`). `Finite` also requires that a state that is not over has a legal move; the source raises an error from `randint(0)` otherwise.
- SearchTrees.SearchTree.Backpropagate: the source's `backpropagate` recurses once per ancestor, so Python's default recursion limit (about 1000 frames) makes it fail on deeper chains. The model's loop has no such limit, so "the same updates in the same order" holds only for chains within that limit.
- Visit counts and tallies are floats in the source, but they only ever hold whole numbers. They are `nat` here.
- Each node is an object in the source. Here it is a position in one arena, so object identity and aliasing are not modelled. In particular, the getter returns the live list, which callers could change. Here it returns a value, and only `expand` removes actions.
- Calling `move` with an illegal action is left to the game. Every move the model makes uses an action from the state's own legal list.
