/** One vertex of the search tree, as a value, and the computations that
    involve a single node: the lazy untried-action cache, the statistics
    update, the win-minus-loss differential, the UCT weight with its argmax,
    and the random playout. */
module Nodes {
  import opened Wrappers
  import opened Games

  /** A search node.  `parent` and `children` are positions in the arena
      that holds the whole tree; `tally` counts how many backpropagated
      results had each outcome (a `defaultdict(int)`, so an outcome never
      seen reads 0); `untried` is `None` until the cache is first filled. */
  datatype Node<S, A> = Node(
    state: S,
    parent: Option<nat>,
    children: seq<nat>,
    visits: nat,
    tally: multiset<Outcome>,
    untried: Option<seq<A>>)

  /** A node as `__init__` builds it: no children, no visits, an empty
      tally and no cached actions. */
  function Fresh<S, A>(state: S, parent: Option<nat>): Node<S, A>
  {
    Node(state, parent, [], 0, multiset{}, None)
  }

  /** The sequence the `untried_actions` getter returns: the cached one, or,
      before the first access, the state's legal actions. */
  function Untried<S, A>(g: Game<S, A>, nd: Node<S, A>): seq<A>
  {
    match nd.untried
    case Some(u) => u
    case None => g.legalActions(nd.state)
  }

  /** The node after one access of the `untried_actions` getter: the cache
      is filled from the legal actions only if it was empty, and nothing
      else changes. */
  function Cached<S, A>(g: Game<S, A>, nd: Node<S, A>): (r: Node<S, A>)
    ensures r.untried == Some(Untried(g, nd))
    ensures nd.untried.Some? ==> r == nd
    ensures nd.untried.None? ==> r.untried == Some(g.legalActions(nd.state))
    ensures r == nd.(untried := r.untried)
  {
    if nd.untried.Some? then nd else nd.(untried := Some(g.legalActions(nd.state)))
  }

  /** One step of backpropagating `result` through a node: one more visit
      and one more occurrence of `result` in the tally. */
  function Bump<S, A>(nd: Node<S, A>, result: Outcome): (r: Node<S, A>)
    ensures r.visits == nd.visits + 1
    ensures r.tally[result] == nd.tally[result] + 1
    ensures forall o :: o != result ==> r.tally[o] == nd.tally[o]
    ensures r == nd.(visits := r.visits, tally := r.tally)
  {
    nd.(visits := nd.visits + 1, tally := nd.tally + multiset{result})
  }

  /** Two different outcomes together occur no more often than the tally
      holds entries. */
  lemma {:induction false} PairBound(m: multiset<Outcome>, a: Outcome, b: Outcome)
    requires a != b
    ensures m[a] + m[b] <= |m|
    decreases |m|
  {
    if m[a] > 0 {
      var rest := m - multiset{a};
      assert m == rest + multiset{a};
      PairBound(rest, a, b);
    } else if m[b] > 0 {
      var rest := m - multiset{b};
      assert m == rest + multiset{b};
      PairBound(rest, a, b);
    }
  }

  /** `q`: the wins of `mover` (the player to move at the parent) minus
      the wins of the opponent.  It is never larger in size than the
      number of recorded results. */
  function Differential(tally: multiset<Outcome>, mover: Player): (q: int)
    ensures -|tally| <= q <= |tally|
  {
    PairBound(tally, mover, -(mover as int));
    (tally[mover] as int) - tally[-(mover as int)]
  }

  /** Recording one more result moves the differential by +1 for a win of
      the mover, by -1 for a win of the opponent and not at all for a draw. */
  lemma DifferentialRecord(tally: multiset<Outcome>, mover: Player, result: Outcome)
    ensures Differential(tally + multiset{result}, mover) ==
      Differential(tally, mover) + (if result == mover then 1 else if result == -(mover as int) then -1 else 0)
  {
  }

  /** The UCT weight `q / n + c * sqrt(2 * ln(N) / n)` of a child with
      differential `q` and `n` visits whose parent has `N` visits; the
      exploration term is the abstract `bonus(N, n)`. */
  function Weight(q: int, n: nat, parentVisits: nat, bonus: (nat, nat) -> real): real
    requires n > 0
  {
    (q as real) / (n as real) + bonus(parentVisits, n)
  }

  /** The exploration term with `c_param = 0`: pure exploitation. */
  function NoExploration(parentVisits: nat, n: nat): real
  {
    0.0
  }

  /** `np.argmax`: the position of a maximum, the first one on ties. */
  function ArgMax(w: seq<real>): (k: nat)
    requires |w| > 0
    ensures k < |w|
    ensures forall j :: 0 <= j < |w| ==> w[j] <= w[k]
    ensures forall j :: 0 <= j < k ==> w[j] < w[k]
    decreases |w|
  {
    if |w| == 1 then 0
    else
      var k := ArgMax(w[..|w| - 1]);
      if w[k] < w[|w| - 1] then |w| - 1 else k
  }

  /** Between positive counts, comparing the mean values `q / n` is the same
      as comparing the cross products. */
  lemma MeanOrder(q1: int, n1: nat, q2: int, n2: nat)
    requires n1 > 0 && n2 > 0
    ensures (q1 as real) / (n1 as real) <= (q2 as real) / (n2 as real) <==> q1 * n2 <= q2 * n1
    ensures (q1 as real) / (n1 as real) < (q2 as real) / (n2 as real) <==> q1 * n2 < q2 * n1
  {
  }

  /** `rollout_policy`: the move at a position drawn from the random source;
      `randint(len(moves))` is `draw % |moves|` for the abstract draw. */
  function RolloutPolicy<A>(moves: seq<A>, draw: nat): (a: A)
    requires |moves| > 0
    ensures a in moves
  {
    moves[draw % |moves|]
  }

  /** The state a playout from `s` ends in, when the `step`-th move of the
      playout uses the random value `draw(step)`. */
  ghost function Playout<S(!new), A>(g: Game<S, A>, depth: S -> nat, draw: nat -> nat, s: S, step: nat): S
    requires Finite(g, depth)
    decreases depth(s)
  {
    if g.isGameOver(s) then s
    else Playout(g, depth, draw, g.move(s, RolloutPolicy(g.legalActions(s), draw(step))), step + 1)
  }

  /** A playout always stops in a state where the game is over, and from a
      state where it is over already it makes no move. */
  lemma {:induction false} PlayoutEndsOver<S(!new), A>(g: Game<S, A>, depth: S -> nat, draw: nat -> nat, s: S, step: nat)
    requires Finite(g, depth)
    ensures g.isGameOver(Playout(g, depth, draw, s, step))
    ensures g.isGameOver(s) ==> Playout(g, depth, draw, s, step) == s
    decreases depth(s)
  {
    if !g.isGameOver(s) {
      var a := RolloutPolicy(g.legalActions(s), draw(step));
      PlayoutEndsOver(g, depth, draw, g.move(s, a), step + 1);
    }
  }

  /** `rollout`: play random legal moves from the node's state until the
      game is over and report the result; the tree is not touched. */
  method Rollout<S(!new), A>(g: Game<S, A>, ghost depth: S -> nat, draw: nat -> nat, s: S) returns (result: Outcome)
    requires Finite(g, depth)
    ensures result == g.gameResult(Playout(g, depth, draw, s, 0))
  {
    var current := s;
    var step := 0;
    while !g.isGameOver(current)
      invariant Playout(g, depth, draw, current, step) == Playout(g, depth, draw, s, 0)
      decreases depth(current)
    {
      var moves := g.legalActions(current);
      var action := RolloutPolicy(moves, draw(step));
      current := g.move(current, action);
      step := step + 1;
    }
    result := g.gameResult(current);
  }
}
