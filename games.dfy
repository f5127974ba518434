/** The game-state interface the search node relies on.  A concrete game
    (tic-tac-toe, Connect 4, ...) is not part of this model: it is passed in
    as a value holding its five operations. */
module Games {

  /** The signed identity of a player, the `next_to_move` of a state. */
  type Player = x: int | x == 1 || x == -1 witness 1

  /** An outcome as reported by `game_result`: one player's identity for a
      win, any other value (a draw marker) otherwise. */
  type Outcome = int

  /** `get_legal_actions`, `move`, `is_game_over`, `game_result` and
      `next_to_move` of a two-player game state. */
  datatype Game<!S, !A> = Game(
    legalActions: S -> seq<A>,
    move: (S, A) -> S,
    isGameOver: S -> bool,
    gameResult: S -> Outcome,
    nextToMove: S -> Player)

  /** What a random playout needs from the game: a state that is not over has
      a legal action, and every legal move lowers the measure `depth`, so no
      sequence of moves goes on for ever. */
  ghost predicate Finite<S(!new), A>(g: Game<S, A>, depth: S -> nat)
  {
    forall s :: !g.isGameOver(s) ==>
      |g.legalActions(s)| > 0 &&
      forall a :: a in g.legalActions(s) ==> depth(g.move(s, a)) < depth(s)
  }
}
