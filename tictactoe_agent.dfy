/**
 * The engine instantiated with the tic-tac-toe position, as the example program
 * examples/tictactoe/main.cpp does: Agent<TicTacToeState>.
 *
 * The C++ engine calls make_move and get_result only where the game's own asserts hold (a
 * listed move, a finished game); the record of total functions the engine takes maps the
 * other arguments to harmless values that no law and no proof uses.
 */
module TicTacToeAgent {
  import opened TicTacToe
  import Mcts

  /** TicTacToeState as the engine's game: the reachable positions are those meeting Inv, and
      the number of free squares is the measure every move lowers. */
  function Game(): Mcts.Game<State, int> {
    Mcts.Game(
      (s: State) => s.Terminal(),
      (s: State) => s.PossibleMoves(),
      (s: State) => s.CurrentPlayer(),
      (s: State, m: int) => if s.Legal(m) then s.MakeMove(m) else s,
      (s: State, p: int) => if s.Terminal() then s.GetResult(p) else 0.0,
      Inv,
      Empties)
  }

  /** Tic-tac-toe meets the engine's contract: a reachable position is finished exactly when it
      has no moves, every listed move keeps the invariant and fills a square, and every result
      lies in [0, 1]. */
  lemma GameMeetsLaws()
    ensures Mcts.GameLaws(Game())
  {
    var g := Game();
    forall s | Inv(s) ensures g.terminal(s) <==> g.possibleMoves(s) == [] {
      TerminalIffNoMoves(s);
    }
    forall s, m | Inv(s) && m in g.possibleMoves(s)
      ensures g.valid(g.makeMove(s, m)) && g.rank(g.makeMove(s, m)) < g.rank(s)
    {
      TerminalIffNoMoves(s);
      MakeMovePreservesInv(s, m);
      MakeMoveFillsOne(s, m);
    }
  }

  /** A rollout from a reachable position makes at most one draw per free square and ends in a
      finished game whose two results sum to one. */
  lemma {:induction false} PlayoutDraws(s: State, rng: Mcts.Random)
    requires Inv(s)
    ensures Mcts.GameLaws(Game())
    ensures var r := Mcts.Playout(Game(), s, rng);
      rng.pos <= r.1.pos <= rng.pos + Empties(s) && r.1.stream == rng.stream &&
      Inv(r.0) && r.0.Terminal() && r.0.GetResult(0) + r.0.GetResult(1) == 1.0
    decreases Empties(s)
  {
    GameMeetsLaws();
    var g := Game();
    if !s.Terminal() {
      var moves := s.PossibleMoves();
      TerminalIffNoMoves(s);
      var d := rng.Draw(|moves|);
      MakeMovePreservesInv(s, moves[d.0]);
      MakeMoveFillsOne(s, moves[d.0]);
      PlayoutDraws(s.MakeMove(moves[d.0]), d.1);
    }
    ResultsZeroSum(Mcts.Playout(g, s, rng).0);
  }

  /** An agent on the opening position (Agent<TicTacToeState>(), shuffling) that runs n > 0
      iterations and picks a move: the root has seen exactly n rollouts and the move is a
      square of the empty board. */
  method OpeningMove(n: nat, select: Mcts.Selector<State, int>, stream: nat -> nat)
    returns (move: int, agent: Mcts.Agent<State, int>)
    requires n > 0
    ensures 0 <= move < 9
    ensures agent.Valid() && agent.Counted() && agent.root < |agent.nodes|
    ensures agent.nodes[agent.root].visits == n && agent.nodes[agent.root].state == Init()
  {
    GameMeetsLaws();
    InitialState();
    move, agent := Mcts.FreshSearch(Game(), Init(), true, stream, n, select);
  }
}
