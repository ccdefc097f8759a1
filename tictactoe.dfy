/**
 * The tic-tac-toe game state of examples/tictactoe/tic_tac_toe.hpp.
 *
 * A position is two 9-square occupancy boards, a terminal flag, the winner
 * (-1 for none or a draw) and the player to move. A std::bitset<9> is modelled
 * as the set of its set bits, a subset of the squares 0..8 (row-major), so
 * test is membership, set is adding a square, | is union and ~ is the
 * complement within the nine squares. The pure queries are functions on the
 * value type `State`; the members that change the object in place
 * (apply_move, check_terminal with its check_win test) are methods of the class
 * `TicTacToeState`, and the loops of possible_moves and check_win are methods,
 * each proved against the functions on `State`.
 */
module TicTacToe {

  /** The nine squares, bit positions 0..8. */
  const AllSquares: set<int> := {0, 1, 2, 3, 4, 5, 6, 7, 8}

  /** std::bitset<9>: the set of squares whose bit is set. */
  type Board = b: set<int> | b <= AllSquares witness {}

  /** The eight winning configurations, in the order of the source's `winning` table:
      the rows 0b000'000'111, 0b000'111'000, 0b111'000'000, the columns 0b001'001'001,
      0b010'010'010, 0b100'100'100 and the diagonals 0b100'010'001, 0b001'010'100. */
  const Lines: seq<Board> := [
    {0, 1, 2}, {3, 4, 5}, {6, 7, 8},
    {0, 3, 6}, {1, 4, 7}, {2, 5, 8},
    {0, 4, 8}, {2, 4, 6}
  ]

  /** `b` contains one of the eight lines: (board & config) == config, that is config is a
      subset of board, for some config. */
  predicate Wins(b: Board) {
    exists k :: 0 <= k < |Lines| && Lines[k] <= b
  }

  /** The squares k with from <= k < 9 in `e`, in ascending order
      (which squares they are is SquaresFromMembers). */
  function SquaresFrom(e: Board, from: nat): (r: seq<int>)
    requires from <= 9
    ensures forall k :: k in r ==> from <= k < 9
    ensures forall i, j :: 0 <= i < j < |r| ==> r[i] < r[j]
    decreases 9 - from
  {
    if from == 9 then []
    else
      var rest := SquaresFrom(e, from + 1);
      assert forall j :: 0 <= j < |rest| ==> from < rest[j] by {
        forall j | 0 <= j < |rest| ensures from < rest[j] {
          assert rest[j] in rest;
        }
      }
      if from in e then [from] + rest else rest
  }

  /** SquaresFrom lists exactly the squares of `e` from `from` on. */
  lemma {:induction false} SquaresFromMembers(e: Board, from: nat)
    requires from <= 9
    ensures forall k :: from <= k < 9 ==> (k in SquaresFrom(e, from) <==> k in e)
    decreases 9 - from
  {
    if from < 9 {
      SquaresFromMembers(e, from + 1);
    }
  }

  /** bitset::_Find_first / _Find_next: the first square of `e` at or after `from`, or 9
      (the bitset's size) when there is none. */
  function FindFrom(e: Board, from: nat): (r: nat)
    requires from <= 9
    ensures from <= r <= 9
    ensures r < 9 ==> r in e
    ensures forall k :: from <= k < r ==> k !in e
    decreases 9 - from
  {
    if from == 9 then 9 else if from in e then from else FindFrom(e, from + 1)
  }

  datatype State = State(occupied0: Board, occupied1: Board, terminal: bool, winner: int, currentPlayer: int)
  {
    /** occupied[p]. */
    function Occupied(p: int): Board
      requires p == 0 || p == 1
    {
      if p == 0 then occupied0 else occupied1
    }

    predicate Terminal() {
      terminal
    }

    function CurrentPlayer(): int {
      currentPlayer
    }

    /** Neither player occupies square m. */
    predicate IsValidMove(m: int)
      requires 0 <= m < 9
    {
      m !in occupied0 && m !in occupied1
    }

    /** ~(occupied[0] | occupied[1]). */
    function EmptySquares(): Board {
      AllSquares - (occupied0 + occupied1)
    }

    /** Every square is taken (check_draw: (occupied[0] | occupied[1]).all()). */
    predicate IsFull() {
      occupied0 + occupied1 == AllSquares
    }

    /** The legal moves: none once the game is over, otherwise the empty squares in ascending order. */
    function PossibleMoves(): (moves: seq<int>)
      ensures terminal ==> moves == []
      ensures !terminal ==> forall k :: k in moves <==> 0 <= k < 9 && IsValidMove(k)
      ensures forall i, j :: 0 <= i < j < |moves| ==> moves[i] < moves[j]
    {
      if terminal then []
      else
        var moves := SquaresFrom(EmptySquares(), 0);
        SquaresFromMembers(EmptySquares(), 0);
        assert forall k :: k in moves <==> 0 <= k < 9 && IsValidMove(k);
        moves
    }

    /** check_terminal(player): the state after the win test for `player` (both players, 0 first,
        when `player` is -1) and then the draw test; a win sets the winner. */
    function CheckTerminal(player: int): State
      requires player == -1 || player == 0 || player == 1
    {
      if player == -1 then
        if Wins(occupied0) then this.(terminal := true, winner := 0)
        else if Wins(occupied1) then this.(terminal := true, winner := 1)
        else this.(terminal := IsFull())
      else if Wins(Occupied(player)) then this.(terminal := true, winner := player)
      else this.(terminal := IsFull())
    }

    /** The square is on the board, free, and the game is not over (the asserts of apply_move). */
    predicate Legal(m: int) {
      !terminal && (currentPlayer == 0 || currentPlayer == 1) && 0 <= m < 9 && IsValidMove(m)
    }

    /** make_move(m): the position after the player to move takes square m. The current player
        flips by `^= 1`, which on {0, 1} is 1 - p. */
    function MakeMove(m: int): State
      requires Legal(m)
    {
      Place(m).CheckTerminal(currentPlayer).(currentPlayer := 1 - currentPlayer)
    }

    /** occupied[current_player_].set(m): the boards once the player to move has taken square m. */
    function Place(m: int): State
      requires (currentPlayer == 0 || currentPlayer == 1) && 0 <= m < 9
    {
      if currentPlayer == 0 then this.(occupied0 := occupied0 + {m})
      else this.(occupied1 := occupied1 + {m})
    }

    /** get_result(player) on a finished game: 0.5 for a draw, else 1 for the winner and 0 otherwise. */
    function GetResult(player: int): (r: real)
      requires terminal
      ensures 0.0 <= r <= 1.0
    {
      if winner == -1 then 0.5 else if player == winner then 1.0 else 0.0
    }
  }

  /** The default constructor: empty boards, not terminal, no winner, player 0 to move. */
  function Init(): State {
    State({}, {}, false, -1, 0)
  }

  /** The invariant every reachable position keeps: disjoint boards, a player 0 or 1 to move,
      a winner that owns a line, and a running game with no line and a free square. */
  predicate Inv(s: State) {
    s.occupied0 * s.occupied1 == {} &&
    (s.currentPlayer == 0 || s.currentPlayer == 1) &&
    (s.winner == -1 || s.winner == 0 || s.winner == 1) &&
    (s.winner != -1 ==> s.terminal && Wins(s.Occupied(s.winner))) &&
    (!s.terminal ==> s.winner == -1 && !Wins(s.occupied0) && !Wins(s.occupied1) && !s.IsFull())
  }

  /** Number of free squares: the quantity each move lowers by one. */
  function Empties(s: State): nat {
    |s.EmptySquares()|
  }

  // ---------------------------------------------------------------------------
  // Facts about boards.

  /** A board other than the full one misses some square. */
  lemma FreeSquare(b: Board)
    requires b != AllSquares
    ensures exists k :: 0 <= k < 9 && k !in b
  {
    var k :| k in AllSquares - b || k in b - AllSquares;
  }

  /** The squares from `from` on are those from the first set one on. */
  lemma {:induction false} SquaresSkip(e: Board, from: nat)
    requires from <= 9
    ensures SquaresFrom(e, from) == SquaresFrom(e, FindFrom(e, from))
    decreases 9 - from
  {
    if from < 9 && from !in e {
      SquaresSkip(e, from + 1);
    }
  }

  /** A set square heads the list from itself on, followed by the list from the next set one. */
  lemma SquaresStep(e: Board, from: nat)
    requires from < 9 && from in e
    ensures SquaresFrom(e, from) == [from] + SquaresFrom(e, FindFrom(e, from + 1))
  {
    SquaresSkip(e, from + 1);
  }

  lemma AppendAssoc(a: seq<int>, x: int, b: seq<int>)
    ensures (a + [x]) + b == a + ([x] + b)
  {
  }

  // ---------------------------------------------------------------------------
  // Properties of the game.

  /** On the full board every square is listed. */
  lemma EverySquare()
    ensures SquaresFrom(AllSquares, 0) == [0, 1, 2, 3, 4, 5, 6, 7, 8]
  {
    LastSquares();
    assert SquaresFrom(AllSquares, 4) == [4, 5, 6, 7, 8];
    assert SquaresFrom(AllSquares, 3) == [3, 4, 5, 6, 7, 8];
    assert SquaresFrom(AllSquares, 2) == [2, 3, 4, 5, 6, 7, 8];
    assert SquaresFrom(AllSquares, 1) == [1, 2, 3, 4, 5, 6, 7, 8];
  }

  /** The last four squares of the full board. */
  lemma LastSquares()
    ensures SquaresFrom(AllSquares, 5) == [5, 6, 7, 8]
  {
    assert SquaresFrom(AllSquares, 9) == [];
    assert SquaresFrom(AllSquares, 8) == [8];
    assert SquaresFrom(AllSquares, 7) == [7, 8];
    assert SquaresFrom(AllSquares, 6) == [6, 7, 8];
  }

  /** The empty board holds no line. */
  lemma EmptyBoardNoLine()
    ensures !Wins({})
  {
    forall k | 0 <= k < |Lines| ensures !(Lines[k] <= {}) {
      assert 0 in Lines[k] || 4 in Lines[k] || 8 in Lines[k];
    }
  }

  /** The default position: running, both boards empty, player 0 to move, all nine squares legal. */
  lemma InitialState()
    ensures Inv(Init())
    ensures !Init().Terminal() && Init().CurrentPlayer() == 0
    ensures Init().occupied0 == {} && Init().occupied1 == {}
    ensures Init().PossibleMoves() == [0, 1, 2, 3, 4, 5, 6, 7, 8]
    ensures Empties(Init()) == 9
  {
    InitialInv();
    InitialMoves();
  }

  lemma InitialInv()
    ensures Inv(Init())
  {
    EmptyBoardNoLine();
    assert 0 !in Init().occupied0 + Init().occupied1;
  }

  lemma InitialMoves()
    ensures Init().EmptySquares() == AllSquares
    ensures Init().PossibleMoves() == [0, 1, 2, 3, 4, 5, 6, 7, 8]
  {
    assert Init().EmptySquares() == AllSquares;
    EverySquare();
  }

  /** A running position (under the invariant) always has a legal move, so it is terminal
      exactly when its move list is empty. */
  lemma TerminalIffNoMoves(s: State)
    requires Inv(s)
    ensures s.Terminal() <==> s.PossibleMoves() == []
    ensures forall m :: m in s.PossibleMoves() ==> s.Legal(m)
  {
    if !s.terminal {
      FreeSquare(s.occupied0 + s.occupied1);
      var k :| 0 <= k < 9 && k !in s.occupied0 + s.occupied1;
      assert k in s.PossibleMoves();
    }
  }

  /** apply_move adds exactly square m to the mover's board, leaves the other board alone and
      hands the turn to the other player. */
  lemma MakeMoveBoards(s: State, m: int)
    requires s.Legal(m)
    ensures var t := s.MakeMove(m);
      var p := s.currentPlayer;
      t.Occupied(p) == s.Occupied(p) + {m} && t.Occupied(1 - p) == s.Occupied(1 - p) &&
      m !in s.Occupied(p) && t.currentPlayer == 1 - p
  {
  }

  /** After a move the game is over exactly when the mover holds a line or the board is full;
      the win test comes first, so a line completed on the last square makes the mover the winner. */
  lemma MakeMoveOutcome(s: State, m: int)
    requires Inv(s) && s.Legal(m)
    ensures var t := s.MakeMove(m);
      var p := s.currentPlayer;
      (t.Terminal() <==> Wins(t.Occupied(p)) || t.IsFull()) &&
      (t.winner == if Wins(t.Occupied(p)) then p else -1)
  {
  }

  /** Every move keeps the invariant. */
  lemma MakeMovePreservesInv(s: State, m: int)
    requires Inv(s) && s.Legal(m)
    ensures Inv(s.MakeMove(m))
  {
    MakeMoveBoards(s, m);
    MakeMoveOutcome(s, m);
  }

  /** The free squares after a move are those before it, less square m. */
  lemma MakeMoveEmptySquares(s: State, m: int)
    requires s.Legal(m)
    ensures s.MakeMove(m).EmptySquares() == s.EmptySquares() - {m}
    ensures m in s.EmptySquares()
  {
    MakeMoveBoards(s, m);
  }

  /** Every move fills exactly one free square: the rollout's termination measure. */
  lemma MakeMoveFillsOne(s: State, m: int)
    requires s.Legal(m)
    ensures Empties(s.MakeMove(m)) + 1 == Empties(s)
  {
    MakeMoveEmptySquares(s, m);
  }

  /** The results of a finished game sum to one: 0.5 each for a draw, 1 and 0 for a win. */
  lemma ResultsZeroSum(s: State)
    requires Inv(s) && s.Terminal()
    ensures s.GetResult(0) + s.GetResult(1) == 1.0
    ensures s.winner == -1 ==> s.GetResult(0) == 0.5 && s.GetResult(1) == 0.5
    ensures s.winner != -1 ==> s.GetResult(s.winner) == 1.0 && s.GetResult(1 - s.winner) == 0.0
  {
  }

  /** The _Find_first / _Find_next loop of possible_moves: push every set square in turn. */
  method CollectSquares(squares: Board) returns (moves: seq<int>)
    ensures moves == SquaresFrom(squares, 0)
  {
    moves := [];
    var square := FindFrom(squares, 0);
    SquaresSkip(squares, 0);
    while square != 9
      invariant square <= 9
      invariant square < 9 ==> square in squares
      invariant moves + SquaresFrom(squares, square) == SquaresFrom(squares, 0)
      decreases 9 - square
    {
      SquaresStep(squares, square);
      var next := FindFrom(squares, square + 1);
      AppendAssoc(moves, square, SquaresFrom(squares, next));
      moves := moves + [square];
      square := next;
    }
  }

  /** The loop of check_win: test the eight configurations in order, stopping at the first
      one the board contains. */
  method ScanLines(board: Board) returns (won: bool)
    ensures won == Wins(board)
  {
    var i := 0;
    while i < |Lines|
      invariant 0 <= i <= |Lines|
      invariant forall k :: 0 <= k < i ==> !(Lines[k] <= board)
    {
      if board * Lines[i] == Lines[i] {
        return true;
      }
      i := i + 1;
    }
    return false;
  }

  // ---------------------------------------------------------------------------
  // The object, with the members that change it in place.

  class TicTacToeState {
    var occupied: array<Board>
    var terminal: bool
    var winner: int
    var currentPlayer: int

    ghost predicate Valid()
      reads this
    {
      occupied.Length == 2
    }

    /** The position this object holds. */
    function Value(): (s: State)
      reads this, occupied
      requires Valid()
    {
      State(occupied[0], occupied[1], terminal, winner, currentPlayer)
    }

    /** TicTacToeState(): the default position. */
    constructor ()
      ensures Valid() && fresh(occupied)
      ensures Value() == Init()
    {
      occupied := new Board[2](_ => {});
      terminal, winner, currentPlayer := false, -1, 0;
    }

    /** The implicit copy constructor. */
    constructor Copy(other: TicTacToeState)
      requires other.Valid()
      ensures Valid() && fresh(occupied)
      ensures Value() == other.Value()
    {
      var boards := new Board[2];
      boards[0], boards[1] := other.occupied[0], other.occupied[1];
      occupied := boards;
      terminal, winner, currentPlayer := other.terminal, other.winner, other.currentPlayer;
    }

    /** possible_moves(): no moves once the game is over, otherwise the empty squares. */
    method PossibleMoves() returns (moves: seq<int>)
      requires Valid()
      ensures moves == Value().PossibleMoves()
    {
      if terminal {
        return [];
      }
      moves := CollectSquares(AllSquares - (occupied[0] + occupied[1]));
    }

    /** The check_win lambda: on the first line the player's board contains, record the
        player as the winner and report a win. */
    method CheckWin(player: int) returns (won: bool)
      requires Valid() && (player == 0 || player == 1)
      modifies this
      ensures Valid() && occupied == old(occupied)
      ensures won == Wins(old(Value()).Occupied(player))
      ensures Value() == if won then old(Value()).(winner := player) else old(Value())
    {
      won := ScanLines(occupied[player]);
      if won {
        winner := player;
      }
    }

    /** check_terminal(player): set the terminal flag (and the winner on a win). */
    method CheckTerminal(player: int) returns (t: bool)
      requires Valid() && !terminal && (player == -1 || player == 0 || player == 1)
      modifies this
      ensures Valid() && occupied == old(occupied)
      ensures Value() == old(Value()).CheckTerminal(player)
      ensures t == terminal
    {
      var won: bool;
      if player == -1 {
        won := CheckWin(0);
        if !won {
          won := CheckWin(1);
        }
      } else {
        won := CheckWin(player);
      }
      terminal := won || occupied[0] + occupied[1] == AllSquares;
      t := terminal;
    }

    /** apply_move(m): place the mover's mark on square m, update the terminal state, pass the turn. */
    method ApplyMove(m: int)
      requires Valid() && Value().Legal(m)
      modifies this, occupied
      ensures Valid() && occupied == old(occupied)
      ensures Value() == old(Value()).MakeMove(m)
    {
      occupied[currentPlayer] := occupied[currentPlayer] + {m};
      var _ := CheckTerminal(currentPlayer);
      currentPlayer := 1 - currentPlayer;
    }

    /** make_move(m): copy, then apply_move on the copy; this object is left unchanged. */
    method MakeMove(m: int) returns (next: TicTacToeState)
      requires Valid() && Value().Legal(m)
      ensures fresh(next) && fresh(next.occupied) && next.Valid()
      ensures next.Value() == Value().MakeMove(m)
      ensures unchanged(this) && unchanged(occupied)
    {
      next := new TicTacToeState.Copy(this);
      next.ApplyMove(m);
    }
  }
}
