# Monte Carlo tree search engine and tic-tac-toe, in Dafny

This project models the Monte Carlo tree search (MCTS) engine `mcts::Agent<GameState>`
(`include/mcts/agent.hpp`, and its older copy `include/mcts/Agent.hpp`) together with the
`TicTacToeState` game it is played with (`examples/tictactoe/tic_tac_toe.hpp`), and proves
what the engine keeps true of its search tree.

The engine repeats one select / expand / simulate / backpropagate iteration:
- **select**: descend from the root through non-terminal, fully expanded nodes along the child
  `select_child` picks;
- **expand**: add one child for the next untried move;
- **simulate**: play random moves to the end (`rollout`);
- **backpropagate**: add a visit and the result to every node on the way back to the root.

`search_move` returns the move of the most visited child of the root. `apply_move` moves the
root: it promotes the child the move leads to, or builds a fresh root.

Three modules:
- `Mcts` (`mcts.dfy`) is the engine.
  - The `GameState` template parameter is a record of total functions, `Game`. The laws the
    engine relies on are `GameLaws`.
  - The tree is an arena: a `seq<Node>` whose nodes refer to their parent and children by
    index, held in the fields of the class `Agent`. The class's methods update those fields in
    place, as the C++ members do.
  - `Arena` is the ghost invariant. It covers the links, the labels (children[k] is the
    position after possible_moves[k]; `children.size()` equals the cursor) and the visit
    balance. `OneRolloutEach` counts the rollouts launched at each node.
- `TicTacToe` (`tictactoe.dfy`) is the game.
  - `State` is the value of a position, with the pure queries as functions.
  - The class `TicTacToeState` holds the two boards in an `array`. Its `apply_move`,
    `check_terminal` and `check_win` change it in place. The loops of `possible_moves` and
    `check_win` are methods, proved against the functions on `State`.
- `TicTacToeAgent` (`tictactoe_agent.dfy`) instantiates the engine with tic-tac-toe, as
  `examples/tictactoe/main.cpp` does. It proves that tic-tac-toe meets the game laws.

Modelling choices:
- A `std::bitset<9>` is the set of its set squares.
- The random engine is a stream of raw draws. The wall-clock budget of `search_move` is an
  iteration count `n`. The UCT rule of `select_child` is an oracle `Selector`.
- `include/mcts/Agent.hpp` is the same engine under older names: `compute_move` is
  `search_move`, and `get_possible_moves` is `possible_moves`. The same members model it; the
  section "The older copy" maps its lines to them.

## Model

| member | source | states |
|---|---|---|
| Mcts.Random.Draw | include/mcts/agent.hpp:104 | uniform_int_distribution(0, n-1): the index drawn is below n; the engine moves one draw on |
| Mcts.Shuffle | include/mcts/agent.hpp:122-124 | std::ranges::shuffle: the result is a permutation of the moves (same multiset and length) |
| Mcts.NewNode | include/mcts/agent.hpp:114-126 | node construction: given parent, player and state; visits 0, score 0, no children, cursor at the start; moves a permutation of possible_moves(), their own order when not shuffling (the engine is then untouched) |
| Mcts.Playout | include/mcts/agent.hpp:101-108 | the game a rollout plays ends in a valid, terminal position, drawing from the same stream and only moving it forward; it terminates because every move lowers the game's rank |
| Mcts.PlayoutOfTerminal | include/mcts/agent.hpp:102 | a rollout from a finished position returns it and draws nothing |
| Mcts.Rollout | include/mcts/agent.hpp:101-108 | the rollout loop returns exactly the playout's position and engine, which is terminal |
| Mcts.IndexOf | include/mcts/agent.hpp:34-35 | std::ranges::find offset: the first position holding the move, or the size exactly when it is absent |
| Mcts.MostVisited | include/mcts/agent.hpp:59-68 | the final loop of search_move: -1 exactly when no child has a visit, otherwise the first index with the strictly largest positive count |
| Mcts.FirstMostUnique | include/mcts/agent.hpp:59-68 | the index that loop defines is unique |
| Mcts.NodeStatus | include/mcts/agent.hpp:145-165 | is_terminal of a live node holds exactly when its position is terminal; is_fully_expanded holds exactly when every move has its child |
| Mcts.Node.IsTerminal | include/mcts/agent.hpp:145-147 | is_terminal(): the node's move list is empty (definition; its meaning for live nodes is Mcts.NodeStatus) |
| Mcts.Node.IsFullyExpanded | include/mcts/agent.hpp:163-165 | is_fully_expanded(): the cursor is at the end of the move list (definition; see Mcts.NodeStatus) |
| Mcts.Grow | include/mcts/agent.hpp:169-171 | the arena after expand: node i's cursor advanced and the new node's index appended to its children, the new node at the end (definition) |
| Mcts.Bumped | include/mcts/agent.hpp:177-181 | one backpropagate step on a node: one more visit, and get_result(player) added to the score unless player is -1 (definition) |
| Mcts.Climbed | include/mcts/agent.hpp:175-183 | the arena once backpropagate has passed the chain from x down to cur: every chain node above cur Bumped, all others unchanged (definition) |
| Mcts.Promote | include/mcts/agent.hpp:37-41 | the arena after promoting child c: c has no parent, player -1 and score 0, all else unchanged (definition) |
| Mcts.Descend | include/mcts/agent.hpp:86-92 | the node select_node reaches: follow select's child while the node has moves and has tried them all (definition) |
| Mcts.Launched | include/mcts/agent.hpp:93-98 | the arena and engine after expand (unless terminal), rollout and backpropagate from a node: Climbed of Grow with a new node for the untried move, or Climbed of the arena, with the playout's final position (definition) |
| Mcts.Iterated | include/mcts/agent.hpp:85-99 | one whole iteration: Launched at the node Descend reaches from the root (definition) |
| Mcts.LaunchedTerminal | include/mcts/agent.hpp:94-98 | an arena backpropagated from a terminal node with its own playout is what Launched describes |
| Mcts.LaunchedExpanded | include/mcts/agent.hpp:94-98 | an arena grown by a new node for the untried move and backpropagated from it with its playout is what Launched describes |
| Mcts.LiveNode | include/mcts/agent.hpp:139-143 | a live node has a valid state, moves that are a permutation of the state's, `children.size()` equal to the cursor, later-indexed live children, and the visit balance |
| Mcts.LiveReachesRoot | include/mcts/agent.hpp:176 | every parent chain of the tree ends at the root, so the backpropagate loop reaches it |
| Mcts.ExpandKeeps | include/mcts/agent.hpp:167-173 | appending the expanded child keeps the arena invariant: positional correspondence, cursor equal to the child count, parent and player links |
| Mcts.BumpKeeps | include/mcts/agent.hpp:176-182 | one step of backpropagate keeps the invariant, with the missing visit moved to the parent |
| Mcts.ClimbStep | include/mcts/agent.hpp:176-182 | one loop step extends the visited part of the chain to the parent and keeps the invariant |
| Mcts.ClimbDone | include/mcts/agent.hpp:175-183 | after the whole walk no state or move list has changed; the root has one more visit and, its player being -1, the same score |
| Mcts.LaunchKeeps | include/mcts/agent.hpp:97-98 | counting a launched rollout leaves its node exactly one visit short until it is backpropagated |
| Mcts.VisitsBalance | include/mcts/agent.hpp:93-98 | a live node with moves has visits = Σ children visits, plus 1 if expand made it (its own rollout) |
| Mcts.ChildrenVisited | include/mcts/agent.hpp:150-161 | every child of a live node has at least one visit, so the UCT value never divides by zero |
| Mcts.PromoteKeeps | include/mcts/agent.hpp:36-41 | promoting a child keeps the invariant on its subtree with that child as root |
| Mcts.PromoteCounted | include/mcts/agent.hpp:36-41 | promoting a child keeps the rollout counts of its subtree |
| Mcts.FreshRootKeeps | include/mcts/agent.hpp:42-45 | a fresh root built from a state is a valid one-node tree |
| Mcts.IterationCounted | include/mcts/agent.hpp:93-98 | one iteration launches its single rollout at the node it expanded or at a terminal node, so the rollout counts stay correct |
| Mcts.Agent.constructor | include/mcts/agent.hpp:21-24 | a one-node tree whose root is a new node (no parent, player -1) on the state; the engine is seeded with the stream; shuffling is on unless turned off, as the C++ default |
| Mcts.Agent.State | include/mcts/agent.hpp:26-28 | state(): the root position, valid, and terminal exactly when the root has no moves |
| Mcts.Agent.Expand | include/mcts/agent.hpp:167-173 | the cursor moves on by one and exactly one child is appended (the new arena is `Grow` of the old): parent this node, player current_player(), state make_move(the cursor's move); the engine keeps its stream, and is untouched without shuffling; the invariant holds |
| Mcts.Agent.Backpropagate | include/mcts/agent.hpp:175-183 | the nodes on the chain from x to the root gain one visit each; score gains get_result(player) unless player is -1; no other node changes; root score unchanged |
| Mcts.Agent.SelectNode | include/mcts/agent.hpp:86-92 | the select_node lambda returns exactly `Descend` from the root, the node reached by following select's choices through non-terminal, fully expanded nodes; that node is live and terminal or still has an untried move |
| Mcts.Agent.RolloutFrom | include/mcts/agent.hpp:97-98 | rollout then backpropagate from x: the new arena is exactly `Climbed` of the old one from x with the playout's final position, and the engine is the one the playout leaves; the root gains one visit |
| Mcts.Agent.ExecuteOneIteration | include/mcts/agent.hpp:85-99 | the new arena and engine are exactly those `Iterated` defines (descend, expand unless terminal, play out from the expanded or reached node, backpropagate from it); the invariant and rollout counts are kept, at most one node is added, the root gains exactly one visit |
| Mcts.Agent.IterateFrom | include/mcts/agent.hpp:93-98 | from the node select_node reached: the new arena and engine are exactly those `Launched` defines; the invariant and rollout counts are kept and the root gains one visit |
| Mcts.Agent.SearchMove | include/mcts/agent.hpp:51-70 | n iterations add n root visits and keep the engine's stream; the move returned is possible_moves[k] for the first child k with the strictly largest visit count, and that k is the only such index |
| Mcts.Agent.ApplyMove | include/mcts/agent.hpp:31-46 | an expanded move promotes its child (no parent, player -1, score 0, visits and subtree kept) and draws nothing; otherwise a fresh root on make_move(move) is built, with the engine on the same stream (untouched without shuffling) |
| Mcts.Agent.PromoteChild | include/mcts/agent.hpp:36-41 | the chosen child becomes the root, the live tree shrinks to its subtree, and the engine is untouched |
| Mcts.Agent.ReplaceRoot | include/mcts/agent.hpp:43-44 | a new node on the given state, at the end of the arena, is the whole tree; the engine keeps its stream, and is untouched without shuffling |
| Mcts.FreshSearch | examples/tictactoe/main.cpp:33-36 | a fresh agent that runs n > 0 iterations has exactly n root visits, equal to the sum of its children's visits, and returns one of the position's moves |
| TicTacToe.SquaresFrom | examples/tictactoe/tic_tac_toe.hpp:28-33 | the squares listed are in range and strictly ascending |
| TicTacToe.SquaresFromMembers | examples/tictactoe/tic_tac_toe.hpp:28-33 | the squares listed are exactly those of the board from the start square on |
| TicTacToe.FindFrom | examples/tictactoe/tic_tac_toe.hpp:30 | _Find_first / _Find_next: the first set square at or after `from`, or 9 when none |
| TicTacToe.Init | examples/tictactoe/tic_tac_toe.hpp:11-14 | the default position: empty boards, not terminal, winner -1, player 0 to move (definition; see TicTacToe.InitialState) |
| TicTacToe.Wins | examples/tictactoe/tic_tac_toe.hpp:72-76 | the board contains one of the eight `winning` configurations (the constant `Lines`, in the table's order): (board & config) == config (definition) |
| TicTacToe.State.Terminal | examples/tictactoe/tic_tac_toe.hpp:16-18 | terminal(): the terminal flag (definition) |
| TicTacToe.State.CurrentPlayer | examples/tictactoe/tic_tac_toe.hpp:50-52 | current_player() (definition) |
| TicTacToe.State.IsValidMove | examples/tictactoe/tic_tac_toe.hpp:20-22 | is_valid_move(m): neither board holds square m (definition) |
| TicTacToe.State.Legal | examples/tictactoe/tic_tac_toe.hpp:37-38 | the asserts of apply_move: a running game, a square 0..8 that is valid, and a player 0 or 1 (definition) |
| TicTacToe.State.EmptySquares | examples/tictactoe/tic_tac_toe.hpp:83-85 | get_empty_squares(): the squares neither board holds (definition; see TicTacToe.MakeMoveEmptySquares) |
| TicTacToe.State.IsFull | examples/tictactoe/tic_tac_toe.hpp:99-101 | check_draw: every square is taken (definition) |
| TicTacToe.State.Place | examples/tictactoe/tic_tac_toe.hpp:39 | occupied[current_player_].set(m) (definition) |
| TicTacToe.State.CheckTerminal | examples/tictactoe/tic_tac_toe.hpp:87-108 | check_terminal(player) on values: the wins of player (both, 0 first, for -1) set terminal and winner, otherwise terminal is check_draw (definition; see TicTacToe.MakeMoveOutcome) |
| TicTacToe.State.MakeMove | examples/tictactoe/tic_tac_toe.hpp:36-48 | make_move: place, check_terminal(mover), flip the player by ^= 1, which is 1 - p on {0, 1} (definition; see the TicTacToe.MakeMove lemmas) |
| TicTacToe.State.PossibleMoves | examples/tictactoe/tic_tac_toe.hpp:24-34 | no moves on a finished game; otherwise exactly the empty squares, strictly ascending |
| TicTacToe.State.GetResult | examples/tictactoe/tic_tac_toe.hpp:59-65 | the result lies in [0, 1] |
| TicTacToe.InitialState | examples/tictactoe/tic_tac_toe.hpp:11-14 | the default position is running, with empty boards and player 0 to move, and all nine squares as moves |
| TicTacToe.EmptyBoardNoLine | examples/tictactoe/tic_tac_toe.hpp:72-76 | no winning configuration fits the empty board |
| TicTacToe.TerminalIffNoMoves | examples/tictactoe/tic_tac_toe.hpp:16-34 | a reachable position is terminal exactly when it has no moves, and every listed move is legal |
| TicTacToe.MakeMoveBoards | examples/tictactoe/tic_tac_toe.hpp:36-42 | a move sets exactly that square on the mover's board, leaves the other board and flips the player |
| TicTacToe.MakeMoveOutcome | examples/tictactoe/tic_tac_toe.hpp:87-108 | after a move the game is over exactly when the mover holds a line or the board is full; the win is checked first, so the mover wins on a line completed on the last square |
| TicTacToe.MakeMovePreservesInv | examples/tictactoe/tic_tac_toe.hpp:36-42 | moves keep the boards disjoint and the winner and terminal flag consistent |
| TicTacToe.MakeMoveEmptySquares | examples/tictactoe/tic_tac_toe.hpp:83-85 | a move removes exactly its square from the empty squares |
| TicTacToe.MakeMoveFillsOne | examples/tictactoe/tic_tac_toe.hpp:39 | each move fills exactly one free square: the rollout's termination measure |
| TicTacToe.ResultsZeroSum | examples/tictactoe/tic_tac_toe.hpp:59-65 | a draw gives 0.5 each, a win 1 and 0; the two results sum to 1 |
| TicTacToe.CollectSquares | examples/tictactoe/tic_tac_toe.hpp:28-33 | the _Find_first / _Find_next loop pushes exactly the listed squares, in order |
| TicTacToe.ScanLines | examples/tictactoe/tic_tac_toe.hpp:91-97 | the loop over `winning` reports a win exactly when the board contains a line |
| TicTacToe.TicTacToeState.constructor | examples/tictactoe/tic_tac_toe.hpp:11-14 | the object holds the default position |
| TicTacToe.TicTacToeState.Copy | examples/tictactoe/tic_tac_toe.hpp:45 | the copy holds the same position, in fresh storage |
| TicTacToe.TicTacToeState.PossibleMoves | examples/tictactoe/tic_tac_toe.hpp:24-34 | the method returns the moves the function defines |
| TicTacToe.TicTacToeState.CheckWin | examples/tictactoe/tic_tac_toe.hpp:89-98 | check_win reports whether the player's board contains a line, and on a win records the player as winner |
| TicTacToe.TicTacToeState.CheckTerminal | examples/tictactoe/tic_tac_toe.hpp:87-108 | the object is updated as the check_terminal function defines: wins checked first (0 before 1 for -1), then the draw |
| TicTacToe.TicTacToeState.ApplyMove | examples/tictactoe/tic_tac_toe.hpp:36-42 | apply_move changes the object to make_move of its position |
| TicTacToe.TicTacToeState.MakeMove | examples/tictactoe/tic_tac_toe.hpp:44-48 | make_move returns a new object with the moved position and leaves this one unchanged |
| TicTacToeAgent.GameMeetsLaws | examples/tictactoe/tic_tac_toe.hpp:16-65 | tic-tac-toe meets the engine's game laws: terminal iff no moves, moves keep validity and fill a square, results in [0, 1] |
| TicTacToeAgent.Game | examples/tictactoe/main.cpp:33-34 | Agent<TicTacToeState>: the engine's game record built from terminal(), possible_moves(), current_player(), make_move() and get_result(), with Inv as the reachable positions and the free-square count as rank (definition) |
| TicTacToeAgent.PlayoutDraws | include/mcts/agent.hpp:101-108 | a tic-tac-toe rollout makes at most one draw per free square and ends in a finished game whose two results sum to 1 |
| TicTacToeAgent.OpeningMove | examples/tictactoe/main.cpp:33-36 | an agent on the opening position that searches n > 0 iterations has n root visits and returns a square 0..8 |

## The older copy

`include/mcts/Agent.hpp` is modelled by the same members. Its lines map to them as follows:

- `Mcts.Agent.constructor` — lines 15-18: the same constructor
- `Mcts.NewNode` — lines 65-77: Node construction, moves a permutation of get_possible_moves()
- `Mcts.NodeStatus` — lines 92-111: is_terminal and is_fully_expanded
- `Mcts.Agent.Expand` — lines 113-118: expand
- `Mcts.Agent.Backpropagate` — lines 120-127: backpropagate
- `Mcts.Rollout` — lines 137-144: rollout
- `Mcts.Agent.SelectNode` — lines 147-153: the select_node lambda
- `Mcts.Agent.ExecuteOneIteration` — lines 146-160: execute_one_iteration
- `Mcts.Agent.SearchMove` — lines 39-58: compute_move
- `Mcts.MostVisited` — lines 47-56: the final loop of compute_move
- `Mcts.Agent.ApplyMove` — lines 24-37: apply_move

## Left out

- select_child's UCT arithmetic (sqrt, log, double division) is floating point. Selection is an oracle `Selector`, whose result is reduced modulo the number of children, so it always names a child. The C++ does not guarantee a child. When the parent has one visit, log(1) is 0, so a child with score 0 has UCT value 0. That is not greater than `numeric_limits<double>::min()`, so `best_child` stays null (include/mcts/agent.hpp:152-159). This can happen at a root with a single child.
- The tie rule of `select_child` (first maximum) is not modelled.
- Mcts.Agent.constructor: `state = GameState()` and `seed = 0` have no default values here. The game record has no default position, and the stream of draws that seed 0 gives mt19937_64 is not modelled. The stream parameter comes before the shuffle flag, so that the flag keeps its default `true` (include/mcts/agent.hpp:21, used by examples/tictactoe/main.cpp:54).
- The wall clock of `search_move` / `compute_move` is an iteration count `n`.
- mt19937_64, std::ranges::shuffle and uniform_int_distribution. What is claimed is that a draw is an index in range and that a shuffle is a permutation. `Mcts.Shuffle` is a Fisher-Yates pass of the model's own, from the last position down; the standard library's order of draws is not modelled, so which permutation a given stream yields is not claimed. The seed is replaced by the stream of raw draws it would produce.
- For shuffling, each C++ node holds a `shuffle_rng` pointer: either the agent's engine or null. Here this is one `shuffleMoves` flag of the agent. In the source every node copies the pointer, so it is the same for all nodes.
- unique_ptr ownership and the destruction of discarded subtrees. Nodes that apply_move discards stay in the arena, outside the ghost set `live`.
- "root visits == Σ children visits" holds only for a root built from a state. A root promoted by apply_move was made by expand, so it keeps its creation rollout: visits == 1 + Σ (see Mcts.VisitsBalance).
- Mcts.Agent.SearchMove: requires a non-terminal root and n > 0 or an already visited child. The C++ reads possible_moves[-1] otherwise.
- Mcts.Agent.ApplyMove: requires the move to be among the root's moves. The C++ reads one past the end otherwise.
- TicTacToe asserts of apply_move and get_result (a running game and an empty square; a finished game) are preconditions. bitset's out_of_range for squares outside 0..8 is covered by the same precondition.
- `int` overflow of visit counts and `double` rounding of scores. Counts are unbounded naturals, and scores are exact reals, sums of 0, 0.5 and 1.
- `examples/tictactoe/main.cpp` printing, input and game loop (terminal I/O), and `TicTacToeState::winner()` / `get_info()` (accessors used only for printing).
- In `TicTacToeAgent.Game`, states other than those of the game's own asserts: make_move of an illegal move returns the position unchanged, and get_result of a running game is 0. No law or proof uses these values.
