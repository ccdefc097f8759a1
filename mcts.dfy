/**
 * The Monte Carlo tree search engine of include/mcts/agent.hpp (and of its older copy
 * include/mcts/Agent.hpp).
 *
 * The C++ engine is a class template over a GameState type; here the game is a record of
 * total functions, `Game`, with the laws the engine relies on stated by `GameLaws`. The
 * search tree, which the C++ keeps as heap nodes owning their children through unique_ptr and
 * pointing back to their parent through a raw pointer, is an arena: a sequence of `Node`
 * records that refer to each other by index. Nodes discarded when the root moves stay in the
 * arena but leave the ghost set `live` of nodes reachable from the root.
 *
 * The random engine is an infinite stream of raw draws (`Random`); the wall clock that bounds
 * a search is an iteration count; the UCT rule of select_child is an oracle (`Selector`).
 */
module Mcts {

  datatype Option<T> = None | Some(value: T)

  /** What the engine uses of its GameState parameter: terminal(), possible_moves(),
      current_player(), make_move(m) and get_result(player); `valid` (the positions the game
      can reach) and `rank` (a measure every move lowers) exist only for the proofs. */
  datatype Game<!S, !M> = Game(
    terminal: S -> bool,
    possibleMoves: S -> seq<M>,
    currentPlayer: S -> int,
    makeMove: (S, M) -> S,
    getResult: (S, int) -> real,
    valid: S -> bool,
    rank: S -> nat)

  /** The contract a game must meet: a valid position is terminal exactly when it has no
      moves, every listed move leads to a valid position of lower rank, and the result of a
      finished game lies in [0, 1] for every player. */
  ghost predicate GameLaws<S(!new), M(!new)>(g: Game<S, M>) {
    (forall s :: g.valid(s) ==> (g.terminal(s) <==> g.possibleMoves(s) == [])) &&
    (forall s, m :: g.valid(s) && m in g.possibleMoves(s) ==>
       g.valid(g.makeMove(s, m)) && g.rank(g.makeMove(s, m)) < g.rank(s)) &&
    (forall s, p :: g.valid(s) && g.terminal(s) ==> 0.0 <= g.getResult(s, p) <= 1.0)
  }

  /** The agent's random engine: the raw values it will produce, and how many it has produced. */
  datatype Random = Random(stream: nat -> nat, pos: nat)
  {
    /** uniform_int_distribution<>(0, n - 1) applied to the engine: an index in [0, n), and
        the engine one draw further on. */
    function Draw(n: nat): (r: (nat, Random))
      requires n > 0
      ensures r.0 < n && r.1.stream == stream && r.1.pos == pos + 1
    {
      (stream(pos) % n, this.(pos := pos + 1))
    }
  }

  /** One search-tree node. `parent` is the arena index of the parent (None at the root);
      `player` is the player who made the move leading here (-1 at the root); `possibleMoves`
      is the node's own, possibly shuffled, move list; `children[k]` is the arena index of the
      child reached by `possibleMoves[k]`; `nextUntried` is the cursor next_untried_move as an
      offset into `possibleMoves`. */
  datatype Node<S, M> = Node(
    parent: Option<nat>,
    visits: nat,
    player: int,
    score: real,
    state: S,
    possibleMoves: seq<M>,
    children: seq<nat>,
    nextUntried: nat)
  {
    /** is_terminal(): no moves to try. */
    predicate IsTerminal() {
      |possibleMoves| == 0
    }

    /** is_fully_expanded(): the cursor has reached the end of the move list. */
    predicate IsFullyExpanded() {
      nextUntried == |possibleMoves|
    }
  }

  /** select_child(): which child of node `i` of the arena the descent follows. The result is
      reduced modulo the number of children. */
  type Selector<!S, !M> = (seq<Node<S, M>>, nat) -> nat

  /** What the Node constructor produces: the given parent, player and state, zero visits and
      score, no children, the cursor at the start, and the state's moves in some order (their
      own order when the moves are not shuffled). */
  ghost predicate IsNewNode<S, M>(g: Game<S, M>, shuffle: bool, n: Node<S, M>, parent: Option<nat>, player: int, state: S) {
    n.parent == parent && n.player == player && n.state == state &&
    n.visits == 0 && n.score == 0.0 && n.children == [] && n.nextUntried == 0 &&
    multiset(n.possibleMoves) == multiset(g.possibleMoves(state)) &&
    (!shuffle ==> n.possibleMoves == g.possibleMoves(state))
  }

  /** Exchanging two entries keeps the multiset of a sequence. */
  lemma SwapKeepsMultiset<M>(s: seq<M>, i: nat, j: nat)
    requires i < |s| && j < |s|
    ensures multiset(s[i := s[j]][j := s[i]]) == multiset(s)
  {
    if i != j {
      var t := s[i := s[j]];
      assert multiset(t) == multiset(s) - multiset{s[i]} + multiset{s[j]};
      assert multiset(t[j := s[i]]) == multiset(t) - multiset{t[j]} + multiset{s[i]};
    }
  }

  /** std::ranges::shuffle, as a Fisher-Yates pass of the model's own: swap each position, from
      the last down, with a drawn position at or before it. The standard library's order of
      draws is not modelled, so which permutation results is not claimed; only that the result
      is one. */
  method Shuffle<M>(moves: seq<M>, rng: Random) returns (r: seq<M>, rng': Random)
    ensures |r| == |moves| && multiset(r) == multiset(moves)
    ensures rng'.stream == rng.stream
  {
    r, rng' := moves, rng;
    var i := |r|;
    while i > 1
      invariant 0 <= i <= |r| == |moves|
      invariant multiset(r) == multiset(moves)
      invariant rng'.stream == rng.stream
    {
      var d := rng'.Draw(i);
      var j := d.0;
      SwapKeepsMultiset(r, i - 1, j);
      r := r[i - 1 := r[j]][j := r[i - 1]];
      rng' := d.1;
      i := i - 1;
    }
  }

  /** make_node / the Node constructor: take the state's moves, shuffle them when the node
      carries the agent's engine, and put the cursor at the start. */
  method NewNode<S, M>(g: Game<S, M>, parent: Option<nat>, player: int, state: S, shuffle: bool, rng: Random)
    returns (n: Node<S, M>, rng': Random)
    ensures IsNewNode(g, shuffle, n, parent, player, state)
    ensures rng'.stream == rng.stream && (!shuffle ==> rng' == rng)
  {
    var moves := g.possibleMoves(state);
    rng' := rng;
    if shuffle {
      moves, rng' := Shuffle(moves, rng);
    }
    n := Node(parent, 0, player, 0.0, state, moves, [], 0);
  }

  /** The game a rollout plays out from `s`: while the position is not terminal, play the
      move at a drawn index of its move list. */
  function Playout<S(!new), M(!new)>(g: Game<S, M>, s: S, rng: Random): (r: (S, Random))
    requires GameLaws(g) && g.valid(s)
    ensures g.valid(r.0) && g.terminal(r.0)
    ensures r.1.stream == rng.stream && rng.pos <= r.1.pos
    decreases g.rank(s)
  {
    if g.terminal(s) then (s, rng)
    else
      var moves := g.possibleMoves(s);
      var d := rng.Draw(|moves|);
      Playout(g, g.makeMove(s, moves[d.0]), d.1)
  }

  /** A playout from a finished position returns it unchanged without drawing. */
  lemma PlayoutOfTerminal<S(!new), M(!new)>(g: Game<S, M>, s: S, rng: Random)
    requires GameLaws(g) && g.valid(s) && g.terminal(s)
    ensures Playout(g, s, rng) == (s, rng)
  {
  }

  /** Agent::rollout: the loop of random moves, ending in a finished position. */
  method Rollout<S(!new), M(!new)>(g: Game<S, M>, state: S, rng: Random) returns (t: S, rng': Random)
    requires GameLaws(g) && g.valid(state)
    ensures (t, rng') == Playout(g, state, rng)
    ensures g.valid(t) && g.terminal(t)
  {
    t, rng' := state, rng;
    while !g.terminal(t)
      invariant g.valid(t)
      invariant Playout(g, t, rng') == Playout(g, state, rng)
      decreases g.rank(t)
    {
      var moves := g.possibleMoves(t);
      var d := rng'.Draw(|moves|);
      t := g.makeMove(t, moves[d.0]);
      rng' := d.1;
    }
  }

  /** std::ranges::find as an offset: the first position holding x, or |s| when there is none. */
  function IndexOf<M(==)>(s: seq<M>, x: M): (i: nat)
    ensures i <= |s|
    ensures i < |s| ==> s[i] == x
    ensures forall k :: 0 <= k < i ==> s[k] != x
    ensures i == |s| <==> x !in s
  {
    if s == [] then 0 else if s[0] == x then 0 else 1 + IndexOf(s[1..], x)
  }

  /** Index `i` holds the first strictly largest of `vs`, and that value is positive. */
  ghost predicate IsFirstMost(vs: seq<int>, i: int) {
    0 <= i < |vs| && 0 < vs[i] &&
    (forall k :: 0 <= k < |vs| ==> vs[k] <= vs[i]) &&
    (forall k :: 0 <= k < i ==> vs[k] < vs[i])
  }

  /** The first strict maximum is unique. */
  lemma FirstMostUnique(vs: seq<int>, i: int, j: int)
    requires IsFirstMost(vs, i) && IsFirstMost(vs, j)
    ensures i == j
  {
  }

  /** The final loop of search_move: the first child index with strictly more visits than every
      earlier one, starting from a best of 0, and -1 when no child has been visited. */
  method MostVisited(visits: seq<int>) returns (index: int)
    ensures index == -1 <==> forall k :: 0 <= k < |visits| ==> visits[k] <= 0
    ensures index != -1 ==> IsFirstMost(visits, index)
  {
    index := -1;
    var mostVisits := 0;
    var i := 0;
    while i < |visits|
      invariant 0 <= i <= |visits|
      invariant -1 <= index < i
      invariant index == -1 ==> mostVisits == 0
      invariant index != -1 ==> mostVisits == visits[index] && 0 < mostVisits
      invariant forall k :: 0 <= k < i ==> visits[k] <= mostVisits
      invariant forall k :: 0 <= k < index ==> visits[k] < mostVisits
    {
      if visits[i] > mostVisits {
        index := i;
        mostVisits := visits[i];
      }
      i := i + 1;
    }
  }

  // ---------------------------------------------------------------------------
  // Parent chains and visit sums in the arena.

  /** b lies on the parent chain from a (a itself included). */
  ghost predicate Reaches<S, M>(ns: seq<Node<S, M>>, a: nat, b: nat)
    decreases a
  {
    a == b ||
    (a < |ns| && ns[a].parent.Some? && ns[a].parent.value < a && Reaches(ns, ns[a].parent.value, b))
  }

  /** The chain only descends in index. */
  lemma {:induction false} ReachesBelow<S, M>(ns: seq<Node<S, M>>, a: nat, b: nat)
    requires Reaches(ns, a, b)
    ensures b <= a
    decreases a
  {
    if a != b {
      ReachesBelow(ns, ns[a].parent.value, b);
    }
  }

  /** Two nodes on one chain lie on each other's chain, the lower on the higher's. */
  lemma {:induction false} ReachesOrdered<S, M>(ns: seq<Node<S, M>>, x: nat, a: nat, b: nat)
    requires Reaches(ns, x, a) && Reaches(ns, x, b) && b <= a
    ensures Reaches(ns, a, b)
    decreases x
  {
    if x != a {
      ReachesBelow(ns, x, a);
      ReachesOrdered(ns, ns[x].parent.value, a, b);
    }
  }

  /** Below `cur` on a chain, the next node is cur's parent: no chain node lies strictly between. */
  lemma ChainStep<S, M>(ns: seq<Node<S, M>>, x: nat, cur: nat, j: nat)
    requires Reaches(ns, x, cur) && Reaches(ns, x, j) && j < cur
    ensures cur < |ns| && ns[cur].parent.Some? && j <= ns[cur].parent.value < cur
  {
    ReachesOrdered(ns, x, cur, j);
    ReachesBelow(ns, ns[cur].parent.value, j);
  }

  function VisitsOf<S, M>(ns: seq<Node<S, M>>, c: nat): nat {
    if c < |ns| then ns[c].visits else 0
  }

  /** The visits of the nodes at the given indices, in order. */
  function ChildVisits<S, M>(ns: seq<Node<S, M>>, cs: seq<nat>): (r: seq<int>)
    ensures |r| == |cs| && forall k :: 0 <= k < |cs| ==> r[k] == VisitsOf(ns, cs[k])
  {
    seq(|cs|, k requires 0 <= k < |cs| => VisitsOf(ns, cs[k]))
  }

  /** The total visits of the nodes at the given indices. */
  ghost function SumVisits<S, M>(ns: seq<Node<S, M>>, cs: seq<nat>): nat
    decreases |cs|
  {
    if cs == [] then 0 else SumVisits(ns, cs[..|cs| - 1]) + VisitsOf(ns, cs[|cs| - 1])
  }

  lemma SumAppend<S, M>(ns: seq<Node<S, M>>, cs: seq<nat>, c: nat)
    ensures SumVisits(ns, cs + [c]) == SumVisits(ns, cs) + VisitsOf(ns, c)
  {
    assert (cs + [c])[..|cs|] == cs;
  }

  /** The sum depends only on the visit counts. */
  lemma {:induction false} SumFrame<S, M>(ns: seq<Node<S, M>>, ns': seq<Node<S, M>>, cs: seq<nat>)
    requires forall c :: VisitsOf(ns', c) == VisitsOf(ns, c)
    ensures SumVisits(ns', cs) == SumVisits(ns, cs)
    decreases |cs|
  {
    if cs != [] {
      SumFrame(ns, ns', cs[..|cs| - 1]);
    }
  }

  /** One more visit at x adds one to the sum per occurrence of x. */
  lemma {:induction false} SumBump<S, M>(ns: seq<Node<S, M>>, ns': seq<Node<S, M>>, cs: seq<nat>, x: nat)
    requires forall c :: c != x ==> VisitsOf(ns', c) == VisitsOf(ns, c)
    requires VisitsOf(ns', x) == VisitsOf(ns, x) + 1
    ensures SumVisits(ns', cs) == SumVisits(ns, cs) + multiset(cs)[x]
    decreases |cs|
  {
    if cs != [] {
      var init, last := cs[..|cs| - 1], cs[|cs| - 1];
      SumBump(ns, ns', init, x);
      assert cs == init + [last];
      assert multiset(cs) == multiset(init) + multiset{last};
    }
  }

  /** A strictly increasing sequence holds each value at most once. */
  lemma {:induction false} CountOnce(cs: seq<nat>, x: nat)
    requires forall k, l :: 0 <= k < l < |cs| ==> cs[k] < cs[l]
    ensures multiset(cs)[x] == if x in cs then 1 else 0
    decreases |cs|
  {
    if cs != [] {
      CountOnce(cs[1..], x);
      assert cs == [cs[0]] + cs[1..];
      assert multiset(cs) == multiset{cs[0]} + multiset(cs[1..]);
      if x == cs[0] {
        assert x !in cs[1..];
      }
    }
  }

  /** A positive sum has a visited node among its indices. */
  lemma {:induction false} SumPositive<S, M>(ns: seq<Node<S, M>>, cs: seq<nat>)
    requires SumVisits(ns, cs) > 0
    ensures exists k :: 0 <= k < |cs| && VisitsOf(ns, cs[k]) > 0
    decreases |cs|
  {
    var init := cs[..|cs| - 1];
    if VisitsOf(ns, cs[|cs| - 1]) == 0 {
      SumPositive(ns, init);
      var k :| 0 <= k < |init| && VisitsOf(ns, init[k]) > 0;
      assert cs[k] == init[k];
    }
  }

  // ---------------------------------------------------------------------------
  // The arena invariant.

  /** The links of live node i: the cursor stands after the expanded children, which are live,
      later in the arena, in creation order and point back to i; the root alone has no parent,
      and every other node's parent is live, earlier, and lists it as a child. */
  ghost predicate Linked<S, M>(ns: seq<Node<S, M>>, live: set<nat>, root: nat, i: nat)
    requires i < |ns|
  {
    var n := ns[i];
    n.nextUntried == |n.children| <= |n.possibleMoves| &&
    (forall k :: 0 <= k < |n.children| ==>
       i < n.children[k] < |ns| && n.children[k] in live && ns[n.children[k]].parent == Some(i)) &&
    (forall k, l :: 0 <= k < l < |n.children| ==> n.children[k] < n.children[l]) &&
    (n.parent.None? <==> i == root) &&
    (n.parent.Some? ==> n.parent.value < i && n.parent.value in live && i in ns[n.parent.value].children)
  }

  /** What node i records about the game: a valid state, its moves in some order (their own
      order without shuffling), player -1 at a node without a parent, and for the k-th child
      the state after possibleMoves[k] and the player who made that move. */
  ghost predicate Labelled<S, M>(g: Game<S, M>, shuffle: bool, ns: seq<Node<S, M>>, i: nat)
    requires i < |ns|
  {
    var n := ns[i];
    g.valid(n.state) &&
    multiset(n.possibleMoves) == multiset(g.possibleMoves(n.state)) &&
    (!shuffle ==> n.possibleMoves == g.possibleMoves(n.state)) &&
    (n.parent.None? ==> n.player == -1) &&
    (forall k :: 0 <= k < |n.children| && k < |n.possibleMoves| && n.children[k] < |ns| ==>
       ns[n.children[k]].player == g.currentPlayer(n.state) &&
       ns[n.children[k]].state == g.makeMove(n.state, n.possibleMoves[k]))
  }

  /** The statistics of node i: its visits are the rollouts launched at it (`own`) plus its
      children's visits, except that the node `defect` (if any) is one visit short while
      backpropagation is under way; and the score lies between 0 and the visits. */
  ghost predicate Balanced<S, M>(ns: seq<Node<S, M>>, own: seq<nat>, i: nat, defect: int)
    requires i < |ns| && i < |own|
  {
    ns[i].visits + (if i == defect then 1 else 0) == own[i] + SumVisits(ns, ns[i].children) &&
    0.0 <= ns[i].score <= ns[i].visits as real
  }

  /** Everything the invariant says of live node i. */
  ghost predicate NodeOk<S, M>(g: Game<S, M>, shuffle: bool, ns: seq<Node<S, M>>, root: nat,
                               live: set<nat>, own: seq<nat>, defect: int, i: nat) {
    i < |ns| && i < |own| && Linked(ns, live, root, i) && Labelled(g, shuffle, ns, i) && Balanced(ns, own, i, defect)
  }

  /** The live indices lie in the arena, and the cursors in their move lists. */
  ghost predicate Bounded<S, M>(ns: seq<Node<S, M>>, live: set<nat>) {
    forall i :: i in live ==> i < |ns| && ns[i].nextUntried <= |ns[i].possibleMoves|
  }

  /** Replacing a node by one with the same moves and cursor keeps the bounds. */
  lemma BoundedUpdate<S, M>(ns: seq<Node<S, M>>, live: set<nat>, c: nat, n: Node<S, M>)
    requires Bounded(ns, live) && c < |ns|
    requires n.possibleMoves == ns[c].possibleMoves && n.nextUntried == ns[c].nextUntried
    ensures Bounded(ns[c := n], live)
  {
  }

  /** The whole invariant of the agent's arena. */
  ghost predicate Arena<S(!new), M(!new)>(g: Game<S, M>, shuffle: bool, ns: seq<Node<S, M>>, root: nat,
                                          live: set<nat>, own: seq<nat>, defect: int) {
    |own| == |ns| && root in live &&
    Bounded(ns, live) &&
    forall i {:trigger NodeOk(g, shuffle, ns, root, live, own, defect, i)} :: i in live ==> NodeOk(g, shuffle, ns, root, live, own, defect, i)
  }

  /** The rollouts launched at each live node: every node but the root was made by expand
      (`born`), and such a node has had at least the rollout its creation launched, exactly
      that one while it has moves; a root made from a state has had none while it has moves. */
  ghost predicate OneRolloutEach<S, M>(ns: seq<Node<S, M>>, root: nat, live: set<nat>, own: seq<nat>, born: seq<bool>) {
    forall i :: i in live && i < |ns| && i < |own| && i < |born| ==>
      (i != root ==> born[i]) && (born[i] ==> 1 <= own[i]) &&
      (!ns[i].IsTerminal() ==> own[i] == if born[i] then 1 else 0)
  }

  /** Every live node's parent chain ends at the root. */
  lemma {:induction false} LiveReachesRoot<S(!new), M(!new)>(g: Game<S, M>, shuffle: bool, ns: seq<Node<S, M>>, root: nat,
                                                           live: set<nat>, own: seq<nat>, defect: int, x: nat)
    requires Arena(g, shuffle, ns, root, live, own, defect) && x in live
    ensures Reaches(ns, x, root)
    decreases x
  {
    if x != root {
      assert NodeOk(g, shuffle, ns, root, live, own, defect, x);
      LiveReachesRoot(g, shuffle, ns, root, live, own, defect, ns[x].parent.value);
    }
  }

  /** The arena after node i gains `child` at the end of the arena. */
  function Grow<S, M>(ns: seq<Node<S, M>>, i: nat, child: Node<S, M>): seq<Node<S, M>>
    requires i < |ns|
  {
    ns[i := ns[i].(children := ns[i].children + [|ns|], nextUntried := ns[i].nextUntried + 1)] + [child]
  }

  /** Growing the arena by a node without visits changes no visit count. */
  lemma GrowVisits<S, M>(ns: seq<Node<S, M>>, i: nat, child: Node<S, M>)
    requires i < |ns| && child.visits == 0
    ensures forall x :: VisitsOf(Grow(ns, i, child), x) == VisitsOf(ns, x)
  {
  }

  /** expand keeps the invariant: the new node is a live leaf with no visits. */
  lemma ExpandKeeps<S(!new), M(!new)>(g: Game<S, M>, shuffle: bool, ns: seq<Node<S, M>>, root: nat,
                                      live: set<nat>, own: seq<nat>, i: nat, child: Node<S, M>)
    requires GameLaws(g) && Arena(g, shuffle, ns, root, live, own, -1) && i in live && !ns[i].IsFullyExpanded()
    requires IsNewNode(g, shuffle, child, Some(i), g.currentPlayer(ns[i].state),
                       g.makeMove(ns[i].state, ns[i].possibleMoves[ns[i].nextUntried]))
    ensures Arena(g, shuffle, Grow(ns, i, child), root, live + {|ns|}, own + [0], -1)
  {
    GrowBounds(ns, live, i, child);
    ExpandAll(g, shuffle, ns, root, live, own, i, child);
  }

  /** The live indices of the grown arena lie in it, with their cursors in their move lists. */
  lemma GrowBounds<S, M>(ns: seq<Node<S, M>>, live: set<nat>, i: nat, child: Node<S, M>)
    requires Bounded(ns, live)
    requires i in live && ns[i].nextUntried < |ns[i].possibleMoves| && child.nextUntried <= |child.possibleMoves|
    ensures Bounded(Grow(ns, i, child), live + {|ns|})
  {
  }

  lemma ExpandAll<S(!new), M(!new)>(g: Game<S, M>, shuffle: bool, ns: seq<Node<S, M>>, root: nat,
                                    live: set<nat>, own: seq<nat>, i: nat, child: Node<S, M>)
    requires GameLaws(g) && Arena(g, shuffle, ns, root, live, own, -1) && i in live && !ns[i].IsFullyExpanded()
    requires IsNewNode(g, shuffle, child, Some(i), g.currentPlayer(ns[i].state),
                       g.makeMove(ns[i].state, ns[i].possibleMoves[ns[i].nextUntried]))
    ensures forall j :: j in live + {|ns|} ==> NodeOk(g, shuffle, Grow(ns, i, child), root, live + {|ns|}, own + [0], -1, j)
  {
    var ns', live', own' := Grow(ns, i, child), live + {|ns|}, own + [0];
    forall j | j in live' ensures NodeOk(g, shuffle, ns', root, live', own', -1, j) {
      ExpandNode(g, shuffle, ns, root, live, own, i, child, j);
    }
  }

  /** ExpandKeeps for one node j of the grown arena. */
  lemma ExpandNode<S(!new), M(!new)>(g: Game<S, M>, shuffle: bool, ns: seq<Node<S, M>>, root: nat,
                                     live: set<nat>, own: seq<nat>, i: nat, child: Node<S, M>, j: nat)
    requires GameLaws(g) && Arena(g, shuffle, ns, root, live, own, -1) && i in live && !ns[i].IsFullyExpanded()
    requires j in live + {|ns|}
    requires IsNewNode(g, shuffle, child, Some(i), g.currentPlayer(ns[i].state),
                       g.makeMove(ns[i].state, ns[i].possibleMoves[ns[i].nextUntried]))
    ensures NodeOk(g, shuffle, Grow(ns, i, child), root, live + {|ns|}, own + [0], -1, j)
  {
    GrowVisits(ns, i, child);
    assert NodeOk(g, shuffle, ns, root, live, own, -1, i);
    if j == |ns| {
      ExpandNew(g, shuffle, ns, root, live, own, i, child);
    } else if j == i {
      ExpandParent(g, shuffle, ns, root, live, own, i, child);
    } else {
      assert NodeOk(g, shuffle, ns, root, live, own, -1, j);
      ExpandOther(g, shuffle, ns, root, live, own, i, child, j);
    }
  }

  /** The new leaf satisfies the invariant. */
  lemma ExpandNew<S(!new), M(!new)>(g: Game<S, M>, shuffle: bool, ns: seq<Node<S, M>>, root: nat,
                                    live: set<nat>, own: seq<nat>, i: nat, child: Node<S, M>)
    requires GameLaws(g) && |own| == |ns| && root < |ns| && i < |ns| && i in live
    requires NodeOk(g, shuffle, ns, root, live, own, -1, i) && !ns[i].IsFullyExpanded()
    requires IsNewNode(g, shuffle, child, Some(i), g.currentPlayer(ns[i].state),
                       g.makeMove(ns[i].state, ns[i].possibleMoves[ns[i].nextUntried]))
    ensures NodeOk(g, shuffle, Grow(ns, i, child), root, live + {|ns|}, own + [0], -1, |ns|)
  {
    var ns', c := Grow(ns, i, child), |ns|;
    var n := ns[i];
    var m := n.possibleMoves[n.nextUntried];
    assert m in multiset(g.possibleMoves(n.state));
    assert ns'[c] == child;
    assert ns'[i].children == n.children + [c];
    assert Labelled(g, shuffle, ns', c);
  }

  /** The expanded node satisfies the invariant with its new child. */
  lemma ExpandParent<S(!new), M(!new)>(g: Game<S, M>, shuffle: bool, ns: seq<Node<S, M>>, root: nat,
                                       live: set<nat>, own: seq<nat>, i: nat, child: Node<S, M>)
    requires |own| == |ns| && i < |ns| && i in live
    requires NodeOk(g, shuffle, ns, root, live, own, -1, i) && !ns[i].IsFullyExpanded()
    requires forall x :: VisitsOf(Grow(ns, i, child), x) == VisitsOf(ns, x)
    requires IsNewNode(g, shuffle, child, Some(i), g.currentPlayer(ns[i].state),
                       g.makeMove(ns[i].state, ns[i].possibleMoves[ns[i].nextUntried]))
    ensures NodeOk(g, shuffle, Grow(ns, i, child), root, live + {|ns|}, own + [0], -1, i)
  {
    var ns', c := Grow(ns, i, child), |ns|;
    var n := ns[i];
    assert ns'[i].children == n.children + [c];
    SumAppend(ns', n.children, c);
    SumFrame(ns, ns', n.children);
    ExpandParentLinks(g, shuffle, ns, root, live, own, i, child);
    ExpandParentLabels(g, shuffle, ns, root, live, own, i, child);
  }

  /** The expanded node's links, with the new child appended. */
  lemma ExpandParentLinks<S, M>(g: Game<S, M>, shuffle: bool, ns: seq<Node<S, M>>, root: nat,
                                live: set<nat>, own: seq<nat>, i: nat, child: Node<S, M>)
    requires i < |ns| && i in live && NodeOk(g, shuffle, ns, root, live, own, -1, i)
    requires !ns[i].IsFullyExpanded() && child.parent == Some(i)
    ensures Linked(Grow(ns, i, child), live + {|ns|}, root, i)
  {
    var ns', c := Grow(ns, i, child), |ns|;
    var n := ns[i];
    assert ns'[i].children == n.children + [c];
    if n.parent.Some? {
      assert ns'[n.parent.value] == ns[n.parent.value];
    }
  }

  /** The expanded node's labels, with the new child labelled by the move under the cursor. */
  lemma ExpandParentLabels<S, M>(g: Game<S, M>, shuffle: bool, ns: seq<Node<S, M>>, root: nat,
                                 live: set<nat>, own: seq<nat>, i: nat, child: Node<S, M>)
    requires i < |ns| && NodeOk(g, shuffle, ns, root, live, own, -1, i) && !ns[i].IsFullyExpanded()
    requires child.player == g.currentPlayer(ns[i].state)
    requires child.state == g.makeMove(ns[i].state, ns[i].possibleMoves[ns[i].nextUntried])
    ensures Labelled(g, shuffle, Grow(ns, i, child), i)
  {
    var ns', c := Grow(ns, i, child), |ns|;
    var n := ns[i];
    assert ns'[i].children == n.children + [c];
    assert ns'[c] == child;
  }

  /** Every other live node keeps the invariant. */
  lemma ExpandOther<S(!new), M(!new)>(g: Game<S, M>, shuffle: bool, ns: seq<Node<S, M>>, root: nat,
                                      live: set<nat>, own: seq<nat>, i: nat, child: Node<S, M>, j: nat)
    requires |own| == |ns| && i < |ns| && j < |ns| && j in live && j != i
    requires NodeOk(g, shuffle, ns, root, live, own, -1, j)
    requires forall x :: VisitsOf(Grow(ns, i, child), x) == VisitsOf(ns, x)
    ensures NodeOk(g, shuffle, Grow(ns, i, child), root, live + {|ns|}, own + [0], -1, j)
  {
    var ns' := Grow(ns, i, child);
    var n := ns[j];
    assert ns'[j] == n;
    SumFrame(ns, ns', n.children);
    if n.parent.Some? {
      var p := n.parent.value;
      assert j in ns'[p].children by {
        if p == i {
          assert ns'[i].children == ns[i].children + [|ns|];
        }
      }
    }
    assert Linked(ns', live + {|ns|}, root, j);
  }

  /** The node after one more backpropagated visit: the score gains the result for the node's
      player unless it is -1. */
  function Bumped<S, M>(g: Game<S, M>, n: Node<S, M>, t: S): Node<S, M> {
    n.(visits := n.visits + 1,
       score := if n.player != -1 then n.score + g.getResult(t, n.player) else n.score)
  }

  /** The parent of node i, or -1. */
  function Up<S, M>(ns: seq<Node<S, M>>, i: nat): int {
    if i < |ns| && ns[i].parent.Some? then ns[i].parent.value else -1
  }

  /** One step of backpropagate keeps the invariant, moving the missing visit up to the parent. */
  lemma BumpKeeps<S(!new), M(!new)>(g: Game<S, M>, shuffle: bool, ns: seq<Node<S, M>>, root: nat,
                                    live: set<nat>, own: seq<nat>, cur: nat, t: S)
    requires GameLaws(g) && Arena(g, shuffle, ns, root, live, own, cur) && cur in live && g.valid(t) && g.terminal(t)
    ensures Arena(g, shuffle, ns[cur := Bumped(g, ns[cur], t)], root, live, own, Up(ns, cur))
  {
    var ns' := ns[cur := Bumped(g, ns[cur], t)];
    BoundedUpdate(ns, live, cur, Bumped(g, ns[cur], t));
    assert NodeOk(g, shuffle, ns, root, live, own, cur, cur);
    forall j | j in live ensures NodeOk(g, shuffle, ns', root, live, own, Up(ns, cur), j) {
      assert NodeOk(g, shuffle, ns, root, live, own, cur, j);
      BumpNode(g, shuffle, ns, root, live, own, cur, t, j);
    }
  }

  /** BumpKeeps for one live node j. */
  lemma BumpNode<S(!new), M(!new)>(g: Game<S, M>, shuffle: bool, ns: seq<Node<S, M>>, root: nat,
                                   live: set<nat>, own: seq<nat>, cur: nat, t: S, j: nat)
    requires GameLaws(g) && |own| == |ns| && g.valid(t) && g.terminal(t)
    requires cur in live && NodeOk(g, shuffle, ns, root, live, own, cur, cur)
    requires j in live && NodeOk(g, shuffle, ns, root, live, own, cur, j)
    ensures NodeOk(g, shuffle, ns[cur := Bumped(g, ns[cur], t)], root, live, own, Up(ns, cur), j)
  {
    var ns' := ns[cur := Bumped(g, ns[cur], t)];
    BumpShape(g, shuffle, ns, root, live, own, cur, t, j);
    BumpStats(g, shuffle, ns, root, live, own, cur, t, j);
  }

  /** A visit changes no link or label. */
  lemma BumpShape<S(!new), M(!new)>(g: Game<S, M>, shuffle: bool, ns: seq<Node<S, M>>, root: nat,
                                    live: set<nat>, own: seq<nat>, cur: nat, t: S, j: nat)
    requires cur < |ns| && j in live && NodeOk(g, shuffle, ns, root, live, own, cur, j)
    ensures Linked(ns[cur := Bumped(g, ns[cur], t)], live, root, j)
    ensures Labelled(g, shuffle, ns[cur := Bumped(g, ns[cur], t)], j)
  {
  }

  /** A visit at cur moves the missing visit from cur to its parent. */
  lemma BumpStats<S(!new), M(!new)>(g: Game<S, M>, shuffle: bool, ns: seq<Node<S, M>>, root: nat,
                                    live: set<nat>, own: seq<nat>, cur: nat, t: S, j: nat)
    requires GameLaws(g) && |own| == |ns| && g.valid(t) && g.terminal(t)
    requires cur in live && NodeOk(g, shuffle, ns, root, live, own, cur, cur)
    requires j in live && NodeOk(g, shuffle, ns, root, live, own, cur, j)
    ensures Balanced(ns[cur := Bumped(g, ns[cur], t)], own, j, Up(ns, cur))
  {
    var ns' := ns[cur := Bumped(g, ns[cur], t)];
    var p := Up(ns, cur);
    forall x | x != cur ensures VisitsOf(ns', x) == VisitsOf(ns, x) {
    }
    var cs := ns[j].children;
    SumBump(ns, ns', cs, cur);
    CountOnce(cs, cur);
    if cur in cs {
      var k :| 0 <= k < |cs| && cs[k] == cur;
      assert j == p;
    }
    if j == cur {
      assert 0.0 <= g.getResult(t, ns[cur].player) <= 1.0;
    } else {
      assert ns'[j] == ns[j];
    }
  }

  /** Counting a launched rollout at x leaves x one visit short. */
  lemma LaunchKeeps<S(!new), M(!new)>(g: Game<S, M>, shuffle: bool, ns: seq<Node<S, M>>, root: nat,
                                      live: set<nat>, own: seq<nat>, x: nat)
    requires Arena(g, shuffle, ns, root, live, own, -1) && x in live
    ensures Arena(g, shuffle, ns, root, live, own[x := own[x] + 1], x)
  {
    var own' := own[x := own[x] + 1];
    forall j | j in live ensures NodeOk(g, shuffle, ns, root, live, own', x, j) {
      assert NodeOk(g, shuffle, ns, root, live, own, -1, j);
      assert Balanced(ns, own, j, -1);
    }
  }

  /** The nodes whose parent chain passes through c: the subtree kept when c becomes the root. */
  ghost function Subtree<S, M>(ns: seq<Node<S, M>>, live: set<nat>, c: nat): set<nat> {
    set j | j in live && Reaches(ns, j, c)
  }

  /** The arena after child c of the root is made the root: no parent, player -1, score 0. */
  function Promote<S, M>(ns: seq<Node<S, M>>, c: nat): seq<Node<S, M>>
    requires c < |ns|
  {
    ns[c := ns[c].(parent := None, player := -1, score := 0.0)]
  }

  /** apply_move's promotion keeps the invariant on the promoted child's subtree. */
  lemma PromoteKeeps<S(!new), M(!new)>(g: Game<S, M>, shuffle: bool, ns: seq<Node<S, M>>, root: nat,
                                       live: set<nat>, own: seq<nat>, k: nat, c: nat)
    requires Arena(g, shuffle, ns, root, live, own, -1) && k < |ns[root].children| && c == ns[root].children[k]
    ensures c in live && c < |ns|
    ensures Arena(g, shuffle, Promote(ns, c), c, Subtree(ns, live, c), own, -1)
  {
    assert NodeOk(g, shuffle, ns, root, live, own, -1, root);
    var ns', live' := Promote(ns, c), Subtree(ns, live, c);
    assert Reaches(ns, c, c);
    PromoteVisits(ns, c);
    forall j | j in live' ensures NodeOk(g, shuffle, ns', c, live', own, -1, j) {
      assert NodeOk(g, shuffle, ns, root, live, own, -1, j);
      if j == c {
        PromotedRoot(g, shuffle, ns, root, live, own, c);
      } else {
        PromotedInner(g, shuffle, ns, root, live, own, c, j);
      }
    }
  }

  /** Promotion keeps the rollout counts: every node of the kept subtree but its new root lies
      below the old root, so expand made it. */
  lemma PromoteCounted<S, M>(ns: seq<Node<S, M>>, root: nat, live: set<nat>, own: seq<nat>, born: seq<bool>, c: nat)
    requires OneRolloutEach(ns, root, live, own, born) && root < c < |ns|
    ensures OneRolloutEach(Promote(ns, c), c, Subtree(ns, live, c), own, born)
  {
    forall j | j in Subtree(ns, live, c) ensures root < j {
      ReachesBelow(ns, j, c);
    }
  }

  /** Promotion changes no visit count. */
  lemma PromoteVisits<S, M>(ns: seq<Node<S, M>>, c: nat)
    requires c < |ns|
    ensures forall x :: VisitsOf(Promote(ns, c), x) == VisitsOf(ns, x)
  {
  }

  /** The promoted child satisfies the invariant as the new root. */
  lemma PromotedRoot<S(!new), M(!new)>(g: Game<S, M>, shuffle: bool, ns: seq<Node<S, M>>, root: nat,
                                       live: set<nat>, own: seq<nat>, c: nat)
    requires |own| == |ns| && c < |ns| && c in live && NodeOk(g, shuffle, ns, root, live, own, -1, c)
    requires forall x :: VisitsOf(Promote(ns, c), x) == VisitsOf(ns, x)
    ensures NodeOk(g, shuffle, Promote(ns, c), c, Subtree(ns, live, c), own, -1, c)
  {
    var ns', live' := Promote(ns, c), Subtree(ns, live, c);
    var n := ns[c];
    SumFrame(ns, ns', n.children);
    forall k | 0 <= k < |n.children| ensures n.children[k] in live' {
      assert Reaches(ns, n.children[k], c);
    }
    assert Linked(ns', live', c, c);
  }

  /** Every other node of the kept subtree keeps the invariant. */
  lemma PromotedInner<S(!new), M(!new)>(g: Game<S, M>, shuffle: bool, ns: seq<Node<S, M>>, root: nat,
                                        live: set<nat>, own: seq<nat>, c: nat, j: nat)
    requires |own| == |ns| && c < |ns| && j in Subtree(ns, live, c) && j != c
    requires NodeOk(g, shuffle, ns, root, live, own, -1, j)
    requires forall x :: VisitsOf(Promote(ns, c), x) == VisitsOf(ns, x)
    ensures NodeOk(g, shuffle, Promote(ns, c), c, Subtree(ns, live, c), own, -1, j)
  {
    var ns', live' := Promote(ns, c), Subtree(ns, live, c);
    var n := ns[j];
    ReachesBelow(ns, j, c);
    assert ns'[j] == n;
    SumFrame(ns, ns', n.children);
    forall k | 0 <= k < |n.children| ensures n.children[k] in live' && n.children[k] != c {
      assert Reaches(ns, n.children[k], c);
    }
    assert n.parent.value in live';
    assert Linked(ns', live', c, j);
  }

  /** apply_move's fresh root: a new node at the end of the arena is the whole live tree. */
  lemma FreshRootKeeps<S(!new), M(!new)>(g: Game<S, M>, shuffle: bool, ns: seq<Node<S, M>>, own: seq<nat>,
                                         born: seq<bool>, n: Node<S, M>, state: S)
    requires GameLaws(g) && g.valid(state) && |own| == |ns| && |born| == |ns|
    requires IsNewNode(g, shuffle, n, None, -1, state)
    ensures Arena(g, shuffle, ns + [n], |ns|, {|ns|}, own + [0], -1)
    ensures OneRolloutEach(ns + [n], |ns|, {|ns|}, own + [0], born + [false])
  {
    assert Linked(ns + [n], {|ns|}, |ns|, |ns|);
  }

  /** A chain through cur continues to cur's parent. */
  lemma {:induction false} ReachesParent<S, M>(ns: seq<Node<S, M>>, x: nat, cur: nat)
    requires Reaches(ns, x, cur) && cur < |ns| && ns[cur].parent.Some? && ns[cur].parent.value < cur
    ensures Reaches(ns, x, ns[cur].parent.value)
    decreases x
  {
    if x != cur {
      ReachesParent(ns, ns[x].parent.value, cur);
    }
  }

  /** What the invariant says of one live node, in the terms the agent's methods use. */
  lemma LiveNode<S(!new), M(!new)>(g: Game<S, M>, shuffle: bool, ns: seq<Node<S, M>>, root: nat,
                                   live: set<nat>, own: seq<nat>, defect: int, i: nat)
    requires Arena(g, shuffle, ns, root, live, own, defect) && i in live
    ensures i < |ns| && i < |own| && g.valid(ns[i].state)
    ensures multiset(ns[i].possibleMoves) == multiset(g.possibleMoves(ns[i].state))
    ensures |ns[i].children| == ns[i].nextUntried <= |ns[i].possibleMoves|
    ensures forall k :: 0 <= k < |ns[i].children| ==> ns[i].children[k] in live && i < ns[i].children[k] < |ns|
    ensures ns[i].visits + (if i == defect then 1 else 0) == own[i] + SumVisits(ns, ns[i].children)
    ensures i == root ==> ns[i].parent.None? && ns[i].player == -1
  {
    assert NodeOk(g, shuffle, ns, root, live, own, defect, i);
  }

  /** is_terminal and is_fully_expanded of a live node: the node is terminal exactly when its
      position is, and fully expanded exactly when every move has its child. */
  lemma NodeStatus<S(!new), M(!new)>(g: Game<S, M>, shuffle: bool, ns: seq<Node<S, M>>, root: nat,
                                     live: set<nat>, own: seq<nat>, i: nat)
    requires GameLaws(g) && Arena(g, shuffle, ns, root, live, own, -1) && i in live
    ensures i < |ns| && g.valid(ns[i].state)
    ensures ns[i].IsTerminal() <==> g.terminal(ns[i].state)
    ensures ns[i].IsFullyExpanded() <==> |ns[i].children| == |ns[i].possibleMoves|
  {
    LiveNode(g, shuffle, ns, root, live, own, -1, i);
    var moves := g.possibleMoves(ns[i].state);
    assert |multiset(ns[i].possibleMoves)| == |ns[i].possibleMoves|;
    assert |multiset(moves)| == |moves|;
  }

  /** The visit balance the search keeps: a live node with moves has one visit for the rollout
      launched at its creation by expand (none for a root built from a state), plus the visits
      of its children. */
  lemma VisitsBalance<S(!new), M(!new)>(g: Game<S, M>, shuffle: bool, ns: seq<Node<S, M>>, root: nat,
                                        live: set<nat>, own: seq<nat>, born: seq<bool>, x: nat)
    requires Arena(g, shuffle, ns, root, live, own, -1) && OneRolloutEach(ns, root, live, own, born)
    requires |born| == |ns| && x in live && x < |ns| && !ns[x].IsTerminal()
    ensures ns[x].visits == (if born[x] then 1 else 0) + SumVisits(ns, ns[x].children)
  {
    assert NodeOk(g, shuffle, ns, root, live, own, -1, x);
    assert Balanced(ns, own, x, -1);
  }

  /** Every child of a live node has been visited at least once, by the rollout launched at
      its creation, so the UCT value of select_child never divides by a zero visit count. */
  lemma ChildrenVisited<S(!new), M(!new)>(g: Game<S, M>, shuffle: bool, ns: seq<Node<S, M>>, root: nat,
                                          live: set<nat>, own: seq<nat>, born: seq<bool>, i: nat)
    requires Arena(g, shuffle, ns, root, live, own, -1) && OneRolloutEach(ns, root, live, own, born)
    requires |born| == |ns| && i in live
    ensures i < |ns|
    ensures forall c :: c in ns[i].children ==> c < |ns| && 1 <= ns[c].visits
  {
    LiveNode(g, shuffle, ns, root, live, own, -1, i);
    LiveReachesRoot(g, shuffle, ns, root, live, own, -1, i);
    ReachesBelow(ns, i, root);
    forall c | c in ns[i].children ensures c < |ns| && 1 <= ns[c].visits {
      LiveNode(g, shuffle, ns, root, live, own, -1, c);
    }
  }

  /** The arena part-way through backpropagating t from x: the nodes of x's chain above
      index cur have had their visit (all of them once cur is -1). */
  ghost function Climbed<S, M>(g: Game<S, M>, ns: seq<Node<S, M>>, x: nat, cur: int, t: S): (r: seq<Node<S, M>>)
    ensures |r| == |ns|
  {
    seq(|ns|, j requires 0 <= j < |ns| => if Reaches(ns, x, j) && j > cur then Bumped(g, ns[j], t) else ns[j])
  }

  /** Before the walk, no node has had its visit. */
  lemma ClimbStart<S, M>(g: Game<S, M>, ns: seq<Node<S, M>>, x: nat, t: S)
    ensures Climbed(g, ns, x, x, t) == ns
  {
    forall j: nat | j < |ns| && Reaches(ns, x, j) ensures j <= x {
      ReachesBelow(ns, x, j);
    }
  }

  /** One step of the walk: the visit at cur extends the bumped part of the chain down to the
      parent of cur, keeps the invariant with the missing visit moved to that parent, and the
      parent (if any) is live and on the chain. */
  lemma ClimbStep<S(!new), M(!new)>(g: Game<S, M>, shuffle: bool, ns: seq<Node<S, M>>, root: nat,
                                    live: set<nat>, own: seq<nat>, x: nat, cur: nat, t: S)
    requires GameLaws(g) && Arena(g, shuffle, Climbed(g, ns, x, cur, t), root, live, own, cur)
    requires cur in live && cur < |ns| && Reaches(ns, x, cur) && g.valid(t) && g.terminal(t)
    ensures var cl := Climbed(g, ns, x, cur, t);
      Up(cl, cur) == Up(ns, cur) &&
      cl[cur := Bumped(g, cl[cur], t)] == Climbed(g, ns, x, Up(ns, cur), t) &&
      Arena(g, shuffle, Climbed(g, ns, x, Up(ns, cur), t), root, live, own, Up(ns, cur)) &&
      (Up(ns, cur) != -1 ==> Up(ns, cur) in live && Reaches(ns, x, Up(ns, cur)))
  {
    var cl := Climbed(g, ns, x, cur, t);
    assert cl[cur] == ns[cur];
    assert NodeOk(g, shuffle, cl, root, live, own, cur, cur);
    BumpKeeps(g, shuffle, cl, root, live, own, cur, t);
    var next := Up(ns, cur);
    if next != -1 {
      ReachesParent(ns, x, cur);
      forall j: nat | Reaches(ns, x, j) && j < cur ensures j <= next {
        ChainStep(ns, x, cur, j);
      }
    } else {
      forall j: nat | Reaches(ns, x, j) && j < cur ensures false {
        ChainStep(ns, x, cur, j);
      }
    }
    assert cl[cur := Bumped(g, cl[cur], t)] == Climbed(g, ns, x, next, t);
  }

  /** The finished walk: no state or move list changes, and the root, which every chain
      reaches, has one more visit and, its player being -1, the same score. */
  lemma ClimbDone<S(!new), M(!new)>(g: Game<S, M>, shuffle: bool, ns: seq<Node<S, M>>, root: nat,
                                    live: set<nat>, own: seq<nat>, x: nat, t: S)
    requires Arena(g, shuffle, ns, root, live, own, -1) && x in live
    ensures var cl := Climbed(g, ns, x, -1, t);
      Keeps(ns, cl) && root < |cl| &&
      cl[root].visits == ns[root].visits + 1 && cl[root].score == ns[root].score
  {
    LiveReachesRoot(g, shuffle, ns, root, live, own, -1, x);
    assert NodeOk(g, shuffle, ns, root, live, own, -1, root);
  }

  /** The nodes of arena ns are still in ns', with the same states and move lists. */
  ghost predicate Keeps<S, M>(ns: seq<Node<S, M>>, ns': seq<Node<S, M>>) {
    |ns| <= |ns'| &&
    forall j :: 0 <= j < |ns| ==> ns'[j].state == ns[j].state && ns'[j].possibleMoves == ns[j].possibleMoves
  }

  /** One iteration keeps OneRolloutEach: its rollout is launched either at the node it
      expanded, whose one rollout that is, or at a terminal node, which the property does not
      constrain; no move list changes. */
  lemma IterationCounted<S, M>(root: nat, ns0: seq<Node<S, M>>, live0: set<nat>, own0: seq<nat>, born0: seq<bool>,
                               ns1: seq<Node<S, M>>, own1: seq<nat>,
                               ns: seq<Node<S, M>>, live: set<nat>, own: seq<nat>, born: seq<bool>,
                               x: nat, expanded: bool)
    requires OneRolloutEach(ns0, root, live0, own0, born0) && |own0| == |ns0| && |born0| == |ns0|
    requires Keeps(ns0, ns1) && Keeps(ns1, ns) && |ns| == |ns1|
    requires x < |own1| && own == own1[x := own1[x] + 1]
    requires root < |ns0|
    requires if expanded then x == |ns0| && live == live0 + {x} && own1 == own0 + [0] && born == born0 + [true]
             else x < |ns0| && ns0[x].IsTerminal() && live == live0 && own1 == own0 && born == born0
    ensures OneRolloutEach(ns, root, live, own, born) && Keeps(ns0, ns)
  {
  }

  /** The node the select_node loop reaches from node i: while the node has moves and has
      tried them all, go to the child `select` picks. */
  function Descend<S, M>(ns: seq<Node<S, M>>, select: Selector<S, M>, i: nat): nat
    decreases |ns| - i
  {
    if i < |ns| && !ns[i].IsTerminal() && ns[i].IsFullyExpanded() && ns[i].children != [] then
      var c := ns[i].children[select(ns, i) % |ns[i].children|];
      if i < c then Descend(ns, select, c) else i
    else i
  }

  /** What the last steps of an iteration make of arena ns and engine rng, once select has
      reached node sel: if sel has moves, append a new node for its untried move (built with
      engine r1) and play out from that node, otherwise play out from sel; then backpropagate
      the playout's final position from where the playout started. */
  ghost predicate Launched<S(!new), M(!new)>(g: Game<S, M>, shuffle: bool, ns: seq<Node<S, M>>, sel: nat,
                                             rng: Random, ns': seq<Node<S, M>>, rng': Random) {
    GameLaws(g) && sel < |ns| && g.valid(ns[sel].state) &&
    if ns[sel].IsTerminal() then
      ns' == Climbed(g, ns, sel, -1, Playout(g, ns[sel].state, rng).0) &&
      rng' == Playout(g, ns[sel].state, rng).1
    else
      ns[sel].nextUntried < |ns[sel].possibleMoves| &&
      exists child: Node<S, M>, r1: Random ::
        IsNewNode(g, shuffle, child, Some(sel), g.currentPlayer(ns[sel].state),
                  g.makeMove(ns[sel].state, ns[sel].possibleMoves[ns[sel].nextUntried])) &&
        r1.stream == rng.stream && (!shuffle ==> r1 == rng) && g.valid(child.state) &&
        ns' == Climbed(g, Grow(ns, sel, child), |ns|, -1, Playout(g, child.state, r1).0) &&
        rng' == Playout(g, child.state, r1).1
  }

  /** What one iteration makes of arena ns (root `root`) and engine rng: it descends to the node
      select reaches and goes on from there as Launched says. */
  ghost predicate Iterated<S(!new), M(!new)>(g: Game<S, M>, shuffle: bool, select: Selector<S, M>,
                                             ns: seq<Node<S, M>>, root: nat, rng: Random,
                                             ns': seq<Node<S, M>>, rng': Random) {
    Launched(g, shuffle, ns, Descend(ns, select, root), rng, ns', rng')
  }

  /** The last steps from a terminal node. */
  lemma LaunchedTerminal<S(!new), M(!new)>(g: Game<S, M>, shuffle: bool, ns: seq<Node<S, M>>, sel: nat,
                                           rng: Random, ns': seq<Node<S, M>>, rng': Random)
    requires GameLaws(g) && sel < |ns| && g.valid(ns[sel].state) && ns[sel].IsTerminal()
    requires ns' == Climbed(g, ns, sel, -1, Playout(g, ns[sel].state, rng).0)
    requires rng' == Playout(g, ns[sel].state, rng).1
    ensures Launched(g, shuffle, ns, sel, rng, ns', rng')
  {
  }

  /** The last steps from a node with moves, given the node appended and the engine the
      playout started with. */
  lemma LaunchedExpanded<S(!new), M(!new)>(g: Game<S, M>, shuffle: bool, ns: seq<Node<S, M>>, sel: nat,
                                           rng: Random, child: Node<S, M>, r1: Random,
                                           ns': seq<Node<S, M>>, rng': Random)
    requires GameLaws(g) && sel < |ns| && g.valid(ns[sel].state) && !ns[sel].IsTerminal()
    requires ns[sel].nextUntried < |ns[sel].possibleMoves|
    requires IsNewNode(g, shuffle, child, Some(sel), g.currentPlayer(ns[sel].state),
                       g.makeMove(ns[sel].state, ns[sel].possibleMoves[ns[sel].nextUntried]))
    requires r1.stream == rng.stream && (!shuffle ==> r1 == rng) && g.valid(child.state)
    requires ns' == Climbed(g, Grow(ns, sel, child), |ns|, -1, Playout(g, child.state, r1).0)
    requires rng' == Playout(g, child.state, r1).1
    ensures Launched(g, shuffle, ns, sel, rng, ns', rng')
  {
  }

  // ---------------------------------------------------------------------------
  // The agent.

  /** Agent: the game, whether node move lists are shuffled, the agent's random engine, and the
      search tree with its root. The ghost fields record which nodes are in the tree (`live`),
      how many rollouts were launched at each node (`own`), and which nodes expand made
      (`born`). */
  class Agent<S(!new), M(==, !new)> {
    const game: Game<S, M>
    const shuffleMoves: bool
    var rng: Random
    var nodes: seq<Node<S, M>>
    var root: nat
    ghost var live: set<nat>
    ghost var own: seq<nat>
    ghost var born: seq<bool>

    /** The arena invariant, with no backpropagation under way. */
    ghost predicate Valid()
      reads this
    {
      GameLaws(game) && Arena(game, shuffleMoves, nodes, root, live, own, -1) && |born| == |nodes|
    }

    /** Every live node with moves has seen exactly the rollouts its creation launched. */
    ghost predicate Counted()
      reads this
    {
      OneRolloutEach(nodes, root, live, own, born)
    }

    /** state(): the position at the root, a valid one, finished exactly when the root has no
        moves. */
    function State(): (s: S)
      reads this
      requires Valid()
      ensures game.valid(s) && (game.terminal(s) <==> nodes[root].IsTerminal())
    {
      NodeStatus(game, shuffleMoves, nodes, root, live, own, root);
      nodes[root].state
    }

    /** The constructor: a tree holding only a root built from `state`, with no parent and
        player -1. The engine is seeded with the draws `stream`; moves are shuffled unless
        `shuffle` is false, as by default in the C++. */
    constructor(g: Game<S, M>, state: S, stream: nat -> nat, shuffle: bool := true)
      requires GameLaws(g) && g.valid(state)
      ensures Valid() && Counted()
      ensures game == g && shuffleMoves == shuffle && root == 0 && |nodes| == 1
      ensures IsNewNode(g, shuffle, nodes[0], None, -1, state)
      ensures rng.stream == stream && own == [0]
    {
      var n, r := NewNode(g, None, -1, state, shuffle, Random(stream, 0));
      game, shuffleMoves := g, shuffle;
      rng, nodes, root := r, [n], 0;
      live, own, born := {0}, [0], [false];
      new;
      FreshRootKeeps(g, shuffle, [], [], [], n, state);
    }

    /** Node::expand on node i: take the move under the cursor, advance the cursor, and append
        a child holding the state after that move, i as parent and the mover as player. */
    method Expand(i: nat) returns (c: nat)
      requires Valid() && i in live && i < |nodes| && !nodes[i].IsFullyExpanded()
      modifies this
      ensures Valid()
      ensures c == |old(nodes)| && c < |nodes| && nodes == Grow(old(nodes), i, nodes[c])
      ensures IsNewNode(game, shuffleMoves, nodes[c], Some(i), game.currentPlayer(old(nodes[i].state)),
                        game.makeMove(old(nodes[i].state), old(nodes[i].possibleMoves[nodes[i].nextUntried])))
      ensures root == old(root) && live == old(live) + {c} && own == old(own) + [0] && born == old(born) + [true]
      ensures Keeps(old(nodes), nodes) && nodes[root].visits == old(nodes[root].visits)
      ensures rng.stream == old(rng.stream) && (!shuffleMoves ==> rng == old(rng))
    {
      var n := nodes[i];
      var move := n.possibleMoves[n.nextUntried];
      var child, r := NewNode(game, Some(i), game.currentPlayer(n.state), game.makeMove(n.state, move), shuffleMoves, rng);
      ExpandKeeps(game, shuffleMoves, nodes, root, live, own, i, child);
      c := |nodes|;
      nodes := Grow(nodes, i, child);
      rng := r;
      live, own, born := live + {c}, own + [0], born + [true];
    }

    /** Node::backpropagate from node x with the finished position t: every node on the parent
        chain from x to the root gains a visit, and the result of t for its player unless that
        player is -1; no other node changes. */
    method Backpropagate(x: nat, t: S)
      requires Valid() && x in live && game.valid(t) && game.terminal(t)
      modifies this
      ensures Valid()
      ensures |nodes| == |old(nodes)| && root == old(root)
      ensures nodes == Climbed(game, old(nodes), x, -1, t)
      ensures Keeps(old(nodes), nodes)
      ensures nodes[root].visits == old(nodes[root].visits) + 1 && nodes[root].score == old(nodes[root].score)
      ensures live == old(live) && own == old(own)[x := old(own)[x] + 1] && born == old(born) && rng == old(rng)
    {
      ClimbDone(game, shuffleMoves, nodes, root, live, own, x, t);
      LaunchKeeps(game, shuffleMoves, nodes, root, live, own, x);
      ghost var ns0 := nodes;
      own := own[x := own[x] + 1];
      ClimbStart(game, nodes, x, t);
      var cur: int := x;
      while cur != -1
        invariant -1 <= cur < |nodes| == |ns0|
        invariant nodes == Climbed(game, ns0, x, cur, t)
        invariant Arena(game, shuffleMoves, nodes, root, live, own, cur)
        invariant cur != -1 ==> cur in live && Reaches(ns0, x, cur)
        invariant (root, live, own, born, rng) == (old(root), old(live), old(own)[x := old(own)[x] + 1], old(born), old(rng))
        decreases cur + 1
      {
        ClimbStep(game, shuffleMoves, ns0, root, live, own, x, cur, t);
        var next := Up(nodes, cur);
        nodes := nodes[cur := Bumped(game, nodes[cur], t)];
        cur := next;
      }
    }

    /** The select_node step of execute_one_iteration: from the root, follow the children
        `select` picks while the node is not terminal and fully expanded. The node reached lies
        in the tree, at or after the root, and is terminal or has an untried move. */
    method SelectNode(select: Selector<S, M>) returns (node: nat)
      requires Valid()
      ensures node == Descend(nodes, select, root)
      ensures node in live && node < |nodes| && root <= node
      ensures nodes[node].IsTerminal() || !nodes[node].IsFullyExpanded()
      ensures node == root || nodes[root].IsFullyExpanded()
    {
      node := root;
      LiveNode(game, shuffleMoves, nodes, root, live, own, -1, root);
      while !nodes[node].IsTerminal() && nodes[node].IsFullyExpanded()
        invariant node in live && node < |nodes| && root <= node
        invariant node == root || nodes[root].IsFullyExpanded()
        invariant Descend(nodes, select, node) == Descend(nodes, select, root)
        decreases |nodes| - node
      {
        LiveNode(game, shuffleMoves, nodes, root, live, own, -1, node);
        var k := select(nodes, node) % |nodes[node].children|;
        node := nodes[node].children[k];
      }
    }

    /** The last two steps of execute_one_iteration: a rollout from node x with the agent's
        engine, and backpropagation of the finished position from x. */
    method RolloutFrom(x: nat)
      requires Valid() && x in live
      modifies this
      ensures Valid() && root == old(root) && |nodes| == |old(nodes)| && Keeps(old(nodes), nodes)
      ensures nodes[root].visits == old(nodes[root].visits) + 1
      ensures live == old(live) && own == old(own)[x := old(own)[x] + 1] && born == old(born)
      ensures x < |old(nodes)| && game.valid(old(nodes[x].state)) &&
        nodes == Climbed(game, old(nodes), x, -1, Playout(game, old(nodes[x].state), old(rng)).0) &&
        rng == Playout(game, old(nodes[x].state), old(rng)).1
    {
      LiveNode(game, shuffleMoves, nodes, root, live, own, -1, x);
      var t, r := Rollout(game, nodes[x].state, rng);
      Backpropagate(x, t);
      rng := r;
    }

    /** execute_one_iteration: descend from the root through non-terminal, fully expanded
        nodes along the children `select` picks, then go on from the node reached as
        IterateFrom does. The root gains one visit and the arena at most one node. */
    method ExecuteOneIteration(select: Selector<S, M>)
      requires Valid() && Counted()
      modifies this
      ensures Valid() && Counted()
      ensures root == old(root) && Keeps(old(nodes), nodes) && |nodes| <= |old(nodes)| + 1
      ensures nodes[root].visits == old(nodes[root].visits) + 1
      ensures !old(nodes[root]).IsTerminal() ==> own[root] == old(own[root])
      ensures Iterated(game, shuffleMoves, select, old(nodes), old(root), old(rng), nodes, rng)
      ensures rng.stream == old(rng.stream)
    {
      var node := SelectNode(select);
      IterateFrom(node);
    }

    /** The rest of execute_one_iteration once select_node has reached `node`: expand it unless
        it is terminal, play a rollout from the node expanded or reached, and backpropagate its
        result from there. */
    method IterateFrom(node: nat)
      requires Valid() && Counted() && node in live && node < |nodes| && root <= node
      requires nodes[node].IsTerminal() || !nodes[node].IsFullyExpanded()
      requires node == root || nodes[root].IsFullyExpanded()
      modifies this
      ensures Valid() && Counted()
      ensures root == old(root) && Keeps(old(nodes), nodes) && |nodes| <= |old(nodes)| + 1
      ensures nodes[root].visits == old(nodes[root].visits) + 1
      ensures !old(nodes[root]).IsTerminal() ==> own[root] == old(own[root])
      ensures Launched(game, shuffleMoves, old(nodes), node, old(rng), nodes, rng)
      ensures rng.stream == old(rng.stream)
    {
      ghost var ns0, live0, own0, born0, rng0 := nodes, live, own, born, rng;
      LiveNode(game, shuffleMoves, nodes, root, live, own, -1, node);
      var x := node;
      if !nodes[node].IsTerminal() {
        x := Expand(node);
      }
      ghost var ns1, own1, r1 := nodes, own, rng;
      RolloutFrom(x);
      if x != node {
        LaunchedExpanded(game, shuffleMoves, ns0, node, rng0, ns1[x], r1, nodes, rng);
      } else {
        LaunchedTerminal(game, shuffleMoves, ns0, node, rng0, nodes, rng);
      }
      IterationCounted(root, ns0, live0, own0, born0, ns1, own1, nodes, live, own, born, x, x != node);
    }

    /** search_move with the time budget replaced by a number of iterations n: run n
        iterations, then return the move of the root's first most visited child. The C++
        indexes with -1 when no child has been visited, so at least one must have been, which
        holds after any iteration from a root with moves. */
    method SearchMove(n: nat, select: Selector<S, M>) returns (move: M)
      requires Valid() && Counted() && !nodes[root].IsTerminal()
      requires n > 0 || SumVisits(nodes, nodes[root].children) > 0
      modifies this
      ensures Valid() && Counted() && root == old(root)
      ensures nodes[root].visits == old(nodes[root].visits) + n
      ensures nodes[root].state == old(nodes[root].state) && nodes[root].possibleMoves == old(nodes[root].possibleMoves)
      ensures own[root] == old(own[root]) && rng.stream == old(rng.stream)
      ensures exists k :: IsFirstMost(ChildVisits(nodes, nodes[root].children), k) &&
                          k < |nodes[root].possibleMoves| && move == nodes[root].possibleMoves[k]
      ensures forall k :: IsFirstMost(ChildVisits(nodes, nodes[root].children), k) ==>
                          k < |nodes[root].possibleMoves| && move == nodes[root].possibleMoves[k]
    {
      LiveNode(game, shuffleMoves, nodes, root, live, own, -1, root);
      ghost var sum0 := SumVisits(nodes, nodes[root].children);
      var i := 0;
      while i < n
        invariant i <= n
        invariant Valid() && Counted() && root == old(root)
        invariant nodes[root].visits == old(nodes[root].visits) + i
        invariant nodes[root].state == old(nodes[root].state)
        invariant nodes[root].possibleMoves == old(nodes[root].possibleMoves)
        invariant own[root] == old(own[root]) && rng.stream == old(rng.stream)
      {
        ExecuteOneIteration(select);
        i := i + 1;
      }
      LiveNode(game, shuffleMoves, nodes, root, live, own, -1, root);
      var children := nodes[root].children;
      assert SumVisits(nodes, children) == sum0 + n;
      SumPositive(nodes, children);
      var visits := ChildVisits(nodes, children);
      var index := MostVisited(visits);
      move := nodes[root].possibleMoves[index];
      forall k | IsFirstMost(visits, k) ensures k < |nodes[root].possibleMoves| && move == nodes[root].possibleMoves[k] {
        FirstMostUnique(visits, index, k);
      }
    }

    /** apply_move: when `move` leads to an expanded child, that child becomes the root with
        no parent, player -1 and score 0, keeping its visits and subtree; otherwise a fresh root
        is built from the state after the move. The move must be one of the root's: the C++
        indexes one past the end of the move list otherwise. */
    method ApplyMove(move: M)
      requires Valid() && Counted() && move in nodes[root].possibleMoves
      modifies this
      ensures Valid() && Counted()
      ensures var r0 := old(nodes[root]); var k := IndexOf(r0.possibleMoves, move);
        if k < |r0.children| then
          root == r0.children[k] && root < |old(nodes)| && nodes == Promote(old(nodes), root) &&
          nodes[root].parent == None && nodes[root].player == -1 && nodes[root].score == 0.0 &&
          nodes[root].visits == old(nodes[r0.children[k]].visits) &&
          live == Subtree(old(nodes), old(live), root) && rng == old(rng)
        else
          root == |old(nodes)| && nodes == old(nodes) + [nodes[root]] && live == {root} &&
          IsNewNode(game, shuffleMoves, nodes[root], None, -1, game.makeMove(r0.state, move)) &&
          rng.stream == old(rng.stream) && (!shuffleMoves ==> rng == old(rng))
    {
      LiveNode(game, shuffleMoves, nodes, root, live, own, -1, root);
      var r0 := nodes[root];
      var k := IndexOf(r0.possibleMoves, move);
      if k < |r0.children| {
        PromoteChild(k);
      } else {
        assert move in multiset(game.possibleMoves(r0.state));
        ReplaceRoot(game.makeMove(r0.state, r0.possibleMoves[k]));
      }
    }

    /** The first branch of apply_move: the root's child k becomes the root, and the tree
        shrinks to that child's subtree. */
    method PromoteChild(k: nat)
      requires Valid() && Counted() && k < |nodes[root].children|
      modifies this
      ensures Valid() && Counted()
      ensures root == old(nodes[root].children[k]) && root < |old(nodes)|
      ensures nodes == Promote(old(nodes), root) && live == Subtree(old(nodes), old(live), root)
      ensures rng == old(rng)
    {
      var c := nodes[root].children[k];
      PromoteKeeps(game, shuffleMoves, nodes, root, live, own, k, c);
      LiveNode(game, shuffleMoves, nodes, root, live, own, -1, root);
      PromoteCounted(nodes, root, live, own, born, c);
      live := Subtree(nodes, live, c);
      nodes := Promote(nodes, c);
      root := c;
    }

    /** The second branch of apply_move: a fresh root built from `state` at the end of the arena
        is the whole tree. */
    method ReplaceRoot(state: S)
      requires Valid() && Counted() && game.valid(state)
      modifies this
      ensures Valid() && Counted()
      ensures root == |old(nodes)| && nodes == old(nodes) + [nodes[root]] && live == {root}
      ensures IsNewNode(game, shuffleMoves, nodes[root], None, -1, state)
      ensures rng.stream == old(rng.stream) && (!shuffleMoves ==> rng == old(rng))
    {
      var n, r := NewNode(game, None, -1, state, shuffleMoves, rng);
      FreshRootKeeps(game, shuffleMoves, nodes, own, born, n, state);
      root := |nodes|;
      nodes, live, own, born := nodes + [n], {root}, own + [0], born + [false];
      rng := r;
    }
  }

  /** A fresh agent on a position with moves that runs n > 0 iterations and picks a move: the
      root has seen exactly n rollouts, one per iteration, and the move is one of the
      position's. */
  method FreshSearch<S(!new), M(==, !new)>(g: Game<S, M>, state: S, shuffle: bool, stream: nat -> nat,
                                           n: nat, select: Selector<S, M>)
    returns (move: M, agent: Agent<S, M>)
    requires GameLaws(g) && g.valid(state) && !g.terminal(state) && n > 0
    ensures agent.Valid() && agent.Counted() && agent.game == g && agent.root < |agent.nodes|
    ensures agent.nodes[agent.root].visits == n && agent.nodes[agent.root].state == state
    ensures agent.nodes[agent.root].visits == SumVisits(agent.nodes, agent.nodes[agent.root].children)
    ensures move in g.possibleMoves(state)
  {
    agent := new Agent(g, state, stream, shuffle);
    ghost var moves := agent.nodes[0].possibleMoves;
    assert multiset(moves) == multiset(g.possibleMoves(state));
    assert g.possibleMoves(state)[0] in multiset(moves);
    move := agent.SearchMove(n, select);
    assert move in multiset(moves);
    VisitsBalance(g, shuffle, agent.nodes, agent.root, agent.live, agent.own, agent.born, agent.root);
  }
}
