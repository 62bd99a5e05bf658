/** The search itself (ai/process.ts): a thousand rounds of select, expand,
    play out and back up over a tree of `Node`s, then the most visited
    move at the root. Random picks are nondeterministic choices, so every
    property below holds whatever the picks are. */
module AiProcess {
  import opened Types
  import opened GameBase
  import opened RulesPlay
  import opened AiListMoves
  import opened AiMcts
  import opened AiRollout
  import RulesPlaceCard
  import GameFlow

  /** The number of rounds the search runs. */
  const ITER_MAX: nat := 1000

  /** A move the search may replay: a placement of `player` on the board. */
  predicate Replayable(rules: Rules, player: Player, m: Move)
  {
    m.Place? && m.player == player && InBounds(rules, m.placement.col, m.placement.row)
  }

  /** The fixed part of the tree's shape, which no field update can
      change: each node is linked to its parent one level up, only `root`
      has no parent, every other node holds the move that leads to it,
      every listed move is replayable, and, as play never
      passes the turn, every node records the opponent of `player` as the
      player who moved into it. */
  ghost predicate Linked(rules: Rules, nodes: set<Node>, root: Node, player: Player)
  {
    && root in nodes && root.parentNode == null && root.depth == 0
    && (forall n :: n in nodes ==> n.depth < |nodes| && n.playerJustMoved == 1 - player)
    && (forall n :: n in nodes ==> forall m :: m in n.initialMoves ==> Replayable(rules, player, m))
    // The parent's facts hang on `n.parentNode` only: a trigger on `n in
    // nodes` would walk up the tree without end.
    && (forall n {:trigger n.parentNode} :: n in nodes && n.parentNode == null ==> n == root)
    && (forall n {:trigger n.parentNode} :: n in nodes && n.parentNode != null ==>
          && n.parentNode in nodes && n.depth == n.parentNode.depth + 1
          && n.move.Some? && Replayable(rules, player, n.move.value))
  }

  /** The nodes from `n` up to the root along `parentNode`: the nodes a
      backpropagation from `n` updates. */
  ghost function PathUp(rules: Rules, nodes: set<Node>, root: Node, player: Player, n: Node): (p: set<Node>)
    requires Linked(rules, nodes, root, player) && n in nodes
    ensures n in p && root in p && p <= nodes
    ensures forall x :: x in p ==> x.depth <= n.depth
    decreases n.depth
  {
    if n.parentNode == null then {n} else {n} + PathUp(rules, nodes, root, player, n.parentNode)
  }

  /** The state a node stands for: the root's state with the moves on the
      path from the root down to `n` played in order, as the descent and
      the expansion play them. */
  ghost function NodeState(rules: Rules, nodes: set<Node>, root: Node, rootState: GameState, n: Node): (s: GameState)
    requires Linked(rules, nodes, root, rootState.currentPlayer) && n in nodes && Inv(rules, rootState)
    ensures Inv(rules, s) && s.currentPlayer == rootState.currentPlayer
    decreases n.depth
  {
    if n.parentNode == null then rootState
    else
      var before := NodeState(rules, nodes, root, rootState, n.parentNode);
      PlayKeepsInv(rules, before, n.move.value);
      PlayOnState(rules, before, n.move.value).state
  }

  /** Adding nodes to the tree does not change the state of a node already
      in it. */
  lemma {:induction false} NodeStateGrows(rules: Rules, nodes: set<Node>, nodes': set<Node>, root: Node,
                                          rootState: GameState, n: Node)
    requires Linked(rules, nodes, root, rootState.currentPlayer) && Linked(rules, nodes', root, rootState.currentPlayer)
    requires Inv(rules, rootState) && nodes <= nodes' && n in nodes
    ensures NodeState(rules, nodes', root, rootState, n) == NodeState(rules, nodes, root, rootState, n)
    decreases n.depth
  {
    if n.parentNode != null {
      NodeStateGrows(rules, nodes, nodes', root, rootState, n.parentNode);
    }
  }

  /** The changing part: every node tracks its moves, and its children are
      nodes whose parent it is. */
  ghost predicate Kept(nodes: set<Node>)
    reads nodes
  {
    forall n :: n in nodes ==>
      && n.Tracked()
      && (forall i :: 0 <= i < |n.childNodes| ==> n.childNodes[i] in nodes && n.childNodes[i].parentNode == n)
  }

  ghost predicate Closed(rules: Rules, nodes: set<Node>, root: Node, player: Player)
    reads nodes
  {
    Linked(rules, nodes, root, player) && Kept(nodes)
  }

  /** A node made for `child` one level below `parent` keeps the fixed part
      of the shape. */
  lemma LinkedGrows(rules: Rules, nodes: set<Node>, root: Node, player: Player, parent: Node, child: Node)
    requires Linked(rules, nodes, root, player) && parent in nodes && child !in nodes
    requires child.parentNode == parent && child.depth == parent.depth + 1
    requires forall m :: m in child.initialMoves ==> Replayable(rules, player, m)
    requires child.playerJustMoved == 1 - player
    requires child.move.Some? && Replayable(rules, player, child.move.value)
    ensures Linked(rules, nodes + {child}, root, player)
  {
    assert |nodes + {child}| == |nodes| + 1;
  }

  /** Every move listMoves offers can be replayed. */
  lemma ListedReplayable(rules: Rules, s: GameState)
    requires Inv(rules, s)
    ensures ListReady(rules, s, s.currentPlayer)
    ensures forall x :: x in ListMovesSpec(rules, s, s.currentPlayer) ==> Replayable(rules, s.currentPlayer, x)
  {
    ListMovesMembers(rules, s, s.currentPlayer);
  }

  /** A move replayed in the tree, played on its own state. */
  method Replay(rules: Rules, state: GameState, m: Move) returns (next: GameState)
    requires Inv(rules, state) && Replayable(rules, state.currentPlayer, m)
    ensures RulesPlaceCard.PlaceReady(rules, state.board, state, m) && next == PlayOnState(rules, state, m).state
    ensures Inv(rules, next) && next.currentPlayer == state.currentPlayer
    ensures ListReady(rules, next, next.currentPlayer)
    ensures forall x :: x in ListMovesSpec(rules, next, next.currentPlayer) ==> Replayable(rules, next.currentPlayer, x)
  {
    PlayKeepsInv(rules, state, m);
    next := PlayOnState(rules, state, m).state;
    ListedReplayable(rules, next);
  }

  /** Selection: from the root, go to the selected child while the node is
      fully expanded and has children, playing each child's move. */
  method Descend(rules: Rules, root: Node, rootState: GameState, ucb: (real, nat, nat) -> real,
                 ghost nodes: set<Node>)
    returns (node: Node, state: GameState)
    requires Closed(rules, nodes, root, rootState.currentPlayer) && Inv(rules, rootState)
    ensures node in nodes && Inv(rules, state) && state.currentPlayer == rootState.currentPlayer
    ensures state == NodeState(rules, nodes, root, rootState, node)
    ensures node.untriedMoves != [] || node.childNodes == []
    ensures root.childNodes == [] ==> node == root
  {
    node, state := root, rootState;
    while node.untriedMoves == [] && node.childNodes != []
      invariant node in nodes && Inv(rules, state) && state.currentPlayer == rootState.currentPlayer
      invariant state == NodeState(rules, nodes, root, rootState, node)
      invariant root.childNodes == [] ==> node == root
      decreases |nodes| - node.depth
    {
      var next := node.Select(ucb);
      ghost var k :| 0 <= k < |node.childNodes| && next == node.childNodes[k];
      assert next in nodes && next.parentNode == node;
      state := Replay(rules, state, next.move.value);
      node := next;
    }
  }

  /** The tree part of expansion: the untried move at `k` becomes a new
      child of `node`, built on `next`. */
  method Grow(rules: Rules, node: Node, k: nat, next: GameState,
              ghost nodes: set<Node>, ghost root: Node, ghost player: Player)
    returns (child: Node)
    requires Closed(rules, nodes, root, player) && node in nodes && k < |node.untriedMoves|
    requires ListReady(rules, next, next.currentPlayer) && next.currentPlayer == player
    requires forall x :: x in ListMovesSpec(rules, next, next.currentPlayer) ==> Replayable(rules, player, x)
    modifies node`untriedMoves, node`childNodes
    ensures fresh(child) && child.parentNode == node && child.move == Some(old(node.untriedMoves[k]))
    ensures child.visits == 0 && child.wins == 0.0
    ensures node.childNodes == old(node.childNodes) + [child]
    ensures Closed(rules, nodes + {child}, root, player)
  {
    child := node.AddChild(rules, k, next);
    var all := nodes + {child};
    LinkedGrows(rules, nodes, root, player, node, child);
    forall n | n in all
      ensures n.Tracked()
      ensures forall i :: 0 <= i < |n.childNodes| ==> n.childNodes[i] in all && n.childNodes[i].parentNode == n
    {
      if n == node {
        forall i | 0 <= i < |n.childNodes|
          ensures n.childNodes[i] in all && n.childNodes[i].parentNode == n
        {
          if i < |old(n.childNodes)| {
            assert n.childNodes[i] == old(n.childNodes)[i];
          }
        }
      } else if n != child {
        assert old(n.Tracked());
        assert n.childNodes == old(n.childNodes);
      }
    }
  }

  /** Expansion: a random untried move of `node` is played and becomes a
      new child of `node`. */
  method Expand(rules: Rules, node: Node, state: GameState,
                ghost nodes: set<Node>, ghost root: Node, ghost player: Player)
    returns (child: Node, next: GameState)
    requires Closed(rules, nodes, root, player) && node in nodes && node.untriedMoves != []
    requires Inv(rules, state) && state.currentPlayer == player
    modifies node`untriedMoves, node`childNodes
    ensures fresh(child) && child.parentNode == node && child.visits == 0 && child.wins == 0.0
    ensures child.move.Some? && Replayable(rules, player, child.move.value)
    ensures RulesPlaceCard.PlaceReady(rules, state.board, state, child.move.value)
    ensures next == PlayOnState(rules, state, child.move.value).state
    ensures node.childNodes == old(node.childNodes) + [child]
    ensures Closed(rules, nodes + {child}, root, player)
    ensures Inv(rules, next) && next.currentPlayer == player
  {
    var k :| 0 <= k < |node.untriedMoves|;
    var m := node.untriedMoves[k];
    next := Replay(rules, state, m);
    child := Grow(rules, node, k, next, nodes, root, player);
  }

  /** `s` leads to `t` by playing the moves `ms` in turn, each one that
      listMoves offers the player to move at that point. */
  ghost predicate PlaysTo(rules: Rules, s: GameState, ms: seq<Move>, t: GameState)
    decreases |ms|
  {
    if ms == [] then s == t
    else
      && ListReady(rules, s, s.currentPlayer) && ms[0] in ListMovesSpec(rules, s, s.currentPlayer)
      && RulesPlaceCard.PlaceReady(rules, s.board, s, ms[0])
      && PlaysTo(rules, PlayOnState(rules, s, ms[0]).state, ms[1..], t)
  }

  /** One more listed move extends a playout. */
  lemma {:induction false} PlaysToExtend(rules: Rules, s: GameState, ms: seq<Move>, t: GameState, m: Move)
    requires PlaysTo(rules, s, ms, t)
    requires ListReady(rules, t, t.currentPlayer) && m in ListMovesSpec(rules, t, t.currentPlayer)
    requires RulesPlaceCard.PlaceReady(rules, t.board, t, m)
    ensures PlaysTo(rules, s, ms + [m], PlayOnState(rules, t, m).state)
    decreases |ms|
  {
    if ms == [] {
      assert ([] + [m])[1..] == [];
    } else {
      PlaysToExtend(rules, PlayOnState(rules, s, ms[0]).state, ms[1..], t, m);
      assert (ms + [m])[1..] == ms[1..] + [m];
    }
  }

  /** `final` ends a playout of listed moves from `s`: the turn has not
      moved and the player to move has no move left. */
  ghost predicate PlayedOut(rules: Rules, s: GameState, playout: seq<Move>, final: GameState)
  {
    && Inv(rules, final) && final.currentPlayer == s.currentPlayer
    && ListReady(rules, final, final.currentPlayer) && ListMovesSpec(rules, final, final.currentPlayer) == []
    && PlaysTo(rules, s, playout, final)
  }

  /** Rollout: play random listed moves until the player to move has none.
      `played` is the moves played on the way, for the proofs only. */
  method Rollout(rules: Rules, start: GameState) returns (state: GameState, ghost played: seq<Move>)
    requires RolloutRules(rules) && Inv(rules, start)
    ensures Inv(rules, state) && state.currentPlayer == start.currentPlayer
    ensures ListReady(rules, state, state.currentPlayer) && ListMovesSpec(rules, state, state.currentPlayer) == []
    ensures PlaysTo(rules, start, played, state)
  {
    state := start;
    played := [];
    ListedReplayable(rules, state);
    var moves := ListMoves(rules, state, state.currentPlayer);
    while moves != []
      invariant Inv(rules, state) && state.currentPlayer == start.currentPlayer
      invariant moves == ListMovesSpec(rules, state, state.currentPlayer)
      invariant PlaysTo(rules, start, played, state)
      decreases DeckCount(state), BoardWorth(rules, state.board.cells)
    {
      var j :| 0 <= j < |moves|;
      RolloutStep(rules, state, moves[j]);
      PlaysToExtend(rules, start, played, state, moves[j]);
      played := played + [moves[j]];
      state := PlayOnState(rules, state, moves[j]).state;
      ListedReplayable(rules, state);
      moves := ListMoves(rules, state, state.currentPlayer);
    }
  }

  /** Backpropagation: every node from `leaf` up to the root records the
      outcome of `final` for the player who moved into it. */
  method Backpropagate(rules: Rules, leaf: Node, final: GameState,
                       ghost nodes: set<Node>, ghost root: Node, ghost player: Player)
    returns (ghost path: set<Node>)
    requires Closed(rules, nodes, root, player) && leaf in nodes
    requires KnownCells(rules, final.board.cells)
    modifies nodes
    ensures Closed(rules, nodes, root, player)
    ensures path == PathUp(rules, nodes, root, player, leaf) && leaf in path && root in path
    ensures forall n :: n in nodes ==>
              && n.visits == old(n.visits) + (if n in path then 1 else 0)
              && n.wins == old(n.wins) + (if n in path then ResultOf(rules, final, n.playerJustMoved) else 0.0)
    ensures forall n :: n in nodes ==> n.childNodes == old(n.childNodes) && n.untriedMoves == old(n.untriedMoves)
  {
    var node: Node? := leaf;
    path := PathUp(rules, nodes, root, player, leaf);
    ghost var done: set<Node> := {};
    while node != null
      invariant node != null ==> node in nodes && path == done + PathUp(rules, nodes, root, player, node)
                                 && done !! PathUp(rules, nodes, root, player, node)
      invariant node == null ==> done == path
      invariant forall n :: n in nodes ==> n.childNodes == old(n.childNodes) && n.untriedMoves == old(n.untriedMoves)
      invariant forall n :: n in nodes ==>
                  && n.visits == old(n.visits) + (if n in done then 1 else 0)
                  && n.wins == old(n.wins) + (if n in done then ResultOf(rules, final, n.playerJustMoved) else 0.0)
      decreases if node == null then 0 else node.depth + 1
    {
      var result := StateGetResult(rules, final, node.playerJustMoved);
      node.Update(result);
      done := done + {node};
      node := node.parentNode;
    }
    forall n | n in nodes
      ensures n.Tracked()
    {
      assert old(n.Tracked());
    }
  }

  /** Selection and expansion: descend along the UCB choice and, when the
      node reached still has untried moves, grow one child under it. The
      node returned is that child or the node reached; no tally changes. */
  method Select(rules: Rules, rootNode: Node, rootState: GameState, ucb: (real, nat, nat) -> real,
                ghost nodes: set<Node>)
    returns (ghost nodes': set<Node>, leaf: Node, state: GameState)
    requires Inv(rules, rootState)
    requires Closed(rules, nodes, rootNode, rootState.currentPlayer)
    modifies nodes
    ensures Closed(rules, nodes', rootNode, rootState.currentPlayer) && nodes <= nodes' && leaf in nodes'
    ensures forall n :: n in nodes' ==> n in nodes || fresh(n)
    ensures Inv(rules, state) && state.currentPlayer == rootState.currentPlayer
    ensures state == NodeState(rules, nodes', rootNode, rootState, leaf)
    ensures forall n :: n in nodes ==> n.visits == old(n.visits) && n.wins == old(n.wins)
    ensures leaf !in nodes ==> fresh(leaf) && leaf.visits == 0 && leaf.wins == 0.0
    ensures old(rootNode.childNodes) != [] ==> rootNode.childNodes != []
    ensures rootNode.initialMoves != [] ==> rootNode.childNodes != []
  {
    var player := rootState.currentPlayer;
    leaf, state := Descend(rules, rootNode, rootState, ucb, nodes);
    nodes' := nodes;
    if leaf.untriedMoves != [] {
      var parent := leaf;
      leaf, state := Expand(rules, leaf, state, nodes, rootNode, player);
      nodes' := nodes + {leaf};
      NodeStateGrows(rules, nodes, nodes', rootNode, rootState, parent);
    }
  }

  /** Selection, expansion and playout: the playout starts from the state
      of the node the selection reached or the expansion made, and `final`
      is where it ends. No tally changes. */
  method Simulate(rules: Rules, rootNode: Node, rootState: GameState, ucb: (real, nat, nat) -> real,
                  ghost nodes: set<Node>)
    returns (ghost nodes': set<Node>, leaf: Node, ghost playout: seq<Move>, final: GameState)
    requires RolloutRules(rules) && Inv(rules, rootState)
    requires Closed(rules, nodes, rootNode, rootState.currentPlayer)
    modifies nodes
    ensures Closed(rules, nodes', rootNode, rootState.currentPlayer) && nodes <= nodes' && leaf in nodes'
    ensures forall n :: n in nodes' ==> n in nodes || fresh(n)
    ensures forall n :: n in nodes ==> n.visits == old(n.visits) && n.wins == old(n.wins)
    ensures leaf !in nodes ==> fresh(leaf) && leaf.visits == 0 && leaf.wins == 0.0
    ensures old(rootNode.childNodes) != [] ==> rootNode.childNodes != []
    ensures rootNode.initialMoves != [] ==> rootNode.childNodes != []
    ensures PlayedOut(rules, NodeState(rules, nodes', rootNode, rootState, leaf), playout, final)
    ensures KnownCells(rules, final.board.cells)
  {
    var state;
    nodes', leaf, state := Select(rules, rootNode, rootState, ucb, nodes);
    final, playout := Rollout(rules, state);
  }

  /** One round of the search from the root: select, expand, play out,
      back up. `leaf` is the node the round expanded (a new child) or
      stopped at, and `final` the end of its playout. Every node from
      `leaf` up to the root gets one more visit and the outcome of `final`
      for the player who moved into it, which is always the opponent of
      the root player; no other node changes its tallies. The root has
      children now if it had any before or has moves at all. */
  method Round(rules: Rules, rootNode: Node, rootState: GameState, ucb: (real, nat, nat) -> real,
               ghost nodes: set<Node>)
    returns (ghost nodes': set<Node>, ghost leaf: Node, ghost path: set<Node>, ghost playout: seq<Move>,
             final: GameState)
    requires RolloutRules(rules) && Inv(rules, rootState)
    requires Closed(rules, nodes, rootNode, rootState.currentPlayer)
    modifies nodes
    ensures Closed(rules, nodes', rootNode, rootState.currentPlayer) && leaf in nodes'
    ensures path == PathUp(rules, nodes', rootNode, rootState.currentPlayer, leaf)
    ensures forall n :: n in nodes' ==> n in nodes || fresh(n)
    ensures PlayedOut(rules, NodeState(rules, nodes', rootNode, rootState, leaf), playout, final)
    ensures forall n :: n in nodes' ==> n.playerJustMoved == 1 - rootState.currentPlayer
    ensures leaf !in nodes ==>
              fresh(leaf) && leaf.visits == 1 && leaf.wins == ResultOf(rules, final, leaf.playerJustMoved)
    ensures forall n :: n in nodes ==>
              && n.visits == old(n.visits) + (if n in path then 1 else 0)
              && n.wins == old(n.wins) + (if n in path then ResultOf(rules, final, n.playerJustMoved) else 0.0)
    ensures rootNode.visits == old(rootNode.visits) + 1
    ensures old(rootNode.childNodes) != [] ==> rootNode.childNodes != []
    ensures rootNode.initialMoves != [] ==> rootNode.childNodes != []
  {
    var player := rootState.currentPlayer;
    var node;
    nodes', node, playout, final := Simulate(rules, rootNode, rootState, ucb, nodes);
    leaf := node;
    assert rootNode in nodes;
    path := Backpropagate(rules, node, final, nodes', rootNode, player);
  }

  /** The move of the most visited child, the last one among equal counts
      (a stable sort by visits, then its last element); `None` without
      children. */
  method MostVisited(root: Node) returns (best: Option<Move>)
    requires root.Tracked()
    ensures best.None? <==> root.childNodes == []
    ensures best.Some? ==> best.value in root.initialMoves
    ensures best.Some? ==>
      (exists k :: 0 <= k < |root.childNodes| && root.childNodes[k].move == best
        && (forall j :: 0 <= j < |root.childNodes| ==> root.childNodes[j].visits <= root.childNodes[k].visits)
        && (forall j :: k < j < |root.childNodes| ==> root.childNodes[j].visits < root.childNodes[k].visits))
  {
    if root.childNodes == [] {
      return None;
    }
    var keys := Scores(root.childNodes, 0, (w: real, v: nat, p: nat) => v as real);
    var k := ArgMaxLast(keys);
    best := root.childNodes[k].move;
    assert forall j :: 0 <= j < |root.childNodes| ==> keys[j] == root.childNodes[j].visits as real;
    assert forall j :: 0 <= j < |root.childNodes| ==> root.childNodes[j].visits <= root.childNodes[k].visits;
    assert forall j :: k < j < |root.childNodes| ==> root.childNodes[j].visits < root.childNodes[k].visits;
  }

  /** The root of a new search: a node for `rootState` with no parent. */
  method NewRoot(rules: Rules, rootState: GameState) returns (root: Node, ghost nodes: set<Node>)
    requires Inv(rules, rootState)
    ensures fresh(root) && nodes == {root}
    ensures root.visits == 0 && root.childNodes == []
    ensures root.initialMoves == ListMovesSpec(rules, rootState, rootState.currentPlayer)
    ensures Closed(rules, nodes, root, rootState.currentPlayer)
  {
    ListedReplayable(rules, rootState);
    root := new Node(rules, None, null, rootState);
    nodes := {root};
  }

  /** calculateBestMove: a thousand rounds, then the move of the most
      visited root child (the last one among equal counts), or `None` when
      the root has no child, which is exactly when the player to move has
      no move. `root` is the tree's root, returned for the proofs only. */
  method CalculateBestMove(rules: Rules, rootState: GameState, ucb: (real, nat, nat) -> real)
    returns (best: Option<Move>, ghost root: Node)
    requires RolloutRules(rules) && Inv(rules, rootState)
    ensures root.visits == ITER_MAX
    ensures root.childNodes == [] <==> ListMovesSpec(rules, rootState, rootState.currentPlayer) == []
    ensures best.None? <==> root.childNodes == []
    ensures best.Some? ==> best.value in ListMovesSpec(rules, rootState, rootState.currentPlayer)
    ensures best.Some? ==>
      (exists k :: 0 <= k < |root.childNodes| && root.childNodes[k].move == best
        && (forall j :: 0 <= j < |root.childNodes| ==> root.childNodes[j].visits <= root.childNodes[k].visits)
        && (forall j :: k < j < |root.childNodes| ==> root.childNodes[j].visits < root.childNodes[k].visits))
  {
    var player := rootState.currentPlayer;
    var rootNode;
    ghost var nodes;
    rootNode, nodes := NewRoot(rules, rootState);
    root := rootNode;
    for i := 0 to ITER_MAX
      invariant Closed(rules, nodes, rootNode, player)
      invariant forall n :: n in nodes ==> fresh(n)
      invariant rootNode.visits == i
      invariant i > 0 && rootNode.initialMoves != [] ==> rootNode.childNodes != []
    {
      ghost var leaf, path, playout, final;
      nodes, leaf, path, playout, final := Round(rules, rootNode, rootState, ucb, nodes);
    }
    best := MostVisited(rootNode);
  }

  /** processAI: search from the game's state and apply the move found.
      When the player to move has no move the search finds none and the
      game is left as it is; otherwise the move found is one listMoves
      offers, so it is taken and the game enters its transition. */
  method ProcessAI(game: GameFlow.Game, ucb: (real, nat, nat) -> real)
    requires RolloutRules(game.rules) && Inv(game.rules, game.state)
    modifies game`phase
    ensures ListReady(game.rules, game.state, game.state.currentPlayer)
    ensures ListMovesSpec(game.rules, game.state, game.state.currentPlayer) == [] ==> game.phase == old(game.phase)
    ensures ListMovesSpec(game.rules, game.state, game.state.currentPlayer) != [] ==>
              && game.phase.TransitionPhase?
              && exists m :: m in ListMovesSpec(game.rules, game.state, game.state.currentPlayer)
                   && RulesPlaceCard.PlaceReady(game.rules, game.state.board, game.state, m)
                   && game.phase.nextState == PlayOnState(game.rules, game.state, m).state
  {
    var best;
    ghost var root;
    best, root := CalculateBestMove(game.rules, game.state, ucb);
    ListedReplayable(game.rules, game.state);
    if best.Some? {
      var move := best.value;
      PlayKeepsInv(game.rules, game.state, move);
      ListMovesMembers(game.rules, game.state, game.state.currentPlayer);
      PlayTakenIffCanPlay(game.rules, game.state, move);
      game.ApplyMove(move);
    }
  }
}
