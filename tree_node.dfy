/** The exhaustive game tree (ai/tree-node.ts). A node holds the move that
    led to it, the state after that move, the player who was to move
    before it, and, while depth remains, one child for each listed move.
    The source builds the node in its constructor and never changes it
    afterwards, so here it is a value. Moves are played on the node's own
    state, as in the search. */
module AiTreeNode {
  import opened Types
  import opened RulesPlay
  import opened AiListMoves
  import RulesPlaceCard
  import Inventory

  datatype TreeNode = TreeNode(move: Option<Move>, state: GameState, player: Player, children: seq<TreeNode>)

  /** A move the tree may play on `s`: a placement on the board by the
      player to move, as listMoves produces. */
  predicate Playable(rules: Rules, s: GameState, m: Move)
  {
    m.Place? && m.player == s.currentPlayer && InBounds(rules, m.placement.col, m.placement.row)
  }

  /** A playable move on a sound state meets what placeCard demands: the
      card it names, if the mover holds it, is in the card table. */
  lemma PlayableReady(rules: Rules, s: GameState, m: Move)
    requires Sound(rules, s) && Playable(rules, s, m)
    ensures RulesPlaceCard.PlaceReady(rules, s.board, s, m)
  {
    Inventory.AllKnownWellFormed(rules, s);
    var deck := s.decks[s.currentPlayer];
    assert KnownCells(rules, deck.cells);
    if DeckHolds(deck, m.cardId) {
      var i :| 0 <= i < |deck.cells| && deck.cells[i] == Occupied(m.cardId);
    }
  }

  /** A playable move on a sound state can be played, keeps the state sound
      and leaves the turn where it was. */
  lemma PlayableOnSound(rules: Rules, s: GameState, m: Move)
    requires Sound(rules, s) && Playable(rules, s, m)
    ensures RulesPlaceCard.PlaceReady(rules, s.board, s, m)
    ensures Sound(rules, PlayOnState(rules, s, m).state)
    ensures PlayOnState(rules, s, m).state.currentPlayer == s.currentPlayer
  {
    PlayableReady(rules, s, m);
    PlayConserves(rules, s, m);
  }

  /** On a sound state every listed move is playable. */
  lemma ListedPlayable(rules: Rules, s: GameState)
    requires Sound(rules, s)
    ensures ListReady(rules, s, s.currentPlayer)
    ensures forall m :: m in ListMovesSpec(rules, s, s.currentPlayer) ==> Playable(rules, s, m)
  {
    Inventory.AllKnownWellFormed(rules, s);
    ListMovesMembers(rules, s, s.currentPlayer);
  }

  /** The state a node holds: the previous state with the move played, or
      the previous state itself at the root. */
  function NodeState(rules: Rules, move: Option<Move>, prev: GameState): (s: GameState)
    requires Sound(rules, prev) && (move.Some? ==> Playable(rules, prev, move.value))
  {
    if move.Some? then
      PlayableOnSound(rules, prev, move.value);
      PlayOnState(rules, prev, move.value).state
    else prev
  }

  /** A node's state is sound and on the same turn as the state before. */
  lemma NodeStateSound(rules: Rules, move: Option<Move>, prev: GameState)
    requires Sound(rules, prev) && (move.Some? ==> Playable(rules, prev, move.value))
    ensures Sound(rules, NodeState(rules, move, prev))
    ensures NodeState(rules, move, prev).currentPlayer == prev.currentPlayer
  {
    if move.Some? {
      PlayableOnSound(rules, prev, move.value);
    }
  }

  /** The tree the TreeNode constructor builds from `prev` with `depth`
      levels still to expand. */
  function Tree(rules: Rules, move: Option<Move>, prev: GameState, depth: nat): (t: TreeNode)
    requires Sound(rules, prev) && (move.Some? ==> Playable(rules, prev, move.value))
    decreases depth, 1, 0
  {
    NodeStateSound(rules, move, prev);
    Grown(rules, move, prev.currentPlayer, NodeState(rules, move, prev), depth)
  }

  /** The node for `move` holding `state`, grown `depth` levels. */
  function Grown(rules: Rules, move: Option<Move>, player: Player, state: GameState, depth: nat): (t: TreeNode)
    requires Sound(rules, state)
    decreases depth, 0, 0
  {
    if depth == 0 then TreeNode(move, state, player, [])
    else
      ListedPlayable(rules, state);
      TreeNode(move, state, player, Children(rules, state, ListMovesSpec(rules, state, state.currentPlayer), depth - 1))
  }

  /** One tree of depth `depth` per move of `moves`, in order. */
  function Children(rules: Rules, state: GameState, moves: seq<Move>, depth: nat): (cs: seq<TreeNode>)
    requires Sound(rules, state) && forall m :: m in moves ==> Playable(rules, state, m)
    ensures |cs| == |moves|
    decreases depth, 2, |moves|
  {
    if moves == [] then []
    else
      var n := |moves| - 1;
      assert moves[n] in moves;
      Children(rules, state, moves[..n], depth) + [Tree(rules, Some(moves[n]), state, depth)]
  }

  /** The TreeNode constructor: play the move, then grow the node. */
  method Build(rules: Rules, move: Option<Move>, prev: GameState, depth: nat) returns (t: TreeNode)
    requires Sound(rules, prev) && (move.Some? ==> Playable(rules, prev, move.value))
    ensures t == Tree(rules, move, prev, depth)
    decreases depth, 1, 0
  {
    var state := NodeState(rules, move, prev);
    NodeStateSound(rules, move, prev);
    t := Grow(rules, move, prev.currentPlayer, state, depth);
  }

  /** The rest of the constructor: while depth remains, one child per
      listed move. */
  method Grow(rules: Rules, move: Option<Move>, player: Player, state: GameState, depth: nat) returns (t: TreeNode)
    requires Sound(rules, state)
    ensures t == Grown(rules, move, player, state, depth)
    decreases depth, 0, 0
  {
    if depth == 0 {
      return TreeNode(move, state, player, []);
    }
    ListedPlayable(rules, state);
    var moves := ListMoves(rules, state, state.currentPlayer);
    var children := BuildChildren(rules, state, moves, depth - 1);
    t := TreeNode(move, state, player, children);
  }

  /** The constructor's loop: a child of depth `depth` for each move, in
      order. */
  method BuildChildren(rules: Rules, state: GameState, moves: seq<Move>, depth: nat) returns (children: seq<TreeNode>)
    requires Sound(rules, state) && forall m :: m in moves ==> Playable(rules, state, m)
    ensures children == Children(rules, state, moves, depth)
    decreases depth, 2, |moves|
  {
    children := [];
    for i := 0 to |moves|
      invariant children == Children(rules, state, moves[..i], depth)
    {
      assert moves[..i + 1][..i] == moves[..i];
      assert moves[i] in moves;
      var child := Build(rules, Some(moves[i]), state, depth);
      children := children + [child];
    }
    assert moves[..|moves|] == moves;
  }

  // ---------------------------------------------------------------- counting

  /** countNodes: the node itself and every node below it, so at least
      one more than its children. */
  function CountNodes(t: TreeNode): (r: nat)
    ensures r >= 1 + |t.children|
    decreases t
  {
    1 + SumNodes(t.children)
  }

  function SumNodes(cs: seq<TreeNode>): (r: nat)
    ensures r >= |cs|
    decreases cs
  {
    if cs == [] then 0 else SumNodes(cs[..|cs| - 1]) + CountNodes(cs[|cs| - 1])
  }

  /** countLeafNodes: 1 for a node without children, otherwise the leaves
      of all its children; never zero. */
  function CountLeafNodes(t: TreeNode): (r: nat)
    ensures r >= 1
    decreases t
  {
    if t.children == [] then 1 else SumLeaves(t.children)
  }

  function SumLeaves(cs: seq<TreeNode>): (r: nat)
    ensures cs != [] ==> r >= 1
    ensures r >= |cs|
    decreases cs
  {
    if cs == [] then 0 else SumLeaves(cs[..|cs| - 1]) + CountLeafNodes(cs[|cs| - 1])
  }

  // ---------------------------------------------------------------- properties

  /** A node records the move that led to it, the player who was to move
      before it and the state with that move played. */
  lemma TreeFields(rules: Rules, move: Option<Move>, prev: GameState, depth: nat)
    requires Sound(rules, prev) && (move.Some? ==> Playable(rules, prev, move.value))
    ensures var t := Tree(rules, move, prev, depth);
            t.move == move && t.player == prev.currentPlayer && t.state == NodeState(rules, move, prev)
  {
  }

  /** The `i`-th child built for `moves` is the tree of the `i`-th move,
      and records that move. */
  lemma {:induction false} ChildrenAt(rules: Rules, state: GameState, moves: seq<Move>, depth: nat, i: nat)
    requires Sound(rules, state) && forall m :: m in moves ==> Playable(rules, state, m)
    requires i < |moves|
    ensures Playable(rules, state, moves[i])
    ensures Children(rules, state, moves, depth)[i] == Tree(rules, Some(moves[i]), state, depth)
    ensures Children(rules, state, moves, depth)[i].move == Some(moves[i])
    decreases |moves|
  {
    assert moves[i] in moves;
    var n := |moves| - 1;
    assert moves[n] in moves;
    var cs := Children(rules, state, moves, depth);
    var tree := Tree(rules, Some(moves[i]), state, depth);
    if i < n {
      var rest := Children(rules, state, moves[..n], depth);
      assert cs == rest + [Tree(rules, Some(moves[n]), state, depth)];
      assert moves[..n][i] == moves[i];
      ChildrenAt(rules, state, moves[..n], depth, i);
      assert cs[i] == rest[i];
    } else {
      assert cs == Children(rules, state, moves[..n], depth) + [tree];
    }
    TreeFields(rules, Some(moves[i]), state, depth);
  }

  /** The shape the constructor gives a node: its move, the state with that
      move played, the player who was to move, no children at depth 0, and
      otherwise one child per listed move, in listing order, built one
      level shallower. */
  lemma TreeShape(rules: Rules, move: Option<Move>, prev: GameState, depth: nat)
    requires Sound(rules, prev) && (move.Some? ==> Playable(rules, prev, move.value))
    ensures var t := Tree(rules, move, prev, depth);
            && t.move == move && t.player == prev.currentPlayer
            && Sound(rules, t.state) && t.state.currentPlayer == prev.currentPlayer
            && (move.None? ==> t.state == prev)
            && (move.Some? ==> RulesPlaceCard.PlaceReady(rules, prev.board, prev, move.value)
                               && t.state == PlayOnState(rules, prev, move.value).state)
            && (depth == 0 ==> t.children == [])
    ensures depth > 0 ==>
              var t := Tree(rules, move, prev, depth);
              ListReady(rules, t.state, t.state.currentPlayer)
              && (forall m :: m in ListMovesSpec(rules, t.state, t.state.currentPlayer) ==> Playable(rules, t.state, m))
              && t.children == Children(rules, t.state, ListMovesSpec(rules, t.state, t.state.currentPlayer), depth - 1)
  {
    var s := NodeState(rules, move, prev);
    NodeStateSound(rules, move, prev);
    if move.Some? {
      PlayableOnSound(rules, prev, move.value);
    }
    ListedPlayable(rules, s);
  }

  /** Every node has at least one leaf at or below it, and no more leaves
      than nodes. */
  lemma {:induction false} LeavesBounded(t: TreeNode)
    ensures 1 <= CountLeafNodes(t) <= CountNodes(t)
    decreases t
  {
    SumsBounded(t.children);
  }

  lemma {:induction false} SumsBounded(cs: seq<TreeNode>)
    ensures SumLeaves(cs) <= SumNodes(cs)
    ensures cs != [] ==> 1 <= SumLeaves(cs)
    decreases cs
  {
    if cs != [] {
      SumsBounded(cs[..|cs| - 1]);
      LeavesBounded(cs[|cs| - 1]);
    }
  }

  /** No node passes the turn: every node of the tree is on the turn of the
      player to move at the root, so the tree holds the moves of one player
      only. */
  predicate AllOnTurn(t: TreeNode, p: Player)
    decreases t
  {
    t.player == p && t.state.currentPlayer == p
    && forall i :: 0 <= i < |t.children| ==> AllOnTurn(t.children[i], p)
  }

  lemma {:induction false} TreeStaysOnTurn(rules: Rules, move: Option<Move>, prev: GameState, depth: nat)
    requires Sound(rules, prev) && (move.Some? ==> Playable(rules, prev, move.value))
    ensures AllOnTurn(Tree(rules, move, prev, depth), prev.currentPlayer)
    decreases depth, 1, 0
  {
    NodeStateSound(rules, move, prev);
    GrownStaysOnTurn(rules, move, prev.currentPlayer, NodeState(rules, move, prev), depth);
  }

  lemma {:induction false} GrownStaysOnTurn(rules: Rules, move: Option<Move>, player: Player, state: GameState, depth: nat)
    requires Sound(rules, state) && state.currentPlayer == player
    ensures AllOnTurn(Grown(rules, move, player, state, depth), player)
    decreases depth, 0, 0
  {
    var t := Grown(rules, move, player, state, depth);
    if depth > 0 {
      ListedPlayable(rules, state);
      var moves := ListMovesSpec(rules, state, state.currentPlayer);
      var cs := Children(rules, state, moves, depth - 1);
      ChildrenStayOnTurn(rules, state, moves, depth - 1);
      assert t == TreeNode(move, state, player, cs);
    } else {
      assert t.children == [];
    }
  }

  lemma {:induction false} ChildrenStayOnTurn(rules: Rules, state: GameState, moves: seq<Move>, depth: nat)
    requires Sound(rules, state) && forall m :: m in moves ==> Playable(rules, state, m)
    ensures forall i :: 0 <= i < |moves| ==> AllOnTurn(Children(rules, state, moves, depth)[i], state.currentPlayer)
    decreases depth, 2, |moves|
  {
    if moves != [] {
      var n := |moves| - 1;
      assert moves[n] in moves;
      var rest := Children(rules, state, moves[..n], depth);
      var last := Tree(rules, Some(moves[n]), state, depth);
      var cs := Children(rules, state, moves, depth);
      assert cs == rest + [last];
      ChildrenStayOnTurn(rules, state, moves[..n], depth);
      TreeStaysOnTurn(rules, Some(moves[n]), state, depth);
      forall i | 0 <= i < |cs| ensures AllOnTurn(cs[i], state.currentPlayer) {
        if i < n {
          assert cs[i] == rest[i];
          assert AllOnTurn(rest[i], state.currentPlayer);
        } else {
          assert cs[i] == last;
          assert AllOnTurn(last, state.currentPlayer);
        }
      }
    }
  }

  /** A node without children counts as one node and one leaf. */
  lemma LeafCounts(t: TreeNode)
    requires t.children == []
    ensures CountNodes(t) == 1 && CountLeafNodes(t) == 1
  {
    assert SumNodes(t.children) == 0;
  }

  lemma {:induction false} LeafSums(cs: seq<TreeNode>)
    requires forall i :: 0 <= i < |cs| ==> cs[i].children == []
    ensures SumNodes(cs) == |cs| && SumLeaves(cs) == |cs|
  {
    if cs != [] {
      var n := |cs| - 1;
      LeafSums(cs[..n]);
      LeafCounts(cs[n]);
    }
  }

  /** A tree of depth 1 is its root and one leaf per listed move; it has as
      many leaves as moves, or the root alone when there is none. */
  lemma DepthOneCounts(rules: Rules, move: Option<Move>, prev: GameState)
    requires Sound(rules, prev) && (move.Some? ==> Playable(rules, prev, move.value))
    ensures var t := Tree(rules, move, prev, 1);
            ListReady(rules, t.state, t.state.currentPlayer)
            && var n := |ListMovesSpec(rules, t.state, t.state.currentPlayer)|;
               && CountNodes(t) == 1 + n
               && CountLeafNodes(t) == if n == 0 then 1 else n
  {
    var s := NodeState(rules, move, prev);
    NodeStateSound(rules, move, prev);
    var t := Tree(rules, move, prev, 1);
    ListedPlayable(rules, s);
    var moves := ListMovesSpec(rules, s, s.currentPlayer);
    assert t.children == Children(rules, s, moves, 0);
    forall i | 0 <= i < |moves| ensures t.children[i].children == [] {
      ChildrenAt(rules, s, moves, 0, i);
    }
    LeafSums(t.children);
  }
}
