/** A node of the Monte Carlo search tree (ai/mcts.ts). A node remembers
    the move that led to it, its parent, the moves not yet expanded, its
    children, and its win and visit tallies. */
module AiMcts {
  import opened Types
  import opened AiListMoves

  /** The position of a largest key, the last one among equal largest keys:
      what a stable ascending sort followed by taking its last element
      picks. */
  function ArgMaxLast(keys: seq<real>): (k: nat)
    requires keys != []
    ensures k < |keys|
    ensures forall j :: 0 <= j < |keys| ==> keys[j] <= keys[k]
    ensures forall j :: k < j < |keys| ==> keys[j] < keys[k]
  {
    if |keys| == 1 then 0
    else
      var k' := ArgMaxLast(keys[..|keys| - 1]);
      if keys[|keys| - 1] >= keys[k'] then |keys| - 1 else k'
  }

  /** The selection score of each child, given the parent's visit count. */
  function Scores(ns: seq<Node>, parentVisits: nat, ucb: (real, nat, nat) -> real): (r: seq<real>)
    reads ns
    ensures |r| == |ns|
    ensures forall i :: 0 <= i < |ns| ==> r[i] == ucb(ns[i].wins, ns[i].visits, parentVisits)
  {
    if ns == [] then []
    else Scores(ns[..|ns| - 1], parentVisits, ucb) + [ucb(ns[|ns| - 1].wins, ns[|ns| - 1].visits, parentVisits)]
  }

  class Node {
    const move: Option<Move>
    const parentNode: Node?
    const playerJustMoved: Player
    /** Distance from the root; only the proofs use it. */
    ghost const depth: nat
    /** The moves listed when the node was made; only the proofs use it. */
    ghost const initialMoves: seq<Move>

    var childNodes: seq<Node>
    var wins: real
    var visits: nat
    var untriedMoves: seq<Move>

    /** Every untried move and every child's move is one of the listed
        moves, and there are as many children and untried moves together
        as listed moves. */
    ghost predicate Tracked()
      reads this
    {
      && (forall i :: 0 <= i < |childNodes| ==> childNodes[i].move.Some? && childNodes[i].move.value in initialMoves)
      && (forall i :: 0 <= i < |untriedMoves| ==> untriedMoves[i] in initialMoves)
      && |childNodes| + |untriedMoves| == |initialMoves|
    }

    /** A fresh node: no children, no tallies, and the moves listMoves offers
        the player to move in `state` still untried. */
    constructor (rules: Rules, move: Option<Move>, parent: Node?, state: GameState)
      requires ListReady(rules, state, state.currentPlayer)
      ensures this.move == move && parentNode == parent
      ensures depth == if parent == null then 0 else parent.depth + 1
      ensures childNodes == [] && wins == 0.0 && visits == 0
      ensures untriedMoves == initialMoves == ListMovesSpec(rules, state, state.currentPlayer)
      ensures playerJustMoved == 1 - state.currentPlayer
      ensures Tracked()
    {
      var moves := ListMoves(rules, state, state.currentPlayer);
      this.move := move;
      parentNode := parent;
      depth := if parent == null then 0 else parent.depth + 1;
      initialMoves := moves;
      playerJustMoved := 1 - state.currentPlayer;
      childNodes := [];
      wins := 0.0;
      visits := 0;
      untriedMoves := moves;
    }

    /** select: the child with the largest score, the last one among equal
        largest scores; `null` when there is no child. */
    method Select(ucb: (real, nat, nat) -> real) returns (best: Node?)
      ensures childNodes == [] ==> best == null
      ensures childNodes != [] ==>
        (exists k :: 0 <= k < |childNodes| && best == childNodes[k]
          && (forall j :: 0 <= j < |childNodes| ==>
                ucb(childNodes[j].wins, childNodes[j].visits, visits) <= ucb(best.wins, best.visits, visits))
          && (forall j :: k < j < |childNodes| ==>
                ucb(childNodes[j].wins, childNodes[j].visits, visits) < ucb(best.wins, best.visits, visits)))
    {
      if childNodes == [] {
        return null;
      }
      var k := ArgMaxLast(Scores(childNodes, visits, ucb));
      best := childNodes[k];
    }

    /** addChild: the untried move at position `k` (the source finds it by
        reference) leaves `untriedMoves`, and a new child for it, built on
        `s`, goes at the end of `childNodes`. */
    method AddChild(rules: Rules, k: nat, s: GameState) returns (n: Node)
      requires k < |untriedMoves| && ListReady(rules, s, s.currentPlayer)
      requires Tracked()
      modifies this`untriedMoves, this`childNodes
      ensures fresh(n)
      ensures n.move == Some(old(untriedMoves[k])) && n.parentNode == this && n.depth == depth + 1
      ensures n.childNodes == [] && n.wins == 0.0 && n.visits == 0
      ensures n.untriedMoves == n.initialMoves == ListMovesSpec(rules, s, s.currentPlayer)
      ensures n.playerJustMoved == 1 - s.currentPlayer && n.Tracked()
      ensures untriedMoves == old(untriedMoves[..k] + untriedMoves[k + 1..])
      ensures childNodes == old(childNodes) + [n]
      ensures Tracked()
    {
      var m := untriedMoves[k];
      n := new Node(rules, Some(m), this, s);
      untriedMoves := untriedMoves[..k] + untriedMoves[k + 1..];
      childNodes := childNodes + [n];
    }

    /** update: one more visit, and the result added to the wins. */
    method Update(result: real)
      modifies this`visits, this`wins
      ensures visits == old(visits) + 1 && wins == old(wins) + result
    {
      visits := visits + 1;
      wins := wins + result;
    }
  }
}
