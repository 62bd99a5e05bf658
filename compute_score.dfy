/** A player's score on a board (ai/compute-score.ts): one point per owned
    tile plus one hundredth of the owned face values. */
module AiComputeScore {
  import opened Types

  /** The face value a card adds to its owner's score; an arrow adds none. */
  function FaceValue(v: CardValue): int
  {
    if v.Num? then v.n else 0
  }

  predicate OwnedBy(rules: Rules, c: Cell, player: Player)
  {
    c.Occupied? && c.cardId in rules.cardSpecs && rules.cardSpecs[c.cardId].player == player
  }

  /** Number of cells among `cells` holding a card of `player`. */
  function TilesOwned(rules: Rules, cells: seq<Cell>, player: Player): nat
  {
    if cells == [] then 0
    else TilesOwned(rules, cells[..|cells| - 1], player)
         + (if OwnedBy(rules, cells[|cells| - 1], player) then 1 else 0)
  }

  /** Sum of the face values of the cards of `player` among `cells`. */
  function ValueOwned(rules: Rules, cells: seq<Cell>, player: Player): int
  {
    if cells == [] then 0
    else ValueOwned(rules, cells[..|cells| - 1], player)
         + (var c := cells[|cells| - 1];
            if OwnedBy(rules, c, player) then FaceValue(rules.cardSpecs[c.cardId].value) else 0)
  }

  /** The score as the source computes it, `tilesOwned + valueOwned / 100`. */
  function ScoreOf(rules: Rules, cells: seq<Cell>, player: Player): real
  {
    TilesOwned(rules, cells, player) as real + ValueOwned(rules, cells, player) as real / 100.0
  }

  /** The score scaled by 100, an exact integer. */
  function ScoreKey(rules: Rules, cells: seq<Cell>, player: Player): int
  {
    100 * TilesOwned(rules, cells, player) + ValueOwned(rules, cells, player)
  }

  /** computeScore: a single pass over the board cells. The owner and face
      value of each card on the board are read from the card table
      `cardSpecs`, which every game carries; the precondition says every
      card on the board has an entry there. */
  method ComputeScore(rules: Rules, state: GameState, player: Player) returns (score: real)
    requires KnownCells(rules, state.board.cells)
    ensures score == ScoreOf(rules, state.board.cells, player)
    ensures score == ScoreKey(rules, state.board.cells, player) as real / 100.0
  {
    var cells := state.board.cells;
    var tilesOwned := 0;
    var valueOwned := 0;
    for i := 0 to |cells|
      invariant tilesOwned == TilesOwned(rules, cells[..i], player)
      invariant valueOwned == ValueOwned(rules, cells[..i], player)
    {
      assert cells[..i + 1][..i] == cells[..i];
      var cell := cells[i];
      if cell.Empty? {
        continue;
      }
      var card := rules.cardSpecs[cell.cardId];
      if card.player == player {
        tilesOwned := tilesOwned + 1;
        valueOwned := valueOwned + FaceValue(card.value);
      }
    }
    assert cells[..|cells|] == cells;
    score := tilesOwned as real + valueOwned as real / 100.0;
  }

  /** computeScore as the search worker runs it. The worker rebuilds a
      bare game base, which has no table of card objects, so the first
      occupied cell the pass reaches fails the lookup (`None`); a board
      without cards scores zero. */
  function WorkerScore(cells: seq<Cell>): (r: Option<real>)
    ensures r.None? <==> exists i :: 0 <= i < |cells| && cells[i].Occupied?
    ensures r.Some? ==> r.value == 0.0
  {
    if cells == [] then Some(0.0)
    else if cells[0].Occupied? then None
    else
      var rest := WorkerScore(cells[1..]);
      assert forall i :: 1 <= i < |cells| ==> cells[i] == cells[1..][i - 1];
      rest
  }

  /** Comparing two scores is comparing their integer keys. */
  lemma ScoreOrderIsKeyOrder(rules: Rules, a: seq<Cell>, pa: Player, b: seq<Cell>, pb: Player)
    ensures ScoreOf(rules, a, pa) < ScoreOf(rules, b, pb) <==> ScoreKey(rules, a, pa) < ScoreKey(rules, b, pb)
    ensures ScoreOf(rules, a, pa) == ScoreOf(rules, b, pb) <==> ScoreKey(rules, a, pa) == ScoreKey(rules, b, pb)
  {
  }

  /** A board without cards scores zero for both players. */
  lemma {:induction false} EmptyBoardScoresZero(rules: Rules, cells: seq<Cell>, player: Player)
    requires forall i :: 0 <= i < |cells| ==> cells[i] == Empty
    ensures TilesOwned(rules, cells, player) == 0 && ValueOwned(rules, cells, player) == 0
    ensures ScoreOf(rules, cells, player) == 0.0
  {
    if cells != [] {
      EmptyBoardScoresZero(rules, cells[..|cells| - 1], player);
    }
  }

  /** Only cells holding a card of `player` contribute: changing a cell that
      neither held nor receives such a card leaves the score as it was. */
  lemma {:induction false} OthersDoNotCount(rules: Rules, cells: seq<Cell>, i: nat, c: Cell, player: Player)
    requires i < |cells|
    requires !OwnedBy(rules, cells[i], player) && !OwnedBy(rules, c, player)
    ensures TilesOwned(rules, cells[i := c], player) == TilesOwned(rules, cells, player)
    ensures ValueOwned(rules, cells[i := c], player) == ValueOwned(rules, cells, player)
  {
    var n := |cells| - 1;
    var cells' := cells[i := c];
    assert cells'[..n] == if i < n then cells[..n][i := c] else cells[..n];
    if i < n {
      OthersDoNotCount(rules, cells[..n], i, c, player);
    }
  }

  /** The tile count never exceeds the number of cells. */
  lemma {:induction false} TilesAtMostCells(rules: Rules, cells: seq<Cell>, player: Player)
    ensures TilesOwned(rules, cells, player) <= |cells|
  {
    if cells != [] {
      TilesAtMostCells(rules, cells[..|cells| - 1], player);
    }
  }
}
