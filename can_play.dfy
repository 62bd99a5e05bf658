/** The legality test of a move (rules/can-play.ts), read on the board of
    the state it is given. */
module RulesCanPlay {
  import opened Types
  import opened GameBase
  import RulesPlaceCard

  /** What canPlay needs: the board of the rules' shape and, for a card
      move, a placement on the board and a card table entry. */
  predicate CanPlayReady(rules: Rules, prev: GameState, move: Move)
  {
    && |prev.board.cells| == rules.numCols * rules.numRows
    && (move.Place? ==> InBounds(rules, move.placement.col, move.placement.row) && move.cardId in rules.cardSpecs)
  }

  /** canPlay. A pass is always playable. A number card may not cover a card
      of the other player nor a lower card of its own player. An arrow needs
      a card under it and a neighbour cell, in its direction, on the board. */
  function CanPlay(rules: Rules, prev: GameState, move: Move): (ok: bool)
    requires CanPlayReady(rules, prev, move)
    ensures move.Pass? ==> ok
  {
    if move.Pass? then true
    else
      var card := rules.cardSpecs[move.cardId];
      var under := BoardGetCard(rules, prev.board, move.placement.col, move.placement.row);
      match card.value
      case Num(v) =>
        if under.Some? then
          var u := rules.cardSpecs[under.value];
          if u.player != card.player then false
          else if u.value.Num? && u.value.n < v then false
          else true
        else true
      case Arrow(d) =>
        if under.None? then false
        else
          var (dcol, drow) := RulesPlaceCard.DirToColRow(RulesPlaceCard.DirName(d)).value;
          var (newCol, newRow) := (move.placement.col + dcol, move.placement.row + drow);
          if newCol < 0 then false
          else if newCol >= rules.numCols then false
          else if newRow < 0 then false
          else if newRow >= rules.numRows then false
          else true
  }

  /** canPlay as written. place-card.ts exports only
      `placeCard`, so the `dirToColRow` that can-play.ts imports from it is
      undefined, and the call in the arrow-on-card branch fails (`None`).
      Every other branch gives canPlay's answer. */
  function CanPlayAsWritten(rules: Rules, prev: GameState, move: Move): (r: Option<bool>)
    requires CanPlayReady(rules, prev, move)
    ensures r.None? <==> && move.Place? && rules.cardSpecs[move.cardId].value.Arrow?
                         && BoardGetCard(rules, prev.board, move.placement.col, move.placement.row).Some?
    ensures r.Some? ==> r.value == CanPlay(rules, prev, move)
  {
    if move.Pass? then Some(true)
    else
      var card := rules.cardSpecs[move.cardId];
      var under := BoardGetCard(rules, prev.board, move.placement.col, move.placement.row);
      match card.value
      case Num(v) => Some(CanPlay(rules, prev, move))
      case Arrow(d) => if under.None? then Some(false) else None
  }

  /** A number card on an empty cell is playable. */
  lemma NumericOnEmpty(rules: Rules, prev: GameState, move: Move)
    requires CanPlayReady(rules, prev, move) && move.Place?
    requires rules.cardSpecs[move.cardId].value.Num?
    requires BoardGetCell(rules, prev.board, move.placement.col, move.placement.row) == Empty
    ensures CanPlay(rules, prev, move)
  {
  }

  /** A number card on a known card is playable exactly when that card is
      its own player's and worth at least as much (an arrow counts as not
      less). */
  lemma NumericOnCard(rules: Rules, prev: GameState, move: Move)
    requires CanPlayReady(rules, prev, move) && move.Place?
    requires rules.cardSpecs[move.cardId].value.Num?
    requires BoardGetCard(rules, prev.board, move.placement.col, move.placement.row).Some?
    ensures var u := rules.cardSpecs[BoardGetCard(rules, prev.board, move.placement.col, move.placement.row).value];
            var card := rules.cardSpecs[move.cardId];
            CanPlay(rules, prev, move)
            <==> u.player == card.player && !(u.value.Num? && u.value.n < card.value.n)
  {
  }

  /** An arrow on a cell without a known card is not playable. */
  lemma ArrowOnEmptyRefused(rules: Rules, prev: GameState, move: Move)
    requires CanPlayReady(rules, prev, move) && move.Place?
    requires rules.cardSpecs[move.cardId].value.Arrow?
    requires BoardGetCard(rules, prev.board, move.placement.col, move.placement.row).None?
    ensures !CanPlay(rules, prev, move)
  {
  }

  /** An arrow on a card is playable exactly when the cell it pushes to is
      on the board. */
  lemma ArrowOnCard(rules: Rules, prev: GameState, move: Move)
    requires CanPlayReady(rules, prev, move) && move.Place?
    requires rules.cardSpecs[move.cardId].value.Arrow?
    requires BoardGetCard(rules, prev.board, move.placement.col, move.placement.row).Some?
    ensures var to := RulesPlaceCard.Pushed(move.placement, rules.cardSpecs[move.cardId].value.dir);
            CanPlay(rules, prev, move) <==> InBounds(rules, to.col, to.row)
  {
  }

  /** canPlay and placeCard agree: for a card in the current player's deck,
      and with placeCard reading the state's own board, the move is legal
      exactly when placeCard takes it. */
  lemma CanPlayIffPlaced(rules: Rules, prev: GameState, move: Move)
    requires RulesPlaceCard.PlaceReady(rules, prev.board, prev, move)
    requires move.Place? ==> DeckHolds(prev.decks[prev.currentPlayer], move.cardId)
    ensures CanPlayReady(rules, prev, move)
    ensures CanPlay(rules, prev, move) <==> RulesPlaceCard.PlaceSpec(rules, prev.board, prev, move).accepted
  {
  }
}
