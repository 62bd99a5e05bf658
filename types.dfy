/** The value types of the game: cards, cells, decks, the board, the whole
    game state, moves, and the static rules a game is played under. */
module Types {

  datatype Option<+T> = None | Some(value: T)

  /** Card ids are opaque, distinct tokens. */
  type CardId = nat

  /** The game is fixed at two seats. */
  type Player = p: int | 0 <= p < 2

  datatype Dir = L | R | U | D

  /** A card is either a magnitude or a movement instruction. */
  datatype CardValue = Num(n: int) | Arrow(dir: Dir)

  datatype CardSpec = CardSpec(player: Player, value: CardValue)

  /** A board or deck slot; `Empty` is a cell whose card id is unset. */
  datatype Cell = Empty | Occupied(cardId: CardId)

  datatype Board = Board(cells: seq<Cell>, trashedCardIds: seq<CardId>)

  datatype Deck = Deck(cells: seq<Cell>)

  datatype GameState = GameState(currentPlayer: Player, board: Board, decks: seq<Deck>)

  datatype Placement = Placement(col: int, row: int)

  /** A move places a card from a deck on a cell, or passes. */
  datatype Move =
    | Place(player: Player, cardId: CardId, placement: Placement)
    | Pass(player: Player)

  datatype ScoredMove = ScoredMove(move: Move, score: int)

  /** The static part of a game: board dimensions, clearing threshold and
      the table of every card's owner and value. */
  datatype Rules = Rules(numCols: nat, numRows: nat, maxSum: int, cardSpecs: map<CardId, CardSpec>)

  predicate InBounds(rules: Rules, col: int, row: int)
  {
    0 <= col < rules.numCols && 0 <= row < rules.numRows
  }

  /** A state fits the rules: two decks and one cell per board position. */
  predicate Shaped(rules: Rules, s: GameState)
  {
    |s.decks| == 2 && |s.board.cells| == rules.numCols * rules.numRows
  }

  predicate KnownCells(rules: Rules, cells: seq<Cell>)
  {
    forall i :: 0 <= i < |cells| && cells[i].Occupied? ==> cells[i].cardId in rules.cardSpecs
  }

  /** Every card on the board or in a deck has an entry in the card table. */
  predicate WellFormed(rules: Rules, s: GameState)
  {
    && Shaped(rules, s)
    && KnownCells(rules, s.board.cells)
    && KnownCells(rules, s.decks[0].cells)
    && KnownCells(rules, s.decks[1].cells)
  }

  predicate DeckHolds(deck: Deck, id: CardId)
  {
    Occupied(id) in deck.cells
  }
}
