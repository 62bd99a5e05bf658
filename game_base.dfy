/** The copy-on-write helpers every rule is written with (game-base.ts):
    cell addressing, line sums, deck and board transforms, the turn flip,
    the game result, and the initial deal. */
module GameBase {
  import opened Types
  import Transforms
  import AiComputeScore

  // ---------------------------------------------------------------- arithmetic

  lemma MulLe(a: int, b: int, n: nat)
    requires a <= b
    ensures a * n <= b * n
  {
  }

  // ---------------------------------------------------------------- addressing

  /** The index of the first cell of `row`: rows are laid out one after
      another, `numCols` cells each. */
  function RowStart(rules: Rules, row: nat): (i: nat)
  {
    if row == 0 then 0 else RowStart(rules, row - 1) + rules.numCols
  }

  lemma {:induction false} RowStartIsProduct(rules: Rules, row: nat)
    ensures RowStart(rules, row) == row * rules.numCols
  {
    if row > 0 {
      RowStartIsProduct(rules, row - 1);
    }
  }

  /** Cells are stored row after row: `col + row * numCols`. */
  function CellIndex(rules: Rules, col: int, row: int): (i: int)
    requires InBounds(rules, col, row)
    ensures 0 <= i < rules.numCols * rules.numRows
  {
    RowStartIsProduct(rules, row);
    MulLe(row, rules.numRows - 1, rules.numCols);
    col + RowStart(rules, row)
  }

  /** Distinct positions have distinct cell indices. */
  lemma CellIndexInjective(rules: Rules, c1: int, r1: int, c2: int, r2: int)
    requires InBounds(rules, c1, r1) && InBounds(rules, c2, r2)
    ensures CellIndex(rules, c1, r1) == CellIndex(rules, c2, r2) <==> c1 == c2 && r1 == r2
  {
    RowStartIsProduct(rules, r1);
    RowStartIsProduct(rules, r2);
    if r1 < r2 {
      MulLe(r1 + 1, r2, rules.numCols);
    } else if r2 < r1 {
      MulLe(r2 + 1, r1, rules.numCols);
    }
  }

  /** The position a cell index addresses: every index is some position's. */
  function PositionOf(rules: Rules, k: int): (p: (int, int))
    requires 0 <= k < rules.numCols * rules.numRows
    ensures InBounds(rules, p.0, p.1) && CellIndex(rules, p.0, p.1) == k
  {
    var nc := rules.numCols;
    assert nc > 0;
    var row := k / nc;
    if row >= rules.numRows then
      MulLe(rules.numRows, row, nc);
      assert false; (0, 0)
    else
      RowStartIsProduct(rules, row);
      (k % nc, row)
  }

  function BoardGetCell(rules: Rules, board: Board, col: int, row: int): Cell
    requires InBounds(rules, col, row) && |board.cells| == rules.numCols * rules.numRows
  {
    board.cells[CellIndex(rules, col, row)]
  }

  /** boardGetCell reaches every cell of the board: each one is the cell
      read at some in-bounds position (at only one, by `CellIndexInjective`). */
  lemma BoardGetCellCovers(rules: Rules, board: Board, k: int)
    requires |board.cells| == rules.numCols * rules.numRows && 0 <= k < |board.cells|
    ensures exists col, row :: InBounds(rules, col, row) && CellIndex(rules, col, row) == k
                               && BoardGetCell(rules, board, col, row) == board.cells[k]
  {
    var p := PositionOf(rules, k);
    assert BoardGetCell(rules, board, p.0, p.1) == board.cells[k];
  }

  /** The card on a cell, when the cell holds an id the card table knows
      (an unknown id looks up as nothing). */
  function BoardGetCard(rules: Rules, board: Board, col: int, row: int): (r: Option<CardId>)
    requires InBounds(rules, col, row) && |board.cells| == rules.numCols * rules.numRows
    ensures r.Some? ==> BoardGetCell(rules, board, col, row) == Occupied(r.value) && r.value in rules.cardSpecs
    ensures r.None? ==> BoardGetCell(rules, board, col, row).Empty?
                        || BoardGetCell(rules, board, col, row).cardId !in rules.cardSpecs
  {
    var cell := BoardGetCell(rules, board, col, row);
    if cell.Occupied? && cell.cardId in rules.cardSpecs then Some(cell.cardId) else None
  }

  /** The numeric value on a cell; empty cells and arrows count zero. */
  function BoardGetCardValue(rules: Rules, board: Board, col: int, row: int): (v: int)
    requires InBounds(rules, col, row) && |board.cells| == rules.numCols * rules.numRows
    ensures BoardGetCell(rules, board, col, row).Empty? ==> v == 0
    ensures v != 0 ==> var cell := BoardGetCell(rules, board, col, row);
                       cell.Occupied? && cell.cardId in rules.cardSpecs && rules.cardSpecs[cell.cardId].value == Num(v)
    ensures var card := BoardGetCard(rules, board, col, row);
            card.Some? && rules.cardSpecs[card.value].value.Num? ==> v == rules.cardSpecs[card.value].value.n
  {
    var card := BoardGetCard(rules, board, col, row);
    if card.Some? && rules.cardSpecs[card.value].value.Num? then rules.cardSpecs[card.value].value.n else 0
  }

  // ---------------------------------------------------------------- line sums

  /** Sum of the values at columns `0 .. n-1` of `row`. */
  function RowSumUpTo(rules: Rules, board: Board, row: int, n: nat): int
    requires 0 <= row < rules.numRows && n <= rules.numCols
    requires |board.cells| == rules.numCols * rules.numRows
  {
    if n == 0 then 0 else RowSumUpTo(rules, board, row, n - 1) + BoardGetCardValue(rules, board, n - 1, row)
  }

  /** Sum of the values at rows `0 .. n-1` of `col`. */
  function ColSumUpTo(rules: Rules, board: Board, col: int, n: nat): int
    requires 0 <= col < rules.numCols && n <= rules.numRows
    requires |board.cells| == rules.numCols * rules.numRows
  {
    if n == 0 then 0 else ColSumUpTo(rules, board, col, n - 1) + BoardGetCardValue(rules, board, col, n - 1)
  }

  function RowSum(rules: Rules, board: Board, row: int): int
    requires 0 <= row < rules.numRows && |board.cells| == rules.numCols * rules.numRows
  {
    RowSumUpTo(rules, board, row, rules.numCols)
  }

  function ColSum(rules: Rules, board: Board, col: int): int
    requires 0 <= col < rules.numCols && |board.cells| == rules.numCols * rules.numRows
  {
    ColSumUpTo(rules, board, col, rules.numRows)
  }

  method BoardSumRow(rules: Rules, board: Board, row: int) returns (sum: int)
    requires 0 <= row < rules.numRows && |board.cells| == rules.numCols * rules.numRows
    ensures sum == RowSum(rules, board, row)
  {
    sum := 0;
    for col := 0 to rules.numCols
      invariant sum == RowSumUpTo(rules, board, row, col)
    {
      sum := sum + BoardGetCardValue(rules, board, col, row);
    }
  }

  method BoardSumCol(rules: Rules, board: Board, col: int) returns (sum: int)
    requires 0 <= col < rules.numCols && |board.cells| == rules.numCols * rules.numRows
    ensures sum == ColSum(rules, board, col)
  {
    sum := 0;
    for row := 0 to rules.numRows
      invariant sum == ColSumUpTo(rules, board, col, row)
    {
      sum := sum + BoardGetCardValue(rules, board, col, row);
    }
  }

  /** A line sum depends only on the cells of that line. */
  lemma {:induction false} RowSumUpToFrame(rules: Rules, b1: Board, b2: Board, row: int, n: nat)
    requires 0 <= row < rules.numRows && n <= rules.numCols
    requires |b1.cells| == |b2.cells| == rules.numCols * rules.numRows
    requires forall c :: 0 <= c < n ==> BoardGetCell(rules, b1, c, row) == BoardGetCell(rules, b2, c, row)
    ensures RowSumUpTo(rules, b1, row, n) == RowSumUpTo(rules, b2, row, n)
  {
    if n > 0 {
      RowSumUpToFrame(rules, b1, b2, row, n - 1);
    }
  }

  lemma {:induction false} ColSumUpToFrame(rules: Rules, b1: Board, b2: Board, col: int, n: nat)
    requires 0 <= col < rules.numCols && n <= rules.numRows
    requires |b1.cells| == |b2.cells| == rules.numCols * rules.numRows
    requires forall r :: 0 <= r < n ==> BoardGetCell(rules, b1, col, r) == BoardGetCell(rules, b2, col, r)
    ensures ColSumUpTo(rules, b1, col, n) == ColSumUpTo(rules, b2, col, n)
  {
    if n > 0 {
      ColSumUpToFrame(rules, b1, b2, col, n - 1);
    }
  }

  /** A line without cards sums to zero. */
  lemma {:induction false} EmptyRowSumsZero(rules: Rules, board: Board, row: int, n: nat)
    requires 0 <= row < rules.numRows && n <= rules.numCols
    requires |board.cells| == rules.numCols * rules.numRows
    requires forall c :: 0 <= c < n ==> BoardGetCell(rules, board, c, row) == Empty
    ensures RowSumUpTo(rules, board, row, n) == 0
  {
    if n > 0 {
      EmptyRowSumsZero(rules, board, row, n - 1);
    }
  }

  lemma {:induction false} EmptyColSumsZero(rules: Rules, board: Board, col: int, n: nat)
    requires 0 <= col < rules.numCols && n <= rules.numRows
    requires |board.cells| == rules.numCols * rules.numRows
    requires forall r :: 0 <= r < n ==> BoardGetCell(rules, board, col, r) == Empty
    ensures ColSumUpTo(rules, board, col, n) == 0
  {
    if n > 0 {
      EmptyColSumsZero(rules, board, col, n - 1);
    }
  }

  // ---------------------------------------------------------------- state transforms

  /** Replace one deck by a function of itself. */
  function StateTransformDeck(s: GameState, player: Player, f: Deck -> Deck): (r: GameState)
    requires |s.decks| == 2
    ensures |r.decks| == 2 && r.decks[player] == f(s.decks[player])
    ensures r.decks[1 - player] == s.decks[1 - player]
    ensures r.board == s.board && r.currentPlayer == s.currentPlayer
  {
    s.(decks := s.decks[player := f(s.decks[player])])
  }

  /** Replace the board by a function of itself. */
  function StateTransformBoard(s: GameState, f: Board --> Board): (r: GameState)
    requires f.requires(s.board)
    ensures r.board == f(s.board)
    ensures r.decks == s.decks && r.currentPlayer == s.currentPlayer
  {
    s.(board := f(s.board))
  }

  function CellsSet(cells: seq<Cell>, idx: nat, cell: Cell): (r: seq<Cell>)
    requires idx < |cells|
    ensures |r| == |cells| && r[idx] == cell
    ensures forall i :: 0 <= i < |cells| && i != idx ==> r[i] == cells[i]
  {
    cells[idx := cell]
  }

  /** The cells with the one at `idx` replaced by `f` of it. */
  function CellsTransform(cells: seq<Cell>, idx: nat, f: Cell -> Cell): (r: seq<Cell>)
    requires idx < |cells|
    ensures |r| == |cells| && r[idx] == f(cells[idx])
    ensures forall i :: 0 <= i < |cells| && i != idx ==> r[i] == cells[i]
  {
    CellsSet(cells, idx, f(cells[idx]))
  }

  /** Transforming a cell by a constant function sets it to that constant:
      the form boardSetCard uses. */
  lemma CellsTransformConst(cells: seq<Cell>, idx: nat, cell: Cell)
    requires idx < |cells|
    ensures CellsTransform(cells, idx, _ => cell) == CellsSet(cells, idx, cell)
  {
  }

  /** The cells with every occurrence of `cardId` emptied. */
  function CellsWithout(cells: seq<Cell>, cardId: CardId): seq<Cell>
  {
    seq(|cells|, i requires 0 <= i < |cells| => if cells[i] == Occupied(cardId) then Empty else cells[i])
  }

  /** cellsRemoveCard: a copy of the cells with every slot holding `cardId`
      emptied and every other slot as it was. */
  method CellsRemoveCard(prevCells: seq<Cell>, cardId: CardId) returns (cells: seq<Cell>)
    ensures |cells| == |prevCells|
    ensures forall i :: 0 <= i < |cells| ==> cells[i] == (if prevCells[i] == Occupied(cardId) then Empty else prevCells[i])
    ensures cells == CellsWithout(prevCells, cardId)
    ensures Occupied(cardId) !in cells
  {
    cells := prevCells;
    for i := 0 to |cells|
      invariant |cells| == |prevCells|
      invariant forall k :: 0 <= k < i ==> cells[k] == (if prevCells[k] == Occupied(cardId) then Empty else prevCells[k])
      invariant forall k :: i <= k < |cells| ==> cells[k] == prevCells[k]
    {
      if cells[i] == Occupied(cardId) {
        cells := cells[i := Empty];
      }
    }
  }

  method DeckRemoveCard(deck: Deck, cardId: CardId) returns (r: Deck)
    ensures r == Deck(CellsWithout(deck.cells, cardId))
  {
    var cells := CellsRemoveCard(deck.cells, cardId);
    r := deck.(cells := cells);
  }

  /** The first empty slot, if any. */
  function FirstEmpty(cells: seq<Cell>): (r: Option<nat>)
    ensures r.Some? ==> r.value < |cells| && cells[r.value] == Empty
                        && forall j :: 0 <= j < r.value ==> cells[j] != Empty
    ensures r.None? ==> Empty !in cells
  {
    if cells == [] then None
    else if cells[0] == Empty then Some(0)
    else match FirstEmpty(cells[1..])
         case None => None
         case Some(k) => Some(k + 1)
  }

  /** The deck with `cardId` written into its first empty slot; a full deck
      is left as it is. */
  function DeckWithCard(deck: Deck, cardId: CardId): Deck
  {
    match FirstEmpty(deck.cells)
    case None => deck
    case Some(k) => Deck(deck.cells[k := Occupied(cardId)])
  }

  /** deckAddCard: scan for the first slot without a card, fill it, stop. */
  method DeckAddCard(prevDeck: Deck, cardId: CardId) returns (deck: Deck)
    ensures deck == DeckWithCard(prevDeck, cardId)
    ensures |deck.cells| == |prevDeck.cells|
    ensures Empty in prevDeck.cells ==> DeckHolds(deck, cardId)
  {
    deck := prevDeck;
    var i := 0;
    while i < |deck.cells|
      invariant 0 <= i <= |deck.cells|
      invariant deck == prevDeck
      invariant forall j :: 0 <= j < i ==> prevDeck.cells[j] != Empty
    {
      if deck.cells[i].Empty? {
        deck := deck.(cells := deck.cells[i := Occupied(cardId)]);
        assert deck.cells[i] == Occupied(cardId);
        assert FirstEmpty(prevDeck.cells) == Some(i);
        return;
      }
      i := i + 1;
    }
    assert FirstEmpty(prevDeck.cells).None?;
  }

  /** boardTrashCard: `cardId` appended to the trash, the cells untouched. */
  function BoardTrashCard(prevBoard: Board, cardId: CardId): (board: Board)
    ensures board.cells == prevBoard.cells
    ensures board.trashedCardIds == prevBoard.trashedCardIds + [cardId]
  {
    prevBoard.(trashedCardIds := prevBoard.trashedCardIds + [cardId])
  }

  /** boardSetCard: one cell set to `cardId`, or emptied when there is none. */
  function BoardSetCard(rules: Rules, prevBoard: Board, placement: Placement, cardId: Option<CardId>): (board: Board)
    requires InBounds(rules, placement.col, placement.row)
    requires |prevBoard.cells| == rules.numCols * rules.numRows
    ensures |board.cells| == |prevBoard.cells| && board.trashedCardIds == prevBoard.trashedCardIds
    ensures board.cells[CellIndex(rules, placement.col, placement.row)]
            == (if cardId.Some? then Occupied(cardId.value) else Empty)
    ensures forall i :: 0 <= i < |board.cells| && i != CellIndex(rules, placement.col, placement.row)
                        ==> board.cells[i] == prevBoard.cells[i]
  {
    var idx := CellIndex(rules, placement.col, placement.row);
    // cellsTransform with a constant function (CellsTransformConst)
    prevBoard.(cells := CellsSet(prevBoard.cells, idx, if cardId.Some? then Occupied(cardId.value) else Empty))
  }

  /** `BoardSetCard` is a single-index update of the cell sequence. */
  lemma BoardSetCardCells(rules: Rules, b: Board, p: Placement, id: Option<CardId>)
    requires InBounds(rules, p.col, p.row)
    requires |b.cells| == rules.numCols * rules.numRows
    ensures BoardSetCard(rules, b, p, id).cells
            == b.cells[CellIndex(rules, p.col, p.row) := if id.Some? then Occupied(id.value) else Empty]
  {
  }

  /** Reading a cell after `BoardSetCard` sees the new content there and the
      old content everywhere else. */
  lemma BoardSetCardGet(rules: Rules, b: Board, p: Placement, id: Option<CardId>, col: int, row: int)
    requires InBounds(rules, p.col, p.row) && InBounds(rules, col, row)
    requires |b.cells| == rules.numCols * rules.numRows
    ensures BoardGetCell(rules, BoardSetCard(rules, b, p, id), col, row)
            == if col == p.col && row == p.row then (if id.Some? then Occupied(id.value) else Empty)
               else BoardGetCell(rules, b, col, row)
  {
    CellIndexInjective(rules, col, row, p.col, p.row);
  }

  function StateAdvanceTurn(state: GameState): (r: GameState)
    ensures r.currentPlayer == 1 - state.currentPlayer
    ensures r.board == state.board && r.decks == state.decks
  {
    state.(currentPlayer := 1 - state.currentPlayer)
  }

  lemma AdvanceTurnTwice(state: GameState)
    ensures StateAdvanceTurn(StateAdvanceTurn(state)) == state
  {
  }

  function PassMove(state: GameState): (m: ScoredMove)
    ensures m.move == Pass(state.currentPlayer) && m.score == 0
  {
    ScoredMove(Pass(state.currentPlayer), 0)
  }

  // ---------------------------------------------------------------- result

  /** 1 for a win, 0 for a loss, 0.5 for a draw. */
  function Outcome(ours: real, theirs: real): real
  {
    if ours > theirs then 1.0 else if ours < theirs then 0.0 else 0.5
  }

  /** The outcome for `player` of the scores on the board. */
  function ResultOf(rules: Rules, state: GameState, player: Player): real
  {
    Outcome(AiComputeScore.ScoreOf(rules, state.board.cells, player),
            AiComputeScore.ScoreOf(rules, state.board.cells, 1 - player))
  }

  /** stateGetResult: compute both scores, then compare. */
  method StateGetResult(rules: Rules, state: GameState, player: Player) returns (result: real)
    requires KnownCells(rules, state.board.cells)
    ensures result == ResultOf(rules, state, player)
    ensures result == 1.0 <==> AiComputeScore.ScoreKey(rules, state.board.cells, player)
                                > AiComputeScore.ScoreKey(rules, state.board.cells, 1 - player)
    ensures result == 0.0 <==> AiComputeScore.ScoreKey(rules, state.board.cells, player)
                                < AiComputeScore.ScoreKey(rules, state.board.cells, 1 - player)
    ensures result == 0.5 <==> AiComputeScore.ScoreKey(rules, state.board.cells, player)
                                == AiComputeScore.ScoreKey(rules, state.board.cells, 1 - player)
  {
    var scores := [0.0, 0.0];
    for q := 0 to 2
      invariant |scores| == 2
      invariant forall k :: 0 <= k < q ==> scores[k] == AiComputeScore.ScoreOf(rules, state.board.cells, k)
    {
      var s := AiComputeScore.ComputeScore(rules, state, q);
      scores := scores[q := s];
    }
    var ourScore := scores[player];
    var theirScore := scores[1 - player];
    AiComputeScore.ScoreOrderIsKeyOrder(rules, state.board.cells, player, state.board.cells, 1 - player);
    AiComputeScore.ScoreOrderIsKeyOrder(rules, state.board.cells, 1 - player, state.board.cells, player);
    if ourScore > theirScore {
      return 1.0;
    }
    if ourScore < theirScore {
      return 0.0;
    }
    return 0.5;
  }

  /** stateGetResult as the search worker runs it: both scores come from
      `WorkerScore`, so the result fails exactly when the board holds a
      card, and is otherwise the draw an empty board gives. */
  function WorkerStateGetResult(rules: Rules, state: GameState, player: Player): (r: Option<real>)
    ensures r.None? <==> exists i :: 0 <= i < |state.board.cells| && state.board.cells[i].Occupied?
    ensures r.Some? ==> r.value == 0.5 && r.value == ResultOf(rules, state, player)
  {
    var first := AiComputeScore.WorkerScore(state.board.cells);
    if first.None? then None
    else
      var second := AiComputeScore.WorkerScore(state.board.cells);
      if second.None? then None
      else
        var scores := [first.value, second.value];
        AiComputeScore.EmptyBoardScoresZero(rules, state.board.cells, player);
        AiComputeScore.EmptyBoardScoresZero(rules, state.board.cells, 1 - player);
        Some(Outcome(scores[player], scores[1 - player]))
  }

  const WorkerRules := Rules(1, 1, 10, map[1 := CardSpec(0, Num(3))])
  const WorkerFinal := GameState(1, Board([Occupied(1)], []), [Deck([]), Deck([])])

  /** A playout that ends with one card of player 0 on the board: with the
      card table the result for player 0 is a win, while the worker's
      search fails there. */
  lemma WorkerResultFailsOnCard()
    ensures KnownCells(WorkerRules, WorkerFinal.board.cells)
    ensures ResultOf(WorkerRules, WorkerFinal, 0) == 1.0
    ensures WorkerStateGetResult(WorkerRules, WorkerFinal, 0).None?
  {
    assert WorkerFinal.board.cells[..0] == [];
    assert WorkerFinal.board.cells[0].Occupied?;
  }

  /** The two players' results always add up to one. */
  lemma ResultsAreComplementary(rules: Rules, state: GameState, player: Player)
    ensures ResultOf(rules, state, player) + ResultOf(rules, state, 1 - player) == 1.0
  {
  }

  // ---------------------------------------------------------------- initial deal

  datatype PlayerKind = Human | AI
  datatype PlayerInfo = PlayerInfo(name: string, kind: PlayerKind)
  datatype Settings = Settings(numCols: nat, numRows: nat, maxSum: int, players: seq<PlayerInfo>)

  /** Each player's deck composition. */
  const DeckContents: seq<CardValue> := [Num(1), Num(2), Num(3), Num(4), Num(5), Num(6), Num(7), Arrow(U), Arrow(D)]

  predicate Distinct(ids: seq<CardId>)
  {
    forall i, j :: 0 <= i < j < |ids| ==> ids[i] != ids[j]
  }

  /** Deck cells holding the given ids, in order. */
  function DealtCells(ids: seq<CardId>): (cells: seq<Cell>)
    ensures |cells| == |ids| && forall k :: 0 <= k < |ids| ==> cells[k] == Occupied(ids[k])
  {
    seq(|ids|, k requires 0 <= k < |ids| => Occupied(ids[k]))
  }

  /** The inner loop of fromSettings: one card per entry of
      `DeckContents`, registered in the card table and pushed on the deck. */
  method DealDeck(player: Player, deckIds: seq<CardId>, prevSpecs: map<CardId, CardSpec>)
    returns (specs: map<CardId, CardSpec>, cells: seq<Cell>)
    requires |deckIds| == |DeckContents| && Distinct(deckIds)
    requires forall x :: x in deckIds ==> x !in prevSpecs
    ensures cells == DealtCells(deckIds)
    ensures specs.Keys == prevSpecs.Keys + (set x | x in deckIds)
    ensures forall x :: x in prevSpecs ==> specs[x] == prevSpecs[x]
    ensures forall k :: 0 <= k < |deckIds| ==> specs[deckIds[k]] == CardSpec(player, DeckContents[k])
  {
    specs, cells := prevSpecs, [];
    for i := 0 to |DeckContents|
      invariant cells == DealtCells(deckIds[..i])
      invariant specs.Keys == prevSpecs.Keys + (set x | x in deckIds[..i])
      invariant forall x :: x in prevSpecs ==> specs[x] == prevSpecs[x]
      invariant forall k :: 0 <= k < i ==> specs[deckIds[k]] == CardSpec(player, DeckContents[k])
    {
      var id := deckIds[i];
      assert deckIds[..i + 1] == deckIds[..i] + [id];
      MembersOfPush(deckIds[..i], id);
      assert forall k :: 0 <= k < i ==> deckIds[k] != id;
      specs := specs[id := CardSpec(player, DeckContents[i])];
      cells := cells + [Occupied(id)];
    }
    assert deckIds[..|DeckContents|] == deckIds;
  }

  lemma MembersOfPush(a: seq<CardId>, x: CardId)
    ensures (set y | y in a + [x]) == (set y | y in a) + {x}
  {
  }

  lemma MembersOfConcat(a: seq<CardId>, b: seq<CardId>)
    ensures (set x | x in a + b) == (set x | x in a) + (set x | x in b)
  {
  }

  /** Both halves of a duplicate-free id list are duplicate-free and share no id. */
  lemma DistinctHalves(ids: seq<CardId>, n: nat)
    requires n <= |ids| && Distinct(ids)
    ensures Distinct(ids[..n]) && Distinct(ids[n..])
    ensures forall x :: x in ids[n..] ==> x !in ids[..n]
  {
    var first, second := ids[..n], ids[n..];
    forall a, b | 0 <= a < b < |first| ensures first[a] != first[b] {
      assert first[a] == ids[a] && first[b] == ids[b];
    }
    forall a, b | 0 <= a < b < |second| ensures second[a] != second[b] {
      assert second[a] == ids[n + a] && second[b] == ids[n + b];
    }
    forall x | x in second ensures x !in first {
      var b :| 0 <= b < |second| && second[b] == x;
      assert second[b] == ids[n + b];
      forall a | 0 <= a < |first| ensures first[a] != x {
        assert first[a] == ids[a];
      }
    }
  }

  /** The outer loop of fromSettings: deal each player's deck in turn. */
  method DealDecks(first: seq<CardId>, second: seq<CardId>) returns (specs: map<CardId, CardSpec>, decks: seq<Deck>)
    requires |first| == |second| == |DeckContents|
    requires Distinct(first) && Distinct(second)
    requires forall x :: x in second ==> x !in first
    ensures specs.Keys == (set x | x in first + second)
    ensures forall k :: 0 <= k < |DeckContents| ==> specs[first[k]] == CardSpec(0, DeckContents[k])
    ensures forall k :: 0 <= k < |DeckContents| ==> specs[second[k]] == CardSpec(1, DeckContents[k])
    ensures decks == [Deck(DealtCells(first)), Deck(DealtCells(second))]
  {
    var cells0, cells1, specs0;
    specs0, cells0 := DealDeck(0, first, map[]);
    assert specs0.Keys == (set x | x in first);
    specs, cells1 := DealDeck(1, second, specs0);
    forall k | 0 <= k < |DeckContents| ensures specs[first[k]] == CardSpec(0, DeckContents[k]) {
      assert first[k] in specs0;
    }
    decks := [Deck(cells0), Deck(cells1)];
    MembersOfConcat(first, second);
  }

  /** fromSettings: an empty board, player 0 to move, and for each player a
      deck dealt from `DeckContents` in order. The fresh ids the source draws
      from a uuid generator are the parameter `ids`: the first
      `|DeckContents|` go to player 0, the rest to player 1. A player count
      other than two is refused. */
  method FromSettings(settings: Settings, ids: seq<CardId>) returns (r: Option<(Rules, GameState)>)
    requires |ids| == 2 * |DeckContents| && Distinct(ids)
    ensures r.None? <==> |settings.players| != 2
    ensures r.Some? ==> r.value.0.numCols == settings.numCols && r.value.0.numRows == settings.numRows
    ensures r.Some? ==> r.value.0.maxSum == settings.maxSum
    ensures r.Some? ==> r.value.0.cardSpecs.Keys == (set x | x in ids)
    ensures r.Some? ==> forall k :: 0 <= k < |DeckContents| ==>
              r.value.0.cardSpecs[ids[..|DeckContents|][k]] == CardSpec(0, DeckContents[k])
    ensures r.Some? ==> forall k :: 0 <= k < |DeckContents| ==>
              r.value.0.cardSpecs[ids[|DeckContents|..][k]] == CardSpec(1, DeckContents[k])
    ensures r.Some? ==> r.value.1.currentPlayer == 0
    ensures r.Some? ==> |r.value.1.board.cells| == settings.numCols * settings.numRows
    ensures r.Some? ==> forall i :: 0 <= i < |r.value.1.board.cells| ==> r.value.1.board.cells[i] == Empty
    ensures r.Some? ==> r.value.1.board.trashedCardIds == []
    ensures r.Some? ==> |r.value.1.decks| == 2
    ensures r.Some? ==> r.value.1.decks[0] == Deck(DealtCells(ids[..|DeckContents|]))
    ensures r.Some? ==> r.value.1.decks[1] == Deck(DealtCells(ids[|DeckContents|..]))
  {
    if |settings.players| != 2 {
      return None;
    }
    var board := Transforms.EmptyBoard(settings.numCols, settings.numRows);
    DistinctHalves(ids, |DeckContents|);
    assert ids == ids[..|DeckContents|] + ids[|DeckContents|..];
    var specs, decks := DealDecks(ids[..|DeckContents|], ids[|DeckContents|..]);
    var rules := Rules(settings.numCols, settings.numRows, settings.maxSum, specs);
    r := Some((rules, GameState(0, board, decks)));
  }
}
