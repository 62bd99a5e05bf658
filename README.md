# bamb rules engine and MCTS player, modelled in Dafny

bamb is a two-player card game on a grid of `numCols` by `numRows` cells.
Each player holds a deck of nine cards: the numbers 1 to 7 and the arrows
"U" and "D".

A number card goes on an empty cell, or on a card of its owner whose value
is not lower. The covered card goes back into the first free slot of the
owner's deck. An arrow card goes on an occupied cell and pushes that card
one step in its direction. The arrow itself goes to the trash.

After a move, every row or column that is "hot" both before and after the
move is emptied into the trash. A line is hot when its numeric sum exceeds
`maxSum`.

The AI is a Monte Carlo tree search. It runs a thousand rounds of select,
expand, random playout and backpropagation, then returns the move of the
most visited root child.

## Structure

The project has one module per source file, plus two shared modules:

- `Types` holds the value types.
- `Inventory` holds the bag of every card id in the two decks, on the board
  and in the trash — the quantity every transition must preserve.

Code that only computes values is modelled as functions and lemmas.

Code that changes things step by step is modelled imperatively:

- the loops of `cellsRemoveCard`, `deckAddCard`, `boardSumRow` and
  `boardSumCol`;
- the scans of `placeCard`, `listMoves`, `computeScore` and
  `processRowClears`;
- the deal in `fromSettings` and `emptyBoard`;
- the search loop of `calculateBestMove`.

These are methods with loop invariants. Each is proved equal to a
specification function, and the source's promises are lemmas about those
functions.

Objects whose fields the source updates in place are classes with
`modifies` frames:

- the game (`GameFlow.Game`: its phase and tutorial position);
- the search node (`AiMcts.Node`);
- the consequence sink (`ConsequenceLog.Consequences`).

The search tree is a set of `Node` objects linked through `parentNode`.
The ghost predicate `AiProcess.Closed` keeps that set well formed across
rounds: every node but the root holds the move that leads to it, so the
ghost function `AiProcess.NodeState` gives each node's state, the root
state with the moves from the root down to the node played. Each playout
is a ghost sequence of moves, each one listed at its turn
(`AiProcess.PlaysTo`).

Randomness becomes nondeterministic choice: `_.sample` is a `:|` pick. So
every property of the search holds whatever the random picks are. The UCB1
formula is an abstract parameter `ucb: (real, nat, nat) -> real`. Fresh
uuids are a parameter `ids` of distinct card ids.

Where the code and its documentation disagree, the model follows the code:

- A line clears when its sum is greater than `maxSum`, not when it equals
  `maxSum`. Clearing is one pass over the lines that were hot before and
  after the move. It is not repeated until no line is hot.
- `play` does not advance the turn: `placeCard` keeps `currentPlayer`,
  and only the older `stateApplyMove` flips it. So in the search every
  state has the root player to move, every node's `playerJustMoved` is
  that player's opponent, and backpropagation credits each node with the
  opponent's result (`AiProcess.Round` states this).
- The search runs a fixed `itermax` of 1000 rounds, with no time budget.
  When the root has no child it returns no move (`null`), not a pass.

## Model

| member | source | states |
|---|---|---|
| `GameBase.RowStartIsProduct` | game/src/game-base.ts:93-95 | the row offset used by cellIndex is `row * numCols` |
| `GameBase.CellIndex` | game/src/game-base.ts:93-95 | an in-bounds column and row give an index inside the board's cells |
| `GameBase.CellIndexInjective` | game/src/game-base.ts:93-95 | two in-bounds positions share an index exactly when they are the same position |
| `GameBase.PositionOf` | game/src/game-base.ts:93-98 | every index of the board is the cellIndex of some in-bounds position, so boardGetCell reaches every cell |
| `GameBase.BoardGetCellCovers` | game/src/game-base.ts:93-99 | boardGetCell reaches every cell: each cell of the board is the one read at some in-bounds position, the position whose cellIndex is its index (unique by `CellIndexInjective`) |
| `GameBase.BoardGetCard` | game/src/game-base.ts:117-123 | a card is found exactly when the cell holds an id that has a card spec; an empty cell or an unknown id gives none |
| `GameBase.BoardGetCardValue` | game/src/game-base.ts:125-131 | an empty cell has value 0; a known number card gives its number; any nonzero value is the number of the known number card on that cell |
| `GameBase.BoardSumRow` | game/src/game-base.ts:101-107 | the loop's sum equals the row's total of numeric face values, with empty cells and arrows counting 0 |
| `GameBase.BoardSumCol` | game/src/game-base.ts:109-115 | the loop's sum equals the column's total of numeric face values |
| `GameBase.RowSumUpToFrame` | game/src/game-base.ts:101-107 | a row's sum depends only on the cells of that row |
| `GameBase.ColSumUpToFrame` | game/src/game-base.ts:109-115 | a column's sum depends only on the cells of that column |
| `GameBase.EmptyRowSumsZero` | game/src/game-base.ts:101-107 | a row of empty cells sums to 0 |
| `GameBase.EmptyColSumsZero` | game/src/game-base.ts:109-115 | a column of empty cells sums to 0 |
| `GameBase.StateTransformDeck` | game/src/game-base.ts:133-144 | only the chosen player's deck is replaced, by `f` of it; the other deck, the board and the turn are kept |
| `GameBase.StateTransformBoard` | game/src/game-base.ts:146-151 | only the board is replaced, by `f` of it |
| `GameBase.CellsSet` | game/src/game-base.ts:163-167 | the result has the same length, holds `cell` at `idx` and every other cell unchanged |
| `GameBase.CellsTransform` | game/src/game-base.ts:169-175 | the result has the same length, holds `f` of the old cell at `idx` and every other cell unchanged (with a constant `f` it is cellsSet, `CellsTransformConst`) |
| `GameBase.CellsTransformConst` | game/src/game-base.ts:169-175 | cellsTransform with a constant function is cellsSet |
| `GameBase.CellsRemoveCard` | game/src/game-base.ts:153-161 | each cell holding the id becomes empty, every other cell is kept, and no cell holds the id afterwards |
| `GameBase.DeckRemoveCard` | game/src/game-base.ts:177-179 | the deck's cells with every copy of the id emptied |
| `GameBase.FirstEmpty` | game/src/game-base.ts:184-189 | the first empty slot, every slot before it occupied; none exactly when the deck has no empty slot |
| `GameBase.DeckAddCard` | game/src/game-base.ts:181-191 | the id goes into the first empty slot; the deck keeps its length and, when it had a free slot, holds the id |
| `Inventory.DeckWithCardBag` | game/src/game-base.ts:181-191 | adding to a deck with a free slot adds exactly that id to the deck's bag |
| `GameBase.BoardTrashCard` | game/src/game-base.ts:193-197 | the cells are kept and the id is appended to the trash |
| `GameBase.BoardSetCard` | game/src/game-base.ts:199-211 | the cell at the placement holds the id (or is emptied for none); every other cell and the trash are kept |
| `GameBase.BoardSetCardCells` | game/src/game-base.ts:199-211 | the new cells are the old ones with the placement's index updated |
| `GameBase.BoardSetCardGet` | game/src/game-base.ts:199-211 | reading any cell back gives the new content at the placement and the old content elsewhere |
| `Inventory.CellsBagUpdate` | game/src/game-base.ts:163-167 | overwriting one cell takes its id (if any) out of the bag and puts the new one (if any) in |
| `Inventory.CellsBagWithout` | game/src/game-base.ts:153-161 | emptying the cells that hold an id removes all its copies from the bag and nothing else |
| `Inventory.SwapBag` | game/src/rules/place-card.ts:130-140 | exchanging two cells keeps the bag of the cells |
| `GameBase.StateAdvanceTurn` | game/src/game-base.ts:213-215 | the turn passes to the other player; board and decks are kept |
| `GameBase.AdvanceTurnTwice` | game/src/game-base.ts:213-215 | advancing the turn twice gives back the same state |
| `GameBase.PassMove` | game/src/game-base.ts:248-258 | a pass by the player to move, scored 0 |
| `GameBase.StateGetResult` | game/src/game-base.ts:217-238 | the result is 1 when the player's score is higher, 0 when it is lower and 0.5 on a draw, each in both directions |
| `GameBase.WorkerStateGetResult` | game/src/game-base.ts:217-222 | as the search worker runs it: the result fails exactly when the board holds a card, and is otherwise a draw |
| `GameBase.WorkerResultFailsOnCard` | game/src/ai/compute-score.ts:17 | a board holding one card of player 0 is a win for player 0 with the card table, and a failure in the worker |
| `GameBase.ResultsAreComplementary` | game/src/game-base.ts:217-238 | the two players' results always sum to 1 |
| `GameBase.DealtCells` | game/src/game-base.ts:79-90 | a deck dealt from ids holds each id, in order, one per slot |
| `GameBase.DealDeck` | game/src/game-base.ts:79-90 | one player's deal: a spec with owner and value `1..7, U, D` for each id, earlier specs kept, and the deck's cells |
| `GameBase.DealDecks` | game/src/game-base.ts:79-90 | both deals: the card table holds exactly the dealt ids, with player 0's nine cards then player 1's |
| `GameBase.FromSettings` | game/src/game-base.ts:60-91 | no game exactly when the player count is not 2; otherwise the dimensions and maxSum of the settings, player 0 to move, an empty board and trash, and the two dealt decks |
| `Inventory.DealtCellsBag` | game/src/game-base.ts:79-90 | the bag of a dealt deck is the multiset of the dealt ids |
| `Transforms.EmptyBoard` | game/src/transforms.ts:3-14 | `cols * rows` cells, all empty, and an empty trash |
| `Inventory.EmptyCellsBag` | game/src/transforms.ts:3-14 | cells that are all empty hold no id |
| `Inventory.AllKnownWellFormed` | game/src/game-base.ts:117-123 | a shaped state whose every id has a card spec is well formed: boardGetCard finds a spec for every occupied cell |
| `Inventory.KnownCellsByBag` | game/src/game-base.ts:117-123 | every id in some cells has a spec exactly when every id of their bag has one |
| `GameFlow.Game.constructor` | game/src/game.ts:105-135 | the dealt game: settings' dimensions, player 0 to move, empty board and trash, two full decks, a card table holding exactly the dealt ids with player 0's `1 .. 7, U, D` then player 1's, every card in one place only, a table and state under which playouts end, in the move phase at the first script item |
| `GameFlow.DealtGameEnds` | game/src/game-base.ts:74-90 | the dealt table, read by position in the ids, gives player 0's faces then player 1's; playouts end under it, and the dealt state meets the playout invariant |
| `GameFlow.InitialStateSound` | game/src/game-base.ts:69-90 | the dealt state holds every card exactly once, and every id it holds has a spec |
| `GameFlow.DistinctOnce` | game/src/game-base.ts:79-90 | distinct dealt ids occur once each in their multiset |
| `GameFlow.Game.ApplyMove` | game/src/game.ts:137-151 | a refused move leaves the phase as it was; a taken one enters the transition phase with the played state and a fresh recording sink holding placeCard's snapshots |
| `GameFlow.Game.CheckEnd` | game/src/game.ts:198-239 | the game is over, with both players' scores (player 0's first), exactly when neither the player to move nor the other player has a listed move; otherwise the phase is kept |
| `GameFlow.NoMovesIffNoLegalMove` | game/src/game.ts:198-213 | listMoves is empty exactly when no card of the player to move can go on any cell |
| `GameFlow.GameOverIffNoLegalMove` | game/src/game.ts:198-239 | checkEnd's condition holds exactly when neither player has a legal placement |
| `GameFlow.EmptyDecksEndTheGame` | game/src/game.ts:198-239 | with both decks empty the game is over |
| `GameFlow.Game.CurrentScriptItem` | game/src/game.ts:241-246 | an item exactly when there is a script and the index is inside it, and then the item at the index |
| `GameFlow.TutorialStep` | game/src/game.ts:248-265 | the index moves on by one exactly when there is an item and the step is forced, or the item waits for no move and has no text still to reveal; the text changes only to the target, and only without force |
| `GameFlow.Game.TutorialNext` | game/src/game.ts:248-265 | the new text and index are the tutorial step from the old ones |
| `GameFlow.RevealShowsText` | game/src/game.ts:254-258 | an unforced step with the item's text not yet shown reveals it and keeps the index |
| `GameFlow.ScriptedMoveWaits` | game/src/game.ts:261-264 | an unforced step never passes an item that waits for a move |
| `GameFlow.ShownTextAdvances` | game/src/game.ts:261-264 | once the text is shown, a forced step or an item without a move advances by one |
| `GameFlow.TextShown` | game/src/game.ts:267-277 | all text is not yet shown exactly when there is an item with a text different from the one displayed |
| `GameFlow.Game.AllTextShown` | game/src/game.ts:267-277 | false exactly when the current script item has a text and the displayed tutorial text differs from it |
| `ConsequenceLog.Consequences.Recording` | game/src/rules/consequences.ts:20-25 | a recording sink starts with no cleared rows, no cleared columns and no snapshots |
| `ConsequenceLog.Consequences.Null` | game/src/rules/consequences.ts:40-46 | a null sink starts empty and is not recording |
| `ConsequenceLog.Consequences.ClearedRow` | game/src/rules/consequences.ts:27-29 | a recording sink appends the row; a null sink keeps its log |
| `ConsequenceLog.Consequences.ClearedCol` | game/src/rules/consequences.ts:31-33 | a recording sink appends the column; a null sink keeps its log |
| `ConsequenceLog.Consequences.Snapshot` | game/src/rules/consequences.ts:35-37 | a recording sink appends the snapshot value it is given; a null sink keeps its log |
| `RulesPlaceCard.DirToColRow` | game/src/rules/place-card.ts:158-171 | an offset exactly for "L", "R", "U" and "D", and then a unit step |
| `RulesPlaceCard.Offset` | game/src/rules/place-card.ts:158-171 | each direction's offset is the one dirToColRow gives for its name, and a unit step |
| `RulesPlaceCard.OffsetsOpposite` | game/src/rules/place-card.ts:158-171 | left and right, and up and down, are opposite steps, and no two directions share an offset |
| `RulesPlaceCard.PlaceSpec` | game/src/rules/place-card.ts:6-156 | a refused move returns the previous state with no snapshot; snapshots exist exactly for a taken placement; the player to move is kept |
| `RulesPlaceCard.NumericPlay` | game/src/rules/place-card.ts:51-92 | a number placement is taken and keeps the board's shape |
| `RulesPlaceCard.ArrowPlay` | game/src/rules/place-card.ts:118-152 | an arrow placement is taken and keeps the board's shape |
| `RulesPlaceCard.PlaceCard` | game/src/rules/place-card.ts:6-156 | the method's state and verdict are placeCard's, and the sink receives exactly its snapshots when it records |
| `RulesPlaceCard.DeckScan` | game/src/rules/place-card.ts:17-25 | the scan finds the card exactly when the current deck holds it |
| `RulesPlaceCard.PlaceNumberMove` | game/src/rules/place-card.ts:38-92 | the number-card branch, refusals included, yields placeCard's state, verdict and snapshots |
| `RulesPlaceCard.PlaceArrowMove` | game/src/rules/place-card.ts:93-152 | the arrow branch, its four edge refusals included, yields placeCard's state, verdict and snapshots |
| `RulesPlaceCard.PlaceNumber` | game/src/rules/place-card.ts:52-91 | the transform sequence of a number placement gives the number play's state and snapshots |
| `RulesPlaceCard.PlaceArrow` | game/src/rules/place-card.ts:118-151 | the transform sequence of an arrow placement gives the arrow play's state and snapshots |
| `RulesPlaceCard.PassIsTaken` | game/src/rules/place-card.ts:12-14 | a pass is taken, changes nothing and reports nothing |
| `RulesPlaceCard.NotInDeckIsRefused` | game/src/rules/place-card.ts:16-32 | a card missing from the current player's deck is refused and changes nothing |
| `RulesPlaceCard.NumericRefusal` | game/src/rules/place-card.ts:38-49 | a number card is refused exactly when it covers a card of the other player, or a number card of a lower value |
| `RulesPlaceCard.NumericEffect` | game/src/rules/place-card.ts:51-92 | a number placement puts the card on its cell, keeps every other cell and the trash, takes the card off the mover's deck and returns a covered card to it, leaves the other deck alone, and reports two snapshots when a card is covered and one otherwise, the last of the final state |
| `RulesPlaceCard.NumericReturnsUnderCard` | game/src/rules/place-card.ts:76-89 | the covered card ends in the mover's deck, and the played card (unless it covered itself) no longer does |
| `RulesPlaceCard.ArrowEffect` | game/src/rules/place-card.ts:93-152 | an arrow placement exchanges the covered cell with its neighbour in the arrow's direction, keeps every other cell, trashes the arrow, takes it off the mover's deck, and reports one snapshot |
| `RulesPlaceCard.RemoveOnce` | game/src/rules/place-card.ts:61-63 | taking a card held once out of a deck removes exactly one id from the deck's bag and frees a slot |
| `RulesPlaceCard.BagByMover` | game/src/rules/place-card.ts:61-63 | the bag of a state is the same whichever deck is counted first |
| `RulesPlaceCard.SameBag` | game/src/rules/place-card.ts:61-143 | a step that keeps the other deck and the bag of the mover's deck, board and trash keeps the state's bag |
| `RulesPlaceCard.NumericConserves` | game/src/rules/place-card.ts:51-92 | a number placement by the player to move, on the current state, keeps the bag of card ids held by the decks, the board and the trash |
| `RulesPlaceCard.ArrowConserves` | game/src/rules/place-card.ts:118-152 | an arrow placement on the current state keeps the bag of cards |
| `RulesPlaceCard.PlaceConserves` | game/src/rules/place-card.ts:6-156 | any placeCard on the current state, by the current player, keeps the bag of cards |
| `RulesPlaceCard.StalePlacement` | game/src/rules/place-card.ts:36 | in a one-cell game where card 1 is in the trash but the reference board still shows it, player 0's 3 is taken and card 1 goes back to the deck while staying in the trash |
| `RulesPlaceCard.StaleBoardDuplicatesCard` | game/src/rules/place-card.ts:36 | with a stale reference board, a placement from a well-formed state puts one card in two places |
| `StateApplyMove.ApplyMoveSpec` | game/src/state-apply-move.ts:4-123 | a refused move returns the previous state; a taken one passes the turn and keeps the board's shape |
| `StateApplyMove.NumericApply` | game/src/state-apply-move.ts:45-65 | a number move keeps the board's shape |
| `StateApplyMove.ArrowApply` | game/src/state-apply-move.ts:94-119 | an arrow move keeps the board's shape |
| `StateApplyMove.StateApplyMove` | game/src/state-apply-move.ts:4-123 | the method's state and verdict are stateApplyMove's |
| `StateApplyMove.ApplyMoveRefusals` | game/src/state-apply-move.ts:9-90 | a card missing from the deck is refused; a number card exactly when it covers another player's card or a lower number; an arrow exactly on an empty cell or when pushing off the board |
| `StateApplyMove.UnderCardTakesFirstFreeSlot` | game/src/state-apply-move.ts:47-60 | a covered card goes into the first free slot of the mover's deck, and every other slot only loses the played card |
| `StateApplyMove.AgreesWithPlaceCard` | game/src/state-apply-move.ts:4-123 | stateApplyMove takes exactly the moves placeCard takes, leaves the same board and other deck, and passes the turn; without a covered number card it is placeCard followed by a turn advance |
| `StateApplyMove.NumberBoardsAgree` | game/src/state-apply-move.ts:45-65 | a taken number move leaves the board placeCard leaves |
| `StateApplyMove.ArrowBoardsAgree` | game/src/state-apply-move.ts:94-119 | a taken arrow move leaves the board placeCard leaves, although it trashes the arrow before the exchange |
| `StateApplyMove.CoveredIsOther` | game/src/state-apply-move.ts:29-55 | on a state holding every card once, the covered card is not the played one, which the deck holds once |
| `StateApplyMove.CoverDeckBag` | game/src/state-apply-move.ts:47-60 | returning the covered card and then removing the played one changes the deck's bag by exactly those two ids |
| `StateApplyMove.CoverConserves` | game/src/state-apply-move.ts:45-65 | a number move that covers a card, with a free deck slot, keeps the bag of cards |
| `StateApplyMove.ApplyMoveConserves` | game/src/state-apply-move.ts:4-123 | stateApplyMove on the current state keeps the bag of cards whenever a covered card has a free slot to go to |
| `RulesProcessRowClears.ComputeHotZones` | game/src/rules/process-row-clears.ts:65-80 | the loops gather the hot rows and the hot columns, in order |
| `RulesProcessRowClears.HotRowsUpToSpec` | game/src/rules/process-row-clears.ts:70-74 | a row is listed exactly when it is among the scanned rows and its sum exceeds maxSum; the list is strictly increasing |
| `RulesProcessRowClears.HotColsUpToSpec` | game/src/rules/process-row-clears.ts:75-79 | a column is listed exactly when it is among the scanned columns and its sum exceeds maxSum; the list is strictly increasing |
| `RulesProcessRowClears.HotZonesSpec` | game/src/rules/process-row-clears.ts:65-80 | the hot rows and columns are exactly the lines of the board whose sum exceeds maxSum, each in increasing order |
| `RulesProcessRowClears.KeepCommon` | game/src/rules/process-row-clears.ts:14-23 | the filtering loop keeps the new hot lines that were also hot before |
| `RulesProcessRowClears.CommonMembers` | game/src/rules/process-row-clears.ts:14-23 | a line is kept exactly when it is in both lists |
| `RulesProcessRowClears.CommonIncreasing` | game/src/rules/process-row-clears.ts:14-23 | filtering an increasing list keeps it increasing |
| `RulesProcessRowClears.CommonSpec` | game/src/rules/process-row-clears.ts:14-23 | membership in both lists, and order, of the kept lines |
| `RulesProcessRowClears.ToClearSpec` | game/src/rules/process-row-clears.ts:9-23 | a row (column) is to be cleared exactly when it is hot both before and after the move; each list is increasing |
| `RulesProcessRowClears.ToClearOnBoard` | game/src/rules/process-row-clears.ts:9-23 | every line to clear is on the board |
| `RulesProcessRowClears.ClearCell` | game/src/rules/process-row-clears.ts:32-40 | emptying one cell keeps the decks, the turn and the board's shape |
| `RulesProcessRowClears.ClearColumn` | game/src/rules/process-row-clears.ts:31-41 | emptying a column from a row on keeps the decks, the turn and the board's shape |
| `RulesProcessRowClears.ClearRow` | game/src/rules/process-row-clears.ts:44-54 | emptying a row from a column on keeps the decks, the turn and the board's shape |
| `RulesProcessRowClears.ClearCols` | game/src/rules/process-row-clears.ts:30-42 | clearing a list of columns keeps the decks, the turn and the board's shape |
| `RulesProcessRowClears.ClearRows` | game/src/rules/process-row-clears.ts:43-55 | clearing a list of rows keeps the decks, the turn and the board's shape |
| `RulesProcessRowClears.ProcessRowClearsSpec` | game/src/rules/process-row-clears.ts:4-58 | processRowClears keeps the decks, the turn and the board's shape |
| `RulesProcessRowClears.ClearColumnLoop` | game/src/rules/process-row-clears.ts:31-41 | the inner loop over rows, with its transforms, empties the column as specified |
| `RulesProcessRowClears.ClearRowLoop` | game/src/rules/process-row-clears.ts:44-54 | the inner loop over columns, with its transforms, empties the row as specified |
| `RulesProcessRowClears.ClearLines` | game/src/rules/process-row-clears.ts:29-56 | the columns are cleared first, then the rows |
| `RulesProcessRowClears.ProcessRowClears` | game/src/rules/process-row-clears.ts:4-58 | the method computes processRowClears |
| `RulesProcessRowClears.ClearCellEffect` | game/src/rules/process-row-clears.ts:32-40 | the cell becomes empty and every other cell is kept; the card it held, if any, is appended to the trash |
| `RulesProcessRowClears.ClearColumnEffect` | game/src/rules/process-row-clears.ts:31-41 | after the column loop, exactly the column's cells from the start row on are empty and all others are kept |
| `RulesProcessRowClears.ClearRowEffect` | game/src/rules/process-row-clears.ts:44-54 | after the row loop, exactly the row's cells from the start column on are empty and all others are kept |
| `RulesProcessRowClears.ClearColsEffect` | game/src/rules/process-row-clears.ts:30-42 | a cell ends empty exactly when its column is listed; otherwise it keeps its content |
| `RulesProcessRowClears.ClearRowsEffect` | game/src/rules/process-row-clears.ts:43-55 | a cell ends empty exactly when its row is listed; otherwise it keeps its content |
| `RulesProcessRowClears.ProcessRowClearsCells` | game/src/rules/process-row-clears.ts:4-58 | a cell ends empty exactly when its row or its column is hot both before and after; every other cell keeps its content |
| `RulesProcessRowClears.NothingHotTwice` | game/src/rules/process-row-clears.ts:29 | with no line hot both before and after, the state comes back unchanged |
| `RulesProcessRowClears.SameBoardBag` | game/src/rules/process-row-clears.ts:28-57 | a step that keeps the decks and the board's bag (cells plus trash) keeps the state's bag |
| `RulesProcessRowClears.EmptyCellIntoTrash` | game/src/rules/process-row-clears.ts:32-40 | emptying a cell and trashing the card it held keeps the bag of cells plus trash |
| `RulesProcessRowClears.ClearCellConserves` | game/src/rules/process-row-clears.ts:32-40 | clearing a cell moves its card to the trash: the board's bag is kept, and every id still has a spec |
| `RulesProcessRowClears.ClearColumnConserves` | game/src/rules/process-row-clears.ts:31-41 | clearing a column keeps the board's bag and the known ids |
| `RulesProcessRowClears.ClearRowConserves` | game/src/rules/process-row-clears.ts:44-54 | clearing a row keeps the board's bag and the known ids |
| `RulesProcessRowClears.ClearColsConserves` | game/src/rules/process-row-clears.ts:30-42 | clearing the columns keeps the board's bag and the known ids |
| `RulesProcessRowClears.ClearRowsConserves` | game/src/rules/process-row-clears.ts:43-55 | clearing the rows keeps the board's bag and the known ids |
| `RulesProcessRowClears.ProcessRowClearsConserves` | game/src/rules/process-row-clears.ts:4-58 | clearing keeps the bag of cards, well-formedness, and the property that each card is in one place only |
| `RulesProcessRowClears.TwiceInCells` | game/src/rules/process-row-clears.ts:32-40 | an id held by two cells is in the bag at least twice |
| `RulesProcessRowClears.ClearedCardIsTrashed` | game/src/rules/process-row-clears.ts:28-56 | a card on a line hot both before and after ends in the trash, and the state then holds it exactly once |
| `StateApplyEffects.ApplyEffectsSpec` | game/src/state-apply-effects.ts:4-55 | off player 0's turn the state comes back as it was; the decks, the turn and the board's shape are always kept |
| `StateApplyEffects.ApplyEffects` | game/src/state-apply-effects.ts:4-55 | the method computes stateApplyEffects |
| `StateApplyEffects.HotOnBoard` | game/src/state-apply-effects.ts:10-21 | every gathered row and column is on the board |
| `StateApplyEffects.ApplyEffectsIsSelfClear` | game/src/state-apply-effects.ts:4-55 | on player 0's turn, stateApplyEffects is processRowClears with the same state before and after |
| `StateApplyEffects.CommonOfCovered` | game/src/rules/process-row-clears.ts:14-23 | filtering a list by a list that holds all of it keeps it whole |
| `StateApplyEffects.ApplyEffectsCells` | game/src/state-apply-effects.ts:26-53 | on player 0's turn, a cell ends empty exactly when its row or column sums to more than maxSum |
| `StateApplyEffects.ApplyEffectsConserves` | game/src/state-apply-effects.ts:26-53 | the bag of card ids, well-formedness, and each card being in one place only, are all kept |
| `StateApplyEffects.ApplyEffectsTrashesOnce` | game/src/state-apply-effects.ts:26-53 | a card on a hot line ends in the trash exactly once |
| `RulesPlay.PlaySpec` | game/src/rules/play.ts:7-14 | a move is taken exactly when placeCard takes it; a refused move returns the previous state; the turn is kept |
| `RulesPlay.Play` | game/src/rules/play.ts:7-14 | the method computes play, handing the sink on to placeCard, which then receives exactly the snapshots |
| `RulesPlay.PlayOnState` | game/src/rules/play.ts:7-14 | play with the covered card read from the state being played on |
| `RulesPlay.PlayConserves` | game/src/rules/play.ts:7-14 | a move by the current player, played on its own state, keeps every card in exactly one place and the state sound |
| `RulesPlay.PlayTakenIffCanPlay` | game/src/rules/can-play.ts:5-57 | a move from the deck is taken by play exactly when canPlay allows it |
| `RulesPlay.PassClearsHotLines` | game/src/rules/play.ts:7-14 | a pass is taken, keeps the decks, and empties every line already hot |
| `RulesPlay.PlayAsWritten` | game/src/rules/play.ts:7-8 | play as written: whenever it returns, it returns what the corrected play returns |
| `RulesPlay.PlayAsWrittenThrows` | game/src/rules/play.ts:7-8 | play as written fails exactly on the placements canPlay allows |
| `RulesPlay.PlayAsWrittenThrowsHere` | game/src/rules/play.ts:7-8 | in a one-cell game, a legal first placement makes play as written fail while the corrected play takes it |
| `RulesCanPlay.CanPlay` | game/src/rules/can-play.ts:5-57 | a pass can always be played |
| `RulesCanPlay.NumericOnEmpty` | game/src/rules/can-play.ts:19-30 | a number card can go on an empty cell |
| `RulesCanPlay.NumericOnCard` | game/src/rules/can-play.ts:19-30 | a number card can go on a card exactly when it belongs to the same player and is not a number lower than it |
| `RulesCanPlay.ArrowOnEmptyRefused` | game/src/rules/can-play.ts:31-35 | an arrow cannot go on an empty cell |
| `RulesCanPlay.ArrowOnCard` | game/src/rules/can-play.ts:31-55 | an arrow can go on a card exactly when the neighbour in its direction is on the board |
| `RulesCanPlay.CanPlayIffPlaced` | game/src/rules/can-play.ts:5-57 | canPlay allows a move from the deck exactly when placeCard, on the same state, takes it |
| `RulesCanPlay.CanPlayAsWritten` | game/src/rules/can-play.ts:3-57 | as written, canPlay fails exactly for an arrow over a known card, where it calls the `dirToColRow` that place-card.ts does not export; in every other case it gives canPlay's answer |
| `AiListMoves.CardMoves` | game/src/ai/list-moves.ts:29-39 | the double loop over columns and rows collects the card's playable placements in column order |
| `AiListMoves.ListMoves` | game/src/ai/list-moves.ts:6-43 | the loops collect, for every occupied deck slot in order, its card's playable placements |
| `AiListMoves.CellMovesSpec` | game/src/ai/list-moves.ts:30-38 | the moves listed for one column are exactly the playable placements of the card in that column |
| `AiListMoves.ColMovesLength` | game/src/ai/list-moves.ts:29-39 | at most one move per cell of the scanned columns |
| `AiListMoves.ColMovesSpec` | game/src/ai/list-moves.ts:29-39 | the moves listed for a card are exactly its playable placements on the scanned columns |
| `AiListMoves.SlotMovesLength` | game/src/ai/list-moves.ts:21-40 | at most one move per deck slot and cell |
| `AiListMoves.SlotMovesSpec` | game/src/ai/list-moves.ts:21-40 | the listed moves are exactly the playable placements of cards in the slots |
| `AiListMoves.ListMovesMembers` | game/src/ai/list-moves.ts:6-43 | a move is listed exactly when it places, for the player to move, a card of the deck on a cell where canPlay allows it; at most slots times cells moves |
| `AiListMoves.NoRepeatConcat` | game/src/ai/list-moves.ts:21-40 | two move lists without repeats and without a shared move concatenate to a list without repeats |
| `AiListMoves.CellMovesNoRepeat` | game/src/ai/list-moves.ts:30-38 | the scan of one column lists no move twice |
| `AiListMoves.ColMovesNoRepeat` | game/src/ai/list-moves.ts:29-39 | the scan of a card's columns lists no move twice |
| `AiListMoves.SlotMovesNoRepeat` | game/src/ai/list-moves.ts:21-40 | when no card id sits in two slots, the scan of the slots lists no move twice |
| `AiListMoves.ListMovesNoRepeat` | game/src/ai/list-moves.ts:6-43 | in a state where every card is in one place only, listMoves lists no move twice |
| `AiListMoves.DeckOnce` | game/src/ai/list-moves.ts:21-24 | in a state where every card is in one place only, no card id sits in two slots of a deck |
| `AiListMoves.DeckBagOnce` | game/src/ai/list-moves.ts:21-24 | in such a state a deck holds each card id at most once |
| `AiListMoves.EmptyDeckHasNoMoves` | game/src/ai/list-moves.ts:21-24 | an empty deck has no moves |
| `AiListMoves.EmptySlotsNoMoves` | game/src/ai/list-moves.ts:21-24 | empty slots contribute no moves |
| `AiListMoves.CellMovesAsWritten` | game/src/ai/list-moves.ts:30-38 | as written, the scan of one column fails exactly when the card is an arrow and a scanned cell holds a known card; otherwise it lists the corrected scan's moves |
| `AiListMoves.ColMovesAsWritten` | game/src/ai/list-moves.ts:29-39 | as written, the scan of a card's columns fails exactly when the card is an arrow and one of those columns holds a known card |
| `AiListMoves.SlotMovesAsWritten` | game/src/ai/list-moves.ts:21-40 | as written, the scan of the slots fails exactly when a slot holds an arrow and the board holds a known card |
| `AiListMoves.ListMovesAsWritten` | game/src/ai/list-moves.ts:6-43 | as written, listMoves fails exactly when the player's deck holds an arrow and the board holds a known card; otherwise it gives the corrected list |
| `AiListMoves.ListMovesAsWrittenThrowsHere` | game/src/rules/can-play.ts:37 | on a one-cell board holding player 0's 3, with the up arrow in player 0's deck, the corrected listMoves offers no move while listMoves as written fails |
| `AiComputeScore.ComputeScore` | game/src/ai/compute-score.ts:4-25 | the loop's score is tiles owned plus value owned over 100, with owners and values from the card table |
| `AiComputeScore.WorkerScore` | game/src/ai/compute-score.ts:12-17 | as the search worker runs it: the pass fails exactly when some cell holds a card, and an empty board scores 0 |
| `AiComputeScore.ScoreOrderIsKeyOrder` | game/src/ai/compute-score.ts:24 | comparing scores is comparing `100 * tiles + value`, both for order and for equality |
| `AiComputeScore.EmptyBoardScoresZero` | game/src/ai/compute-score.ts:12-22 | an empty board scores 0 for both counts |
| `AiComputeScore.OthersDoNotCount` | game/src/ai/compute-score.ts:18-21 | changing a cell not owned by the player, to a cell not owned by the player, leaves the score alone |
| `AiComputeScore.TilesAtMostCells` | game/src/ai/compute-score.ts:12-22 | a player owns at most as many tiles as there are cells |
| `AiMcts.Node.constructor` | game/src/ai/mcts.ts:16-29 | a new node with the move and parent given, no children, no wins or visits, the listed moves as untried, and the opponent as the player who just moved |
| `AiMcts.Scores` | game/src/ai/mcts.ts:33-37 | each child's UCB score, in order |
| `AiMcts.ArgMaxLast` | game/src/ai/mcts.ts:33-38 | the last element of a stable ascending sort: a maximum, and the last of the maxima |
| `AiMcts.Node.Select` | game/src/ai/mcts.ts:31-39 | no node without children; otherwise a child of maximal UCB score, with no later child scoring as high |
| `AiMcts.Node.AddChild` | game/src/ai/mcts.ts:41-46 | a fresh child for the untried move, which leaves the untried moves; the child is appended to the children |
| `AiMcts.Node.Update` | game/src/ai/mcts.ts:48-51 | one more visit and the result added to the wins |
| `AiProcess.ListedReplayable` | game/src/ai/process.ts:33-37 | every listed move is a placement by the player to move on the board |
| `AiProcess.LinkedGrows` | game/src/ai/mcts.ts:41-46 | a new node one level below its parent keeps the tree linked |
| `AiProcess.Replay` | game/src/ai/process.ts:27 | a move replayed in the tree is played on its own state and keeps the playout invariant and the turn |
| `AiProcess.NodeState` | game/src/ai/process.ts:24-38 | a node's state, the root state with the moves from the root down to the node played, keeps the playout invariant and the root player's turn |
| `AiProcess.NodeStateGrows` | game/src/ai/process.ts:33-38 | adding nodes to the tree leaves the state of every node already in it unchanged |
| `AiProcess.Descend` | game/src/ai/process.ts:24-28 | the descent ends at a node of the tree with untried moves or no children, the root itself when the root has no children, and the state replayed is that node's state |
| `AiProcess.Grow` | game/src/ai/process.ts:37 | the untried move becomes a fresh child of the node, and the tree stays closed |
| `AiProcess.Expand` | game/src/ai/process.ts:33-38 | a random untried move is played and becomes a fresh child of the node; the tree stays closed |
| `AiProcess.PlaysToExtend` | game/src/ai/process.ts:47-55 | a playout followed by one more listed move is a playout to the state that move gives |
| `AiProcess.Rollout` | game/src/ai/process.ts:44-56 | the playout ends, on the same player's turn, in a state where that player has no listed move, and the moves played, each listed at its turn, lead from the start to that state |
| `AiProcess.PathUp` | game/src/ai/process.ts:61-64 | the nodes from a node up to the root along `parentNode` hold that node and the root, and lie in the tree |
| `AiProcess.Backpropagate` | game/src/ai/process.ts:61-64 | every node from the leaf up to the root gets one more visit and the result of the final state for its `playerJustMoved`; every other node keeps its tallies; no child list changes |
| `AiProcess.Select` | game/src/ai/process.ts:18-39 | descent and expansion keep the tree closed and change no tally; the node returned is in the tree, or a fresh child with no visits and no wins; the state returned is that node's state |
| `AiProcess.Simulate` | game/src/ai/process.ts:18-56 | selection then playout: the tree stays closed and no tally changes; the final state is reached from the leaf's state by listed moves and leaves the player to move without one |
| `AiProcess.Round` | game/src/ai/process.ts:18-64 | the playout runs from the leaf's state by listed moves and ends with no listed move; every node from the leaf up to the root gets one more visit and the final result for its `playerJustMoved`, always the root player's opponent; a new leaf has one visit and that result; other nodes keep their tallies; the root has children once it has moves |
| `AiProcess.MostVisited` | game/src/ai/process.ts:79-81 | none exactly when the root has no child; otherwise the move of a most visited child, the last of them, which the root listed |
| `AiProcess.NewRoot` | game/src/ai/process.ts:14 | a fresh root with no visits or children and the listed moves |
| `AiProcess.CalculateBestMove` | game/src/ai/process.ts:10-82 | after 1000 rounds the root has 1000 visits; no move exactly when the player has no listed move; otherwise a listed move of a most visited root child |
| `AiProcess.ProcessAI` | game/src/ai/process.ts:84-94 | with no move the game is left as it is; otherwise a listed move is applied and the game enters its transition to the played state |
| `AiRollout.DeckContentsFaces` | game/src/game-base.ts:75-78 | the first seven faces of a dealt deck are the numbers 1 to 7, the last two arrows |
| `AiRollout.DealtAt` | game/src/game-base.ts:79-89 | the dealt spec of each id: owner by its half, face by its place in the half |
| `AiRollout.DealtPositive` | game/src/game-base.ts:75-89 | every dealt number card is positive |
| `AiRollout.DealtNumbersDiffer` | game/src/game-base.ts:75-89 | two dealt number cards of one player differ in value |
| `AiRollout.DealtRulesEnd` | game/src/game-base.ts:74-90 | the card table fromSettings deals is one under which playouts end |
| `AiRollout.WorthUpdate` | game/src/ai/process.ts:44-56 | overwriting one cell changes the board's face-value total by the old and new cell's worth |
| `AiRollout.WorthOfEmptied` | game/src/ai/process.ts:44-56 | emptying cells never raises the board's face-value total |
| `AiRollout.ClearingEmpties` | game/src/rules/process-row-clears.ts:28-57 | clearing only empties cells |
| `AiRollout.DeckCountByMover` | game/src/ai/process.ts:44-56 | the number of cards in the decks is the same whichever deck is counted first |
| `AiRollout.PlayedCardLeavesDeck` | game/src/rules/place-card.ts:61-63 | playing a card held once takes one card out of the deck and frees a slot |
| `AiRollout.NumberKeepsNumbers` | game/src/rules/place-card.ts:51-92 | a number placement leaves only number cards on the board |
| `AiRollout.NumberLowers` | game/src/rules/place-card.ts:51-92 | a number placement on an empty cell takes a card out of the decks; on a card, it keeps the deck count and lowers the board's total |
| `AiRollout.ArrowKeepsNumbers` | game/src/rules/place-card.ts:118-152 | an arrow placement leaves only number cards on the board |
| `AiRollout.ArrowSpends` | game/src/rules/place-card.ts:118-152 | an arrow placement takes a card out of the decks |
| `AiRollout.PlacementLowers` | game/src/ai/process.ts:44-56 | every listed move is a taken placement that lowers the playout measure (deck count, then board total) |
| `AiRollout.ClearingKeeps` | game/src/rules/process-row-clears.ts:28-57 | clearing keeps the deck count and only number cards on the board, and never raises the board's total |
| `AiRollout.RolloutStep` | game/src/ai/process.ts:47-55 | one playout step keeps the invariant and lowers the measure, so the playout loop ends |
| `AiRollout.PlayKeepsInv` | game/src/rules/play.ts:7-14 | play on its own state keeps the playout invariant |
| `AiRollout.InvReady` | game/src/rules/play.ts:7-14 | a state satisfying the playout invariant meets placeCard's requirements for any on-board move |
| `AiRollout.PlacedKeepsNumbers` | game/src/rules/place-card.ts:6-156 | a taken placement leaves only number cards on the board |
| `AiTreeNode.PlayableReady` | game/src/ai/tree-node.ts:21 | a playable move on a sound state meets placeCard's requirements |
| `AiTreeNode.PlayableOnSound` | game/src/ai/tree-node.ts:21 | a playable move keeps the state sound and the player to move |
| `AiTreeNode.ListedPlayable` | game/src/ai/tree-node.ts:25 | every move listMoves offers is playable |
| `AiTreeNode.NodeStateSound` | game/src/ai/tree-node.ts:21 | a node's state is sound and keeps the player to move |
| `AiTreeNode.Children` | game/src/ai/tree-node.ts:26-28 | one child per move given, in order |
| `AiTreeNode.Build` | game/src/ai/tree-node.ts:13-30 | the constructor builds the tree of the move to the given depth |
| `AiTreeNode.Grow` | game/src/ai/tree-node.ts:22-29 | the method computes the grown node: its move, player and state, with children only while depth remains |
| `AiTreeNode.BuildChildren` | game/src/ai/tree-node.ts:26-28 | the loop over the listed moves builds one subtree per move, in order |
| `AiTreeNode.TreeFields` | game/src/ai/tree-node.ts:19-21 | a node holds its move, the player to move before it, and its played state |
| `AiTreeNode.ChildrenAt` | game/src/ai/tree-node.ts:26-28 | child `i` is the tree of listed move `i` |
| `AiTreeNode.TreeShape` | game/src/ai/tree-node.ts:13-30 | the root's state is the previous state or the move played on it, sound and on the same turn; at depth 0 no children, otherwise one subtree per listed move |
| `AiTreeNode.CountNodes` | game/src/ai/tree-node.ts:32-34 | a tree counts at least one node more than its root has children |
| `AiTreeNode.CountLeafNodes` | game/src/ai/tree-node.ts:36-42 | every tree has at least one leaf (`LeavesBounded` adds that it has no more leaves than nodes) |
| `AiTreeNode.LeavesBounded` | game/src/ai/tree-node.ts:32-42 | a tree has at least one leaf and no more leaves than nodes |
| `AiTreeNode.SumsBounded` | game/src/ai/tree-node.ts:32-42 | a forest has no more leaves than nodes, and at least one leaf when not empty |
| `AiTreeNode.TreeStaysOnTurn` | game/src/ai/tree-node.ts:19-29 | every node of the tree is on the turn of the player to move at the root |
| `AiTreeNode.GrownStaysOnTurn` | game/src/ai/tree-node.ts:22-29 | a node grown on its player's turn has every node on that turn |
| `AiTreeNode.ChildrenStayOnTurn` | game/src/ai/tree-node.ts:26-28 | every child tree is on the same turn as its parent |
| `AiTreeNode.LeafCounts` | game/src/ai/tree-node.ts:32-42 | a node without children counts one node and one leaf |
| `AiTreeNode.LeafSums` | game/src/ai/tree-node.ts:32-42 | a forest of leaves counts one node and one leaf per tree |
| `AiTreeNode.DepthOneCounts` | game/src/ai/tree-node.ts:13-42 | a tree of depth 1 counts one node more than it has listed moves, and that many leaves (one without moves) |

## Left out

- Drawing, layout, dragging, audio, the worker message plumbing and logging are not modelled. This covers everything in game.ts outside the constructor, `applyMove`, `checkEnd` and the tutorial helpers.
- The tutorial's display text widget is not modelled; only the displayed text string is.
- `toMessage`, `fromMessage`, `playerName` and `describeCard` only copy or format values for display and the worker, so they are not modelled.
- `Node.print` only logs, so it is not modelled.
- The UCB1 formula uses floating point (`Math.sqrt`, `Math.log`), so it is an abstract function parameter. The properties of selection hold for any scoring function.
- The human win chance that `calculateBestMove` logs is not modelled, and neither is the commented-out display code.
- Random choice (`_.sample`) is a nondeterministic pick, and the uuids of `fromSettings` are a parameter of distinct ids.
- `checkEnd` has two `numCards` counting loops whose results are never used, so they are not modelled.
- The numeric part of scoring is modelled with integer keys. An arrow card on the board would make the source's `valueOwned` `NaN`; here it counts 0. Arrows never stay on the board.
- `dirToColRow`'s throw on a value that is not a direction cannot happen with the typed card values. It is `None` in `RulesPlaceCard.DirToColRow`.
- RulesCanPlay.CanPlay: it is the corrected canPlay, which calls the `dirToColRow` of place-card.ts:158-171. As written, can-play.ts:3 imports `dirToColRow` from place-card.ts, which exports only `placeCard` (line 6), so the call at can-play.ts:37 fails for an arrow played over a card. listMoves, `checkEnd` and the search fail with it (see Findings). `RulesCanPlay.CanPlayAsWritten` and `AiListMoves.ListMovesAsWritten` model that; the rest of the model uses the corrected canPlay.
- The search stores `Move` values. The source's `listMoves` returns `Move[]`, which process.ts, mcts.ts and tree-node.ts read as `ScoredMove`. So `node.move.move`, `m.move` and the sampled `.move` are `undefined` (process.ts:27, 36 and 51, and `move.move` at tree-node.ts:21). Every expansion, replay and playout step hands `undefined` to `play`, and `placeCard` fails at its first read, `move.pass`. The model plays the listed move itself, which is the evident intent.
- `addChild` removes the picked untried move by identity. The model removes it by its index, which is the same element.
- `GameFlow.Game.constructor` requires two players, while `fromSettings` throws otherwise. The `None` result of `GameBase.FromSettings` models that throw.
- Placements outside the board are excluded by `PlaceReady`. The source would read `undefined` there; listMoves and the UI never produce such moves.
- `stateApplyMove` has no pass case, so it requires a placement.
- `processAI`, the tree and the search play on the state they hold, through `RulesPlay.PlayOnState`. As written they read the covered card from the root board (see Findings).
- AiProcess.Rollout: its termination proof assumes the card table of a dealt game, with positive number cards and no two number cards of one player sharing a value (`AiRollout.RolloutRules`). Every game the constructor deals has such a table (`AiRollout.DealtRulesEnd`, `GameFlow.Game.constructor`); other card tables are not covered.
- StateApplyMove.ApplyMoveConserves: conservation is stated only when a covered card has a free deck slot. With a full deck the source loses the covered card; the mover's deck always has the slot of the card just played, but the order of the steps frees it only afterwards.
- AiTreeNode.Build: the tree is modelled as a value (`TreeNode` datatype), not as objects, because nothing updates it once built.
- GameFlow.Game.ApplyMove: it uses the corrected `play`, which hands the sink on to `placeCard`, and the corrected recording sink, which stores the snapshot it is given (see Findings).
- ConsequenceLog.Consequences.Snapshot: the model records the snapshot value its callers pass. The source's recording sink calls its argument (`f()`), while `placeCard` passes object literals, so as written a recording sink would fail on the first snapshot.
- AiComputeScore.ComputeScore, GameBase.StateGetResult and StateApplyMove.StateApplyMove read each card's owner and value from the card table `cardSpecs`. The source reads them from `game.cards`, which only `Game` has. In the worker's bare game base that table is missing (see Findings). On the main thread, create-display-objects.ts:161-170 fills it with `{spec, container, placement, targetPos}` entries whose owner and value sit under `spec`, not as the top-level `player` and `value` of the `Card` type in types.ts:27-39. So on the main thread `card.player` is `undefined`, no cell counts for either player, and `checkEnd` always reports the scores [0, 0]. The model follows the card table reading, which is the `Card` type's meaning.
- RulesProcessRowClears.ClearCell: the specification function writes the clearing of a cell without the lambdas of `stateTransformBoard`. The loop methods keep them and are proved equal to it.
- The state-apply variants call `stateSumRow`, `stateSumCol` and `stateGetCard`, which are not in the source. They are modelled by the board sums and `boardGetCard` of game-base.
- The script move's `value` field is not modelled; only whether an item waits for a move matters.

## Findings

| source | as written | input that shows it | evidently intended | confidence | as-written member | corrected member |
|---|---|---|---|---|---|---|
| game/src/rules/place-card.ts:36 | `placeCard` reads the covered card from `game.state.board`, the game's own board. In the search and the tree, that is the root state, not the state being played on. | a one-cell board whose card 1 was already cleared to the trash while the root board still shows it; player 0 plays card 2 (a 3) there, and card 1 returns to the deck while staying in the trash | read the covered card from `prevState.board` | not executed | `RulesPlaceCard.StaleBoardDuplicatesCard` | `RulesPlay.PlayConserves` |
| game/src/rules/play.ts:7-8 | `play` takes no sink and calls `placeCard` with three arguments, so `cons` is `undefined` and the first `cons.snapshot` of every taken placement fails. A sink passed in by `applyMove` is dropped. | a one-cell board, player 0 plays a 3 on the empty cell | take a sink and hand it on to `placeCard`; also have the recording sink store the snapshot it is given rather than call it, since consequences.ts:36 calls `f()` on the object literals `placeCard` passes | not executed | `RulesPlay.PlayAsWrittenThrowsHere` | `RulesPlay.Play` |
| game/src/ai/compute-score.ts:17 | `computeScore` reads cards from `game.cards`. The worker runs the search on a bare `GameBase` (worker.ts:8-10), which has no `cards`, so backpropagation fails whenever the final board holds a card. | a one-cell board holding card 1, a 3 of player 0, at the end of a playout | read owner and value from the card table `cardSpecs`, which the worker receives | not executed | `GameBase.WorkerStateGetResult` | `GameBase.StateGetResult` |
| game/src/rules/can-play.ts:37 | can-play.ts:3 imports `dirToColRow` from place-card.ts, which does not export it (place-card.ts:158), so the import is `undefined` and canPlay fails whenever an arrow is played over a card. listMoves therefore fails whenever the player's deck holds an arrow and the board holds a card, and so do `checkEnd` and the search. | a one-cell board holding card 2, a 3 of player 0, and player 0's deck holding card 1, the up arrow | export `dirToColRow` from place-card.ts | not executed | `AiListMoves.ListMovesAsWrittenThrowsHere` | `RulesCanPlay.CanPlay` |
