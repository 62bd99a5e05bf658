/** The earlier clearing step (state-apply-effects.ts). It runs after the
    turn has already passed on, and only when the turn has come back to
    player 0. It then empties into the trash every line whose sum exceeds
    `maxSum`, columns first, then rows. It does not look at the state
    before the move. The source calls `stateSumRow`, `stateSumCol` and
    `stateGetCard`; here they are the board helpers of GameBase. */
module StateApplyEffects {
  import opened Types
  import opened GameBase
  import opened RulesProcessRowClears
  import Inventory

  lemma HotOnBoard(rules: Rules, board: Board)
    requires |board.cells| == rules.numCols * rules.numRows
    ensures RowsOnBoard(rules, HotRows(rules, board)) && ColsOnBoard(rules, HotCols(rules, board))
  {
    HotZonesSpec(rules, board);
    var rows, cols := HotRows(rules, board), HotCols(rules, board);
    assert forall i :: 0 <= i < |rows| ==> rows[i] in rows;
    assert forall i :: 0 <= i < |cols| ==> cols[i] in cols;
  }

  /** stateApplyEffects. When it is not player 0's turn the state comes back
      as it was. */
  function ApplyEffectsSpec(rules: Rules, s: GameState): (r: GameState)
    requires BoardShaped(rules, s)
    ensures BoardShaped(rules, r) && r.decks == s.decks && r.currentPlayer == s.currentPlayer
    ensures s.currentPlayer != 0 ==> r == s
  {
    if s.currentPlayer != 0 then s
    else
      var rowsToClear := HotRows(rules, s.board);
      var colsToClear := HotCols(rules, s.board);
      HotOnBoard(rules, s.board);
      if |rowsToClear| > 0 || |colsToClear| > 0 then
        ClearRows(rules, ClearCols(rules, s, colsToClear), rowsToClear)
      else s
  }

  /** stateApplyEffects as the source runs it: gather the hot rows, then the
      hot columns, then empty each cell of each, columns first. */
  method ApplyEffects(rules: Rules, s: GameState) returns (state: GameState)
    requires BoardShaped(rules, s)
    ensures state == ApplyEffectsSpec(rules, s)
  {
    if s.currentPlayer != 0 {
      return s;
    }
    var rowsToClear := [];
    var colsToClear := [];
    for row := 0 to rules.numRows
      invariant rowsToClear == HotRowsUpTo(rules, s.board, row)
    {
      var sum := BoardSumRow(rules, s.board, row);
      if sum > rules.maxSum {
        rowsToClear := rowsToClear + [row];
      }
    }
    for col := 0 to rules.numCols
      invariant colsToClear == HotColsUpTo(rules, s.board, col)
    {
      var sum := BoardSumCol(rules, s.board, col);
      if sum > rules.maxSum {
        colsToClear := colsToClear + [col];
      }
    }
    HotOnBoard(rules, s.board);
    state := s;
    if |rowsToClear| > 0 || |colsToClear| > 0 {
      state := ClearLines(rules, s, colsToClear, rowsToClear);
    }
  }

  // ---------------------------------------------------------------- properties

  /** Keeping the elements of `a` that `b` lists keeps all of `a` when `b`
      lists every one of them. */
  lemma {:induction false} CommonOfCovered(a: seq<int>, b: seq<int>)
    requires forall i :: 0 <= i < |a| ==> a[i] in b
    ensures Common(a, b) == a
  {
    if a != [] {
      var n := |a| - 1;
      CommonOfCovered(a[..n], b);
      assert a == a[..n] + [a[n]];
    }
  }

  /** On player 0's turn the earlier variant clears what processRowClears
      clears when the state before and the state after are the same: every
      hot line. */
  lemma ApplyEffectsIsSelfClear(rules: Rules, s: GameState)
    requires BoardShaped(rules, s) && s.currentPlayer == 0
    ensures ApplyEffectsSpec(rules, s) == ProcessRowClearsSpec(rules, s, s)
  {
    CommonOfCovered(HotRows(rules, s.board), HotRows(rules, s.board));
    CommonOfCovered(HotCols(rules, s.board), HotCols(rules, s.board));
  }

  /** On player 0's turn a cell ends empty exactly when its row or its column
      sums to more than `maxSum`; every other cell keeps its content. */
  lemma ApplyEffectsCells(rules: Rules, s: GameState, c: int, r: int)
    requires BoardShaped(rules, s) && s.currentPlayer == 0 && InBounds(rules, c, r)
    ensures BoardGetCell(rules, ApplyEffectsSpec(rules, s).board, c, r)
            == if RowSum(rules, s.board, r) > rules.maxSum || ColSum(rules, s.board, c) > rules.maxSum
               then Empty else BoardGetCell(rules, s.board, c, r)
  {
    ApplyEffectsIsSelfClear(rules, s);
    ProcessRowClearsCells(rules, s, s, c, r);
  }

  /** Clearing only moves cards from the board to the trash: no card is lost
      or duplicated, and the state stays well formed. */
  lemma ApplyEffectsConserves(rules: Rules, s: GameState)
    requires WellFormed(rules, s)
    ensures Inventory.StateBag(ApplyEffectsSpec(rules, s)) == Inventory.StateBag(s)
    ensures WellFormed(rules, ApplyEffectsSpec(rules, s))
    ensures Inventory.NoDup(s) ==> Inventory.NoDup(ApplyEffectsSpec(rules, s))
  {
    if s.currentPlayer == 0 {
      ApplyEffectsIsSelfClear(rules, s);
      ProcessRowClearsConserves(rules, s, s);
    }
  }

  /** A card on a cleared line, a card where a cleared row meets a cleared
      column included, ends in the trash exactly once. */
  lemma ApplyEffectsTrashesOnce(rules: Rules, s: GameState, c: int, r: int, x: CardId)
    requires WellFormed(rules, s) && Inventory.NoDup(s) && s.currentPlayer == 0
    requires InBounds(rules, c, r) && BoardGetCell(rules, s.board, c, r) == Occupied(x)
    requires RowSum(rules, s.board, r) > rules.maxSum || ColSum(rules, s.board, c) > rules.maxSum
    ensures x in ApplyEffectsSpec(rules, s).board.trashedCardIds
    ensures Inventory.StateBag(ApplyEffectsSpec(rules, s))[x] == 1
  {
    ApplyEffectsIsSelfClear(rules, s);
    ClearedCardIsTrashed(rules, s, s, c, r, x);
  }
}
