/** The clearing step (rules/process-row-clears.ts): a row or column is hot
    when its sum exceeds `maxSum`; the lines hot both before and after a
    move are emptied into the trash, columns first, then rows. */
module RulesProcessRowClears {
  import opened Types
  import opened GameBase
  import Inventory

  predicate BoardShaped(rules: Rules, s: GameState)
  {
    |s.board.cells| == rules.numCols * rules.numRows
  }

  // ---------------------------------------------------------------- hot zones

  /** The rows among `0 .. n-1` whose sum exceeds `maxSum`, in order. */
  function HotRowsUpTo(rules: Rules, board: Board, n: nat): seq<int>
    requires n <= rules.numRows && |board.cells| == rules.numCols * rules.numRows
  {
    if n == 0 then []
    else HotRowsUpTo(rules, board, n - 1) + (if RowSum(rules, board, n - 1) > rules.maxSum then [n - 1] else [])
  }

  /** The columns among `0 .. n-1` whose sum exceeds `maxSum`, in order. */
  function HotColsUpTo(rules: Rules, board: Board, n: nat): seq<int>
    requires n <= rules.numCols && |board.cells| == rules.numCols * rules.numRows
  {
    if n == 0 then []
    else HotColsUpTo(rules, board, n - 1) + (if ColSum(rules, board, n - 1) > rules.maxSum then [n - 1] else [])
  }

  function HotRows(rules: Rules, board: Board): seq<int>
    requires |board.cells| == rules.numCols * rules.numRows
  {
    HotRowsUpTo(rules, board, rules.numRows)
  }

  function HotCols(rules: Rules, board: Board): seq<int>
    requires |board.cells| == rules.numCols * rules.numRows
  {
    HotColsUpTo(rules, board, rules.numCols)
  }

  datatype HotZones = HotZones(hotRows: seq<int>, hotCols: seq<int>)

  /** computeHotZones: one pass over the rows, one over the columns. */
  method ComputeHotZones(rules: Rules, state: GameState) returns (zones: HotZones)
    requires BoardShaped(rules, state)
    ensures zones == HotZones(HotRows(rules, state.board), HotCols(rules, state.board))
  {
    zones := HotZones([], []);
    for row := 0 to rules.numRows
      invariant zones == HotZones(HotRowsUpTo(rules, state.board, row), [])
    {
      var sum := BoardSumRow(rules, state.board, row);
      if sum > rules.maxSum {
        zones := zones.(hotRows := zones.hotRows + [row]);
      }
    }
    for col := 0 to rules.numCols
      invariant zones == HotZones(HotRows(rules, state.board), HotColsUpTo(rules, state.board, col))
    {
      var sum := BoardSumCol(rules, state.board, col);
      if sum > rules.maxSum {
        zones := zones.(hotCols := zones.hotCols + [col]);
      }
    }
  }

  predicate StrictlyIncreasing(s: seq<int>)
  {
    forall i, j :: 0 <= i < j < |s| ==> s[i] < s[j]
  }

  /** A row is listed hot exactly when it is on the board and its sum
      exceeds `maxSum`; the list is ascending. */
  lemma {:induction false} HotRowsUpToSpec(rules: Rules, board: Board, n: nat)
    requires n <= rules.numRows && |board.cells| == rules.numCols * rules.numRows
    ensures forall x :: x in HotRowsUpTo(rules, board, n) <==> 0 <= x < n && RowSum(rules, board, x) > rules.maxSum
    ensures StrictlyIncreasing(HotRowsUpTo(rules, board, n))
  {
    if n > 0 {
      HotRowsUpToSpec(rules, board, n - 1);
      var prev := HotRowsUpTo(rules, board, n - 1);
      assert forall i :: 0 <= i < |prev| ==> prev[i] < n - 1 by {
        forall i | 0 <= i < |prev| ensures prev[i] < n - 1 {
          assert prev[i] in prev;
        }
      }
    }
  }

  /** A column is listed hot exactly when it is on the board and its sum
      exceeds `maxSum`; the list is ascending. */
  lemma {:induction false} HotColsUpToSpec(rules: Rules, board: Board, n: nat)
    requires n <= rules.numCols && |board.cells| == rules.numCols * rules.numRows
    ensures forall x :: x in HotColsUpTo(rules, board, n) <==> 0 <= x < n && ColSum(rules, board, x) > rules.maxSum
    ensures StrictlyIncreasing(HotColsUpTo(rules, board, n))
  {
    if n > 0 {
      HotColsUpToSpec(rules, board, n - 1);
      var prev := HotColsUpTo(rules, board, n - 1);
      assert forall i :: 0 <= i < |prev| ==> prev[i] < n - 1 by {
        forall i | 0 <= i < |prev| ensures prev[i] < n - 1 {
          assert prev[i] in prev;
        }
      }
    }
  }

  lemma HotZonesSpec(rules: Rules, board: Board)
    requires |board.cells| == rules.numCols * rules.numRows
    ensures forall r :: r in HotRows(rules, board) <==> 0 <= r < rules.numRows && RowSum(rules, board, r) > rules.maxSum
    ensures forall c :: c in HotCols(rules, board) <==> 0 <= c < rules.numCols && ColSum(rules, board, c) > rules.maxSum
    ensures StrictlyIncreasing(HotRows(rules, board)) && StrictlyIncreasing(HotCols(rules, board))
  {
    HotRowsUpToSpec(rules, board, rules.numRows);
    HotColsUpToSpec(rules, board, rules.numCols);
  }

  // ---------------------------------------------------------------- lines to clear

  /** The elements of `a` that also occur in `b`, in the order of `a`. */
  function Common(a: seq<int>, b: seq<int>): seq<int>
  {
    if a == [] then []
    else Common(a[..|a| - 1], b) + (if a[|a| - 1] in b then [a[|a| - 1]] else [])
  }

  lemma {:induction false} CommonMembers(a: seq<int>, b: seq<int>)
    ensures forall x :: x in Common(a, b) <==> x in a && x in b
  {
    if a != [] {
      var n := |a| - 1;
      CommonMembers(a[..n], b);
      assert a == a[..n] + [a[n]];
    }
  }

  lemma {:induction false} CommonIncreasing(a: seq<int>, b: seq<int>)
    requires StrictlyIncreasing(a)
    ensures StrictlyIncreasing(Common(a, b))
  {
    if a != [] {
      var n := |a| - 1;
      CommonIncreasing(a[..n], b);
      CommonMembers(a[..n], b);
      var prev := Common(a[..n], b);
      forall i | 0 <= i < |prev| ensures prev[i] < a[n] {
        assert prev[i] in prev;
        var k :| 0 <= k < n && a[..n][k] == prev[i];
        assert a[k] == prev[i];
      }
    }
  }

  lemma CommonSpec(a: seq<int>, b: seq<int>)
    ensures forall x :: x in Common(a, b) <==> x in a && x in b
    ensures StrictlyIncreasing(a) ==> StrictlyIncreasing(Common(a, b))
  {
    CommonMembers(a, b);
    if StrictlyIncreasing(a) {
      CommonIncreasing(a, b);
    }
  }

  /** The rows emptied by a move: hot after it and already hot before. */
  function RowsToClear(rules: Rules, oldState: GameState, newState: GameState): seq<int>
    requires BoardShaped(rules, oldState) && BoardShaped(rules, newState)
  {
    Common(HotRows(rules, newState.board), HotRows(rules, oldState.board))
  }

  function ColsToClear(rules: Rules, oldState: GameState, newState: GameState): seq<int>
    requires BoardShaped(rules, oldState) && BoardShaped(rules, newState)
  {
    Common(HotCols(rules, newState.board), HotCols(rules, oldState.board))
  }

  /** Exactly the lines hot in both states are cleared; the lists are
      ascending. */
  lemma ToClearSpec(rules: Rules, oldState: GameState, newState: GameState)
    requires BoardShaped(rules, oldState) && BoardShaped(rules, newState)
    ensures forall r :: r in RowsToClear(rules, oldState, newState) <==>
              0 <= r < rules.numRows && RowSum(rules, newState.board, r) > rules.maxSum
              && RowSum(rules, oldState.board, r) > rules.maxSum
    ensures forall c :: c in ColsToClear(rules, oldState, newState) <==>
              0 <= c < rules.numCols && ColSum(rules, newState.board, c) > rules.maxSum
              && ColSum(rules, oldState.board, c) > rules.maxSum
    ensures StrictlyIncreasing(RowsToClear(rules, oldState, newState))
    ensures StrictlyIncreasing(ColsToClear(rules, oldState, newState))
  {
    HotZonesSpec(rules, newState.board);
    HotZonesSpec(rules, oldState.board);
    CommonSpec(HotRows(rules, newState.board), HotRows(rules, oldState.board));
    CommonSpec(HotCols(rules, newState.board), HotCols(rules, oldState.board));
  }

  // ---------------------------------------------------------------- clearing

  /** Trash the card on a cell (if the card table knows it) and empty the cell. */
  function ClearCell(rules: Rules, s: GameState, col: int, row: int): (r: GameState)
    requires BoardShaped(rules, s) && InBounds(rules, col, row)
    ensures BoardShaped(rules, r) && r.decks == s.decks && r.currentPlayer == s.currentPlayer
  {
    var card := BoardGetCard(rules, s.board, col, row);
    var trashed := if card.Some? then BoardTrashCard(s.board, card.value) else s.board;
    s.(board := BoardSetCard(rules, trashed, Placement(col, row), None))
  }

  /** Clear rows `from .. numRows-1` of column `col`, top to bottom. */
  function ClearColumn(rules: Rules, s: GameState, col: int, from: nat): (r: GameState)
    requires BoardShaped(rules, s) && 0 <= col < rules.numCols && from <= rules.numRows
    ensures BoardShaped(rules, r) && r.decks == s.decks && r.currentPlayer == s.currentPlayer
    decreases rules.numRows - from
  {
    if from == rules.numRows then s else ClearColumn(rules, ClearCell(rules, s, col, from), col, from + 1)
  }

  /** Clear columns `from .. numCols-1` of row `row`, left to right. */
  function ClearRow(rules: Rules, s: GameState, row: int, from: nat): (r: GameState)
    requires BoardShaped(rules, s) && 0 <= row < rules.numRows && from <= rules.numCols
    ensures BoardShaped(rules, r) && r.decks == s.decks && r.currentPlayer == s.currentPlayer
    decreases rules.numCols - from
  {
    if from == rules.numCols then s else ClearRow(rules, ClearCell(rules, s, from, row), row, from + 1)
  }

  predicate ColsOnBoard(rules: Rules, cols: seq<int>)
  {
    forall i :: 0 <= i < |cols| ==> 0 <= cols[i] < rules.numCols
  }

  predicate RowsOnBoard(rules: Rules, rows: seq<int>)
  {
    forall i :: 0 <= i < |rows| ==> 0 <= rows[i] < rules.numRows
  }

  /** Clear every listed column, in list order. */
  function ClearCols(rules: Rules, s: GameState, cols: seq<int>): (r: GameState)
    requires BoardShaped(rules, s) && ColsOnBoard(rules, cols)
    ensures BoardShaped(rules, r) && r.decks == s.decks && r.currentPlayer == s.currentPlayer
  {
    if cols == [] then s
    else ClearColumn(rules, ClearCols(rules, s, cols[..|cols| - 1]), cols[|cols| - 1], 0)
  }

  /** Clear every listed row, in list order. */
  function ClearRows(rules: Rules, s: GameState, rows: seq<int>): (r: GameState)
    requires BoardShaped(rules, s) && RowsOnBoard(rules, rows)
    ensures BoardShaped(rules, r) && r.decks == s.decks && r.currentPlayer == s.currentPlayer
  {
    if rows == [] then s
    else ClearRow(rules, ClearRows(rules, s, rows[..|rows| - 1]), rows[|rows| - 1], 0)
  }

  lemma ToClearOnBoard(rules: Rules, oldState: GameState, newState: GameState)
    requires BoardShaped(rules, oldState) && BoardShaped(rules, newState)
    ensures RowsOnBoard(rules, RowsToClear(rules, oldState, newState))
    ensures ColsOnBoard(rules, ColsToClear(rules, oldState, newState))
  {
    ToClearSpec(rules, oldState, newState);
    var rows, cols := RowsToClear(rules, oldState, newState), ColsToClear(rules, oldState, newState);
    assert forall i :: 0 <= i < |rows| ==> rows[i] in rows;
    assert forall i :: 0 <= i < |cols| ==> cols[i] in cols;
  }

  /** processRowClears: the state after the move with every line that was
      hot before and is hot after emptied into the trash. */
  function ProcessRowClearsSpec(rules: Rules, oldState: GameState, newState: GameState): (r: GameState)
    requires BoardShaped(rules, oldState) && BoardShaped(rules, newState)
    ensures BoardShaped(rules, r) && r.decks == newState.decks && r.currentPlayer == newState.currentPlayer
  {
    var rowsToClear := RowsToClear(rules, oldState, newState);
    var colsToClear := ColsToClear(rules, oldState, newState);
    ToClearOnBoard(rules, oldState, newState);
    if |rowsToClear| > 0 || |colsToClear| > 0 then
      ClearRows(rules, ClearCols(rules, newState, colsToClear), rowsToClear)
    else newState
  }

  /** The filter loop of processRowClears: keep the lines of `a` that `b`
      also lists (`indexOf != -1`). */
  method KeepCommon(a: seq<int>, b: seq<int>) returns (kept: seq<int>)
    ensures kept == Common(a, b)
  {
    kept := [];
    for i := 0 to |a|
      invariant kept == Common(a[..i], b)
    {
      assert a[..i + 1][..i] == a[..i];
      if a[i] in b {
        kept := kept + [a[i]];
      }
    }
    assert a[..|a|] == a;
  }

  /** The inner loop over one column: trash each card, empty each cell. */
  method ClearColumnLoop(rules: Rules, s: GameState, col: int) returns (state: GameState)
    requires BoardShaped(rules, s) && 0 <= col < rules.numCols
    ensures state == ClearColumn(rules, s, col, 0)
  {
    var n := rules.numCols * rules.numRows;
    state := s;
    for row := 0 to rules.numRows
      invariant BoardShaped(rules, state)
      invariant ClearColumn(rules, state, col, row) == ClearColumn(rules, s, col, 0)
    {
      var card := BoardGetCard(rules, state.board, col, row);
      if card.Some? {
        state := StateTransformBoard(state, (b: Board) => BoardTrashCard(b, card.value));
      }
      state := StateTransformBoard(state, (b: Board) requires |b.cells| == n => BoardSetCard(rules, b, Placement(col, row), None));
    }
  }

  /** The inner loop over one row: trash each card, empty each cell. */
  method ClearRowLoop(rules: Rules, s: GameState, row: int) returns (state: GameState)
    requires BoardShaped(rules, s) && 0 <= row < rules.numRows
    ensures state == ClearRow(rules, s, row, 0)
  {
    var n := rules.numCols * rules.numRows;
    state := s;
    for col := 0 to rules.numCols
      invariant BoardShaped(rules, state)
      invariant ClearRow(rules, state, row, col) == ClearRow(rules, s, row, 0)
    {
      var card := BoardGetCard(rules, state.board, col, row);
      if card.Some? {
        state := StateTransformBoard(state, (b: Board) => BoardTrashCard(b, card.value));
      }
      state := StateTransformBoard(state, (b: Board) requires |b.cells| == n => BoardSetCard(rules, b, Placement(col, row), None));
    }
  }

  /** The two clearing loops of processRowClears: every listed column, then
      every listed row. */
  method ClearLines(rules: Rules, s: GameState, cols: seq<int>, rows: seq<int>) returns (state: GameState)
    requires BoardShaped(rules, s) && ColsOnBoard(rules, cols) && RowsOnBoard(rules, rows)
    ensures state == ClearRows(rules, ClearCols(rules, s, cols), rows)
  {
    state := s;
    for ci := 0 to |cols|
      invariant state == ClearCols(rules, s, cols[..ci])
    {
      assert cols[..ci + 1][..ci] == cols[..ci];
      state := ClearColumnLoop(rules, state, cols[ci]);
    }
    assert cols[..|cols|] == cols;
    ghost var afterCols := state;
    for ri := 0 to |rows|
      invariant state == ClearRows(rules, afterCols, rows[..ri])
    {
      assert rows[..ri + 1][..ri] == rows[..ri];
      state := ClearRowLoop(rules, state, rows[ri]);
    }
    assert rows[..|rows|] == rows;
  }

  /** processRowClears as the source runs it: gather the common hot lines,
      then empty each cell of each, columns first. */
  method ProcessRowClears(rules: Rules, oldState: GameState, newState: GameState) returns (state: GameState)
    requires BoardShaped(rules, oldState) && BoardShaped(rules, newState)
    ensures state == ProcessRowClearsSpec(rules, oldState, newState)
  {
    var oldZones := ComputeHotZones(rules, oldState);
    var newZones := ComputeHotZones(rules, newState);
    var rowsToClear := KeepCommon(newZones.hotRows, oldZones.hotRows);
    var colsToClear := KeepCommon(newZones.hotCols, oldZones.hotCols);
    assert rowsToClear == RowsToClear(rules, oldState, newState);
    assert colsToClear == ColsToClear(rules, oldState, newState);
    ToClearOnBoard(rules, oldState, newState);
    if |rowsToClear| > 0 || |colsToClear| > 0 {
      state := ClearLines(rules, newState, colsToClear, rowsToClear);
    } else {
      state := newState;
    }
  }

  // ---------------------------------------------------------------- what clearing does

  /** Clearing a cell empties it and no other; the trash grows by the card
      it held, if the card table knows it. */
  lemma ClearCellEffect(rules: Rules, s: GameState, col: int, row: int, c: int, r: int)
    requires BoardShaped(rules, s) && InBounds(rules, col, row) && InBounds(rules, c, r)
    ensures BoardGetCell(rules, ClearCell(rules, s, col, row).board, c, r)
            == if c == col && r == row then Empty else BoardGetCell(rules, s.board, c, r)
    ensures ClearCell(rules, s, col, row).board.trashedCardIds
            == s.board.trashedCardIds + (var card := BoardGetCard(rules, s.board, col, row);
                                         if card.Some? then [card.value] else [])
  {
    var card := BoardGetCard(rules, s.board, col, row);
    var trashed := if card.Some? then BoardTrashCard(s.board, card.value) else s.board;
    BoardSetCardGet(rules, trashed, Placement(col, row), None, c, r);
  }

  lemma {:induction false} ClearColumnEffect(rules: Rules, s: GameState, col: int, from: nat, c: int, r: int)
    requires BoardShaped(rules, s) && 0 <= col < rules.numCols && from <= rules.numRows && InBounds(rules, c, r)
    ensures BoardGetCell(rules, ClearColumn(rules, s, col, from).board, c, r)
            == if c == col && from <= r then Empty else BoardGetCell(rules, s.board, c, r)
    decreases rules.numRows - from
  {
    if from < rules.numRows {
      ClearCellEffect(rules, s, col, from, c, r);
      ClearColumnEffect(rules, ClearCell(rules, s, col, from), col, from + 1, c, r);
    }
  }

  lemma {:induction false} ClearRowEffect(rules: Rules, s: GameState, row: int, from: nat, c: int, r: int)
    requires BoardShaped(rules, s) && 0 <= row < rules.numRows && from <= rules.numCols && InBounds(rules, c, r)
    ensures BoardGetCell(rules, ClearRow(rules, s, row, from).board, c, r)
            == if r == row && from <= c then Empty else BoardGetCell(rules, s.board, c, r)
    decreases rules.numCols - from
  {
    if from < rules.numCols {
      ClearCellEffect(rules, s, from, row, c, r);
      ClearRowEffect(rules, ClearCell(rules, s, from, row), row, from + 1, c, r);
    }
  }

  lemma {:induction false} ClearColsEffect(rules: Rules, s: GameState, cols: seq<int>, c: int, r: int)
    requires BoardShaped(rules, s) && ColsOnBoard(rules, cols) && InBounds(rules, c, r)
    ensures BoardGetCell(rules, ClearCols(rules, s, cols).board, c, r)
            == if c in cols then Empty else BoardGetCell(rules, s.board, c, r)
  {
    if cols != [] {
      var n := |cols| - 1;
      assert cols == cols[..n] + [cols[n]];
      ClearColsEffect(rules, s, cols[..n], c, r);
      ClearColumnEffect(rules, ClearCols(rules, s, cols[..n]), cols[n], 0, c, r);
    }
  }

  lemma {:induction false} ClearRowsEffect(rules: Rules, s: GameState, rows: seq<int>, c: int, r: int)
    requires BoardShaped(rules, s) && RowsOnBoard(rules, rows) && InBounds(rules, c, r)
    ensures BoardGetCell(rules, ClearRows(rules, s, rows).board, c, r)
            == if r in rows then Empty else BoardGetCell(rules, s.board, c, r)
  {
    if rows != [] {
      var n := |rows| - 1;
      assert rows == rows[..n] + [rows[n]];
      ClearRowsEffect(rules, s, rows[..n], c, r);
      ClearRowEffect(rules, ClearRows(rules, s, rows[..n]), rows[n], 0, c, r);
    }
  }

  /** After processRowClears a cell is empty when its row or its column was
      hot both before and after the move; every other cell is as the move
      left it. */
  lemma ProcessRowClearsCells(rules: Rules, oldState: GameState, newState: GameState, c: int, r: int)
    requires BoardShaped(rules, oldState) && BoardShaped(rules, newState) && InBounds(rules, c, r)
    ensures BoardGetCell(rules, ProcessRowClearsSpec(rules, oldState, newState).board, c, r)
            == if (RowSum(rules, newState.board, r) > rules.maxSum && RowSum(rules, oldState.board, r) > rules.maxSum)
                  || (ColSum(rules, newState.board, c) > rules.maxSum && ColSum(rules, oldState.board, c) > rules.maxSum)
               then Empty else BoardGetCell(rules, newState.board, c, r)
  {
    ToClearSpec(rules, oldState, newState);
    ToClearOnBoard(rules, oldState, newState);
    var rows := RowsToClear(rules, oldState, newState);
    var cols := ColsToClear(rules, oldState, newState);
    if |rows| > 0 || |cols| > 0 {
      ClearColsEffect(rules, newState, cols, c, r);
      ClearRowsEffect(rules, ClearCols(rules, newState, cols), rows, c, r);
    }
  }

  /** When no line is hot both before and after, the move's state stands. */
  lemma NothingHotTwice(rules: Rules, oldState: GameState, newState: GameState)
    requires BoardShaped(rules, oldState) && BoardShaped(rules, newState)
    requires forall r :: 0 <= r < rules.numRows ==>
               !(RowSum(rules, newState.board, r) > rules.maxSum && RowSum(rules, oldState.board, r) > rules.maxSum)
    requires forall c :: 0 <= c < rules.numCols ==>
               !(ColSum(rules, newState.board, c) > rules.maxSum && ColSum(rules, oldState.board, c) > rules.maxSum)
    ensures ProcessRowClearsSpec(rules, oldState, newState) == newState
  {
    ToClearSpec(rules, oldState, newState);
    NoMemberIsEmpty(RowsToClear(rules, oldState, newState));
    NoMemberIsEmpty(ColsToClear(rules, oldState, newState));
  }

  lemma NoMemberIsEmpty(s: seq<int>)
    requires forall x :: x !in s
    ensures s == []
  {
    if s != [] {
      var y := s[0];
      var listed := y in s;
      assert false;
    }
  }

  // ---------------------------------------------------------------- conservation

  /** The ids on the board and in its trash. */
  function BoardBag(b: Board): multiset<CardId>
  {
    Inventory.CellsBag(b.cells) + multiset(b.trashedCardIds)
  }

  /** Two states with the same decks and the same board bag hold the same ids. */
  lemma SameBoardBag(s: GameState, t: GameState)
    requires |s.decks| == 2 && s.decks == t.decks && BoardBag(s.board) == BoardBag(t.board)
    ensures Inventory.StateBag(s) == Inventory.StateBag(t)
  {
    var d := Inventory.CellsBag(s.decks[0].cells) + Inventory.CellsBag(s.decks[1].cells);
    forall x ensures Inventory.StateBag(s)[x] == Inventory.StateBag(t)[x] {
      assert Inventory.StateBag(s)[x] == d[x] + BoardBag(s.board)[x];
      assert Inventory.StateBag(t)[x] == d[x] + BoardBag(t.board)[x];
    }
  }

  /** Emptying a cell and trashing what it held keeps the bag of ids. */
  lemma EmptyCellIntoTrash(cells: seq<Cell>, idx: nat, t: seq<CardId>, card: Option<CardId>)
    requires idx < |cells|
    requires cells[idx] == (if card.Some? then Occupied(card.value) else Empty)
    ensures Inventory.CellsBag(cells[idx := Empty]) + multiset(t + (if card.Some? then [card.value] else []))
            == Inventory.CellsBag(cells) + multiset(t)
  {
    Inventory.CellsBagUpdate(cells, idx, Empty);
    var after := Inventory.CellsBag(cells[idx := Empty]);
    if card.Some? {
      var v := card.value;
      assert Inventory.CellBag(cells[idx]) == multiset{v};
      assert Inventory.CellBag(Empty) == multiset{};
      assert multiset(t + [v]) == multiset(t) + multiset{v};
      forall x ensures (after + multiset(t + [v]))[x] == (Inventory.CellsBag(cells) + multiset(t))[x] {
        assert (after + multiset{v})[x] == (Inventory.CellsBag(cells) + multiset{})[x];
      }
    } else {
      assert cells[idx := Empty] == cells;
      assert t + [] == t;
    }
  }

  /** Clearing a cell moves its card from the board to the trash: the bag
      of ids is unchanged, and the board keeps holding known ids. */
  lemma ClearCellConserves(rules: Rules, s: GameState, col: int, row: int)
    requires BoardShaped(rules, s) && InBounds(rules, col, row)
    requires KnownCells(rules, s.board.cells)
    ensures BoardBag(ClearCell(rules, s, col, row).board) == BoardBag(s.board)
    ensures KnownCells(rules, ClearCell(rules, s, col, row).board.cells)
  {
    var r := ClearCell(rules, s, col, row);
    var idx := CellIndex(rules, col, row);
    var card := BoardGetCard(rules, s.board, col, row);
    var trashed := if card.Some? then BoardTrashCard(s.board, card.value) else s.board;
    BoardSetCardCells(rules, trashed, Placement(col, row), None);
    assert r.board.cells == s.board.cells[idx := Empty];
    assert r.board.trashedCardIds == s.board.trashedCardIds + (if card.Some? then [card.value] else []);
    EmptyCellIntoTrash(s.board.cells, idx, s.board.trashedCardIds, card);
  }

  /** Clearing a column from row `from` down keeps the bag and known ids. */
  lemma {:induction false} ClearColumnConserves(rules: Rules, s: GameState, col: int, from: nat)
    requires BoardShaped(rules, s) && 0 <= col < rules.numCols && from <= rules.numRows
    requires KnownCells(rules, s.board.cells)
    ensures BoardBag(ClearColumn(rules, s, col, from).board) == BoardBag(s.board)
    ensures KnownCells(rules, ClearColumn(rules, s, col, from).board.cells)
    decreases rules.numRows - from
  {
    if from < rules.numRows {
      ClearCellConserves(rules, s, col, from);
      ClearColumnConserves(rules, ClearCell(rules, s, col, from), col, from + 1);
    }
  }

  /** Clearing a row from column `from` rightwards keeps the bag and known ids. */
  lemma {:induction false} ClearRowConserves(rules: Rules, s: GameState, row: int, from: nat)
    requires BoardShaped(rules, s) && 0 <= row < rules.numRows && from <= rules.numCols
    requires KnownCells(rules, s.board.cells)
    ensures BoardBag(ClearRow(rules, s, row, from).board) == BoardBag(s.board)
    ensures KnownCells(rules, ClearRow(rules, s, row, from).board.cells)
    decreases rules.numCols - from
  {
    if from < rules.numCols {
      ClearCellConserves(rules, s, from, row);
      ClearRowConserves(rules, ClearCell(rules, s, from, row), row, from + 1);
    }
  }

  lemma {:induction false} ClearColsConserves(rules: Rules, s: GameState, cols: seq<int>)
    requires BoardShaped(rules, s) && ColsOnBoard(rules, cols)
    requires KnownCells(rules, s.board.cells)
    ensures BoardBag(ClearCols(rules, s, cols).board) == BoardBag(s.board)
    ensures KnownCells(rules, ClearCols(rules, s, cols).board.cells)
  {
    if cols != [] {
      var n := |cols| - 1;
      var prev := ClearCols(rules, s, cols[..n]);
      ClearColsConserves(rules, s, cols[..n]);
      ClearColumnConserves(rules, prev, cols[n], 0);
    }
  }

  lemma {:induction false} ClearRowsConserves(rules: Rules, s: GameState, rows: seq<int>)
    requires BoardShaped(rules, s) && RowsOnBoard(rules, rows)
    requires KnownCells(rules, s.board.cells)
    ensures BoardBag(ClearRows(rules, s, rows).board) == BoardBag(s.board)
    ensures KnownCells(rules, ClearRows(rules, s, rows).board.cells)
  {
    if rows != [] {
      var n := |rows| - 1;
      var prev := ClearRows(rules, s, rows[..n]);
      ClearRowsConserves(rules, s, rows[..n]);
      ClearRowConserves(rules, prev, rows[n], 0);
    }
  }

  /** processRowClears only moves cards from the board to the trash: no card
      is lost or duplicated, and the state stays well formed. */
  lemma ProcessRowClearsConserves(rules: Rules, oldState: GameState, newState: GameState)
    requires BoardShaped(rules, oldState) && WellFormed(rules, newState)
    ensures Inventory.StateBag(ProcessRowClearsSpec(rules, oldState, newState)) == Inventory.StateBag(newState)
    ensures WellFormed(rules, ProcessRowClearsSpec(rules, oldState, newState))
    ensures Inventory.NoDup(newState) ==> Inventory.NoDup(ProcessRowClearsSpec(rules, oldState, newState))
  {
    ToClearOnBoard(rules, oldState, newState);
    var rows := RowsToClear(rules, oldState, newState);
    var cols := ColsToClear(rules, oldState, newState);
    if |rows| > 0 || |cols| > 0 {
      ClearColsConserves(rules, newState, cols);
      ClearRowsConserves(rules, ClearCols(rules, newState, cols), rows);
    }
    SameBoardBag(ProcessRowClearsSpec(rules, oldState, newState), newState);
  }

  /** Two cells holding the same id count it twice. */
  lemma TwiceInCells(cells: seq<Cell>, i: nat, j: nat, x: CardId)
    requires i < |cells| && j < |cells| && i != j
    requires cells[i] == Occupied(x) && cells[j] == Occupied(x)
    ensures Inventory.CellsBag(cells)[x] >= 2
  {
    Inventory.CellsBagUpdate(cells, i, Empty);
    var rest := cells[i := Empty];
    assert rest[j] == Occupied(x);
    Inventory.CellsBagHas(rest, x);
    assert (Inventory.CellsBag(rest) + Inventory.CellBag(cells[i]))[x] == Inventory.CellsBag(rest)[x] + 1;
  }

  /** In a state where every card is in one place, a card on a cleared line
      ends in the trash, exactly once. */
  lemma ClearedCardIsTrashed(rules: Rules, oldState: GameState, newState: GameState, c: int, r: int, x: CardId)
    requires BoardShaped(rules, oldState) && WellFormed(rules, newState) && Inventory.NoDup(newState)
    requires InBounds(rules, c, r) && BoardGetCell(rules, newState.board, c, r) == Occupied(x)
    requires (RowSum(rules, newState.board, r) > rules.maxSum && RowSum(rules, oldState.board, r) > rules.maxSum)
             || (ColSum(rules, newState.board, c) > rules.maxSum && ColSum(rules, oldState.board, c) > rules.maxSum)
    ensures x in ProcessRowClearsSpec(rules, oldState, newState).board.trashedCardIds
    ensures Inventory.StateBag(ProcessRowClearsSpec(rules, oldState, newState))[x] == 1
  {
    var fin := ProcessRowClearsSpec(rules, oldState, newState);
    ProcessRowClearsConserves(rules, oldState, newState);
    var cells := newState.board.cells;
    var idx := CellIndex(rules, c, r);
    assert Occupied(x) in cells by { assert cells[idx] == Occupied(x); }
    Inventory.CellsBagHas(cells, x);
    var d0 := Inventory.CellsBag(newState.decks[0].cells);
    var d1 := Inventory.CellsBag(newState.decks[1].cells);
    var bd := Inventory.CellsBag(cells);
    var tr := multiset(newState.board.trashedCardIds);
    assert Inventory.StateBag(newState)[x] == d0[x] + d1[x] + bd[x] + tr[x];
    assert Inventory.StateBag(newState)[x] == 1;
    assert d0[x] == 0 && d1[x] == 0 && bd[x] == 1;
    var fbd := Inventory.CellsBag(fin.board.cells);
    assert fbd[x] == 0 by {
      if x in fbd {
        Inventory.CellsBagHas(fin.board.cells, x);
        var k :| 0 <= k < |fin.board.cells| && fin.board.cells[k] == Occupied(x);
        var pos := PositionOf(rules, k);
        ProcessRowClearsCells(rules, oldState, newState, pos.0, pos.1);
        ProcessRowClearsCells(rules, oldState, newState, c, r);
        CellIndexInjective(rules, c, r, pos.0, pos.1);
        assert cells[k] == Occupied(x);
        TwiceInCells(cells, idx, k, x);
        assert false;
      }
    }
    assert Inventory.StateBag(fin)[x] == d0[x] + d1[x] + fbd[x] + multiset(fin.board.trashedCardIds)[x];
  }
}
