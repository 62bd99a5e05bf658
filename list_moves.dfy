/** The moves the AI considers (ai/list-moves.ts): every card of a deck on
    every cell of the board, kept when canPlay allows it. */
module AiListMoves {
  import opened Types
  import opened GameBase
  import RulesCanPlay
  import Inventory
  import RulesProcessRowClears

  /** What listMoves needs: a board of the rules' shape, two decks, and a
      card table entry for every card of the listed deck. */
  predicate ListReady(rules: Rules, state: GameState, player: Player)
  {
    Shaped(rules, state) && KnownCells(rules, state.decks[player].cells)
  }

  /** The playable placements of card `id` in rows `0 .. n-1` of column `col`. */
  function CellMoves(rules: Rules, state: GameState, id: CardId, col: int, n: nat): seq<Move>
    requires |state.board.cells| == rules.numCols * rules.numRows && id in rules.cardSpecs
    requires 0 <= col < rules.numCols && n <= rules.numRows
  {
    if n == 0 then []
    else
      var m := Place(state.currentPlayer, id, Placement(col, n - 1));
      CellMoves(rules, state, id, col, n - 1) + (if RulesCanPlay.CanPlay(rules, state, m) then [m] else [])
  }

  /** The playable placements of card `id` in columns `0 .. n-1`. */
  function ColMoves(rules: Rules, state: GameState, id: CardId, n: nat): seq<Move>
    requires |state.board.cells| == rules.numCols * rules.numRows && id in rules.cardSpecs
    requires n <= rules.numCols
  {
    if n == 0 then []
    else ColMoves(rules, state, id, n - 1) + CellMoves(rules, state, id, n - 1, rules.numRows)
  }

  /** The playable placements of the cards held by `cells`, slot by slot. */
  function SlotMoves(rules: Rules, state: GameState, cells: seq<Cell>): seq<Move>
    requires |state.board.cells| == rules.numCols * rules.numRows && KnownCells(rules, cells)
  {
    if cells == [] then []
    else
      var c := cells[|cells| - 1];
      SlotMoves(rules, state, cells[..|cells| - 1])
      + (if c.Empty? then [] else ColMoves(rules, state, c.cardId, rules.numCols))
  }

  function ListMovesSpec(rules: Rules, state: GameState, player: Player): seq<Move>
    requires ListReady(rules, state, player)
  {
    SlotMoves(rules, state, state.decks[player].cells)
  }

  /** The two inner loops of listMoves: card `id` on every column, and in
      each column on every row. */
  method CardMoves(rules: Rules, state: GameState, id: CardId) returns (moves: seq<Move>)
    requires |state.board.cells| == rules.numCols * rules.numRows && id in rules.cardSpecs
    ensures moves == ColMoves(rules, state, id, rules.numCols)
  {
    moves := [];
    for col := 0 to rules.numCols
      invariant moves == ColMoves(rules, state, id, col)
    {
      ghost var beforeCol := moves;
      for row := 0 to rules.numRows
        invariant moves == beforeCol + CellMoves(rules, state, id, col, row)
      {
        var move := Place(state.currentPlayer, id, Placement(col, row));
        if RulesCanPlay.CanPlay(rules, state, move) {
          moves := moves + [move];
        }
      }
    }
  }

  /** listMoves: three nested loops, deck slots, then columns, then rows.
      The moves are made for the current player, whichever deck is read. */
  method ListMoves(rules: Rules, state: GameState, player: Player) returns (moves: seq<Move>)
    requires ListReady(rules, state, player)
    ensures moves == ListMovesSpec(rules, state, player)
  {
    var deck := state.decks[player];
    moves := [];
    for i := 0 to |deck.cells|
      invariant moves == SlotMoves(rules, state, deck.cells[..i])
    {
      assert deck.cells[..i + 1][..i] == deck.cells[..i];
      var deckCard := deck.cells[i];
      if deckCard.Empty? {
        continue;
      }
      var cardMoves := CardMoves(rules, state, deckCard.cardId);
      moves := moves + cardMoves;
    }
    assert deck.cells[..|deck.cells|] == deck.cells;
  }

  // ---------------------------------------------------------------- properties

  lemma {:induction false} CellMovesSpec(rules: Rules, state: GameState, id: CardId, col: int, n: nat)
    requires |state.board.cells| == rules.numCols * rules.numRows && id in rules.cardSpecs
    requires 0 <= col < rules.numCols && n <= rules.numRows
    ensures |CellMoves(rules, state, id, col, n)| <= n
    ensures forall m :: m in CellMoves(rules, state, id, col, n) <==>
      && m.Place? && m.player == state.currentPlayer && m.cardId == id
      && m.placement.col == col && 0 <= m.placement.row < n
      && RulesCanPlay.CanPlay(rules, state, m)
  {
    if n > 0 {
      CellMovesSpec(rules, state, id, col, n - 1);
    }
  }

  lemma {:induction false} ColMovesLength(rules: Rules, state: GameState, id: CardId, n: nat)
    requires |state.board.cells| == rules.numCols * rules.numRows && id in rules.cardSpecs
    requires n <= rules.numCols
    ensures |ColMoves(rules, state, id, n)| <= n * rules.numRows
  {
    if n > 0 {
      ColMovesLength(rules, state, id, n - 1);
      CellMovesSpec(rules, state, id, n - 1, rules.numRows);
      assert (n - 1) * rules.numRows + rules.numRows == n * rules.numRows;
    }
  }

  lemma {:induction false} ColMovesSpec(rules: Rules, state: GameState, id: CardId, n: nat)
    requires |state.board.cells| == rules.numCols * rules.numRows && id in rules.cardSpecs
    requires n <= rules.numCols
    ensures forall m :: m in ColMoves(rules, state, id, n) <==>
      && m.Place? && m.player == state.currentPlayer && m.cardId == id
      && 0 <= m.placement.col < n && 0 <= m.placement.row < rules.numRows
      && RulesCanPlay.CanPlay(rules, state, m)
  {
    if n > 0 {
      ColMovesSpec(rules, state, id, n - 1);
      CellMovesSpec(rules, state, id, n - 1, rules.numRows);
    }
  }

  lemma {:induction false} SlotMovesLength(rules: Rules, state: GameState, cells: seq<Cell>)
    requires |state.board.cells| == rules.numCols * rules.numRows && KnownCells(rules, cells)
    ensures |SlotMoves(rules, state, cells)| <= |cells| * (rules.numCols * rules.numRows)
  {
    if cells != [] {
      var n := |cells| - 1;
      var size := rules.numCols * rules.numRows;
      SlotMovesLength(rules, state, cells[..n]);
      var last := if cells[n].Empty? then [] else ColMoves(rules, state, cells[n].cardId, rules.numCols);
      if cells[n].Occupied? {
        ColMovesLength(rules, state, cells[n].cardId, rules.numCols);
      }
      LengthStep(|SlotMoves(rules, state, cells[..n])|, |last|, n, size);
    }
  }

  lemma LengthStep(a: nat, b: nat, n: nat, size: nat)
    requires a <= n * size && b <= size
    ensures a + b <= (n + 1) * size
  {
    assert (n + 1) * size == n * size + size;
  }

  lemma {:induction false} SlotMovesSpec(rules: Rules, state: GameState, cells: seq<Cell>)
    requires |state.board.cells| == rules.numCols * rules.numRows && KnownCells(rules, cells)
    ensures forall m :: m in SlotMoves(rules, state, cells) <==>
      && m.Place? && m.player == state.currentPlayer && Occupied(m.cardId) in cells
      && InBounds(rules, m.placement.col, m.placement.row)
      && RulesCanPlay.CanPlay(rules, state, m)
  {
    if cells != [] {
      var n := |cells| - 1;
      assert cells == cells[..n] + [cells[n]];
      SlotMovesSpec(rules, state, cells[..n]);
      if cells[n].Occupied? {
        ColMovesSpec(rules, state, cells[n].cardId, rules.numCols);
      }
    }
  }

  /** listMoves yields exactly the placements, by the current player, of a
      card of the listed deck on a cell of the board that canPlay allows;
      never a pass; and no more moves than deck slots times board cells. */
  lemma ListMovesMembers(rules: Rules, state: GameState, player: Player)
    requires ListReady(rules, state, player)
    ensures |ListMovesSpec(rules, state, player)| <= |state.decks[player].cells| * (rules.numCols * rules.numRows)
    ensures forall m :: m in ListMovesSpec(rules, state, player) <==>
      && m.Place? && m.player == state.currentPlayer && DeckHolds(state.decks[player], m.cardId)
      && InBounds(rules, m.placement.col, m.placement.row)
      && RulesCanPlay.CanPlay(rules, state, m)
  {
    SlotMovesLength(rules, state, state.decks[player].cells);
    SlotMovesSpec(rules, state, state.decks[player].cells);
  }

  /** No move occurs twice. */
  predicate NoRepeat(moves: seq<Move>)
  {
    forall i, j :: 0 <= i < j < |moves| ==> moves[i] != moves[j]
  }

  /** No card id sits in two slots. */
  predicate OnceInCells(cells: seq<Cell>)
  {
    forall i, j :: 0 <= i < j < |cells| && cells[i].Occupied? ==> cells[i] != cells[j]
  }

  lemma NoRepeatConcat(a: seq<Move>, b: seq<Move>)
    requires NoRepeat(a) && NoRepeat(b) && forall m :: m in a ==> m !in b
    ensures NoRepeat(a + b)
  {
    forall i, j | 0 <= i < j < |a + b| ensures (a + b)[i] != (a + b)[j] {
      if j < |a| {
        assert (a + b)[i] == a[i] && (a + b)[j] == a[j];
      } else if i >= |a| {
        assert (a + b)[i] == b[i - |a|] && (a + b)[j] == b[j - |a|];
      } else {
        assert (a + b)[i] == a[i] && (a + b)[j] == b[j - |a|] && a[i] in a;
      }
    }
  }

  /** One column lists each row at most once. */
  lemma {:induction false} CellMovesNoRepeat(rules: Rules, state: GameState, id: CardId, col: int, n: nat)
    requires |state.board.cells| == rules.numCols * rules.numRows && id in rules.cardSpecs
    requires 0 <= col < rules.numCols && n <= rules.numRows
    ensures NoRepeat(CellMoves(rules, state, id, col, n))
  {
    if n > 0 {
      CellMovesNoRepeat(rules, state, id, col, n - 1);
      CellMovesSpec(rules, state, id, col, n - 1);
      var m := Place(state.currentPlayer, id, Placement(col, n - 1));
      NoRepeatConcat(CellMoves(rules, state, id, col, n - 1), if RulesCanPlay.CanPlay(rules, state, m) then [m] else []);
    }
  }

  /** A card's moves are distinct placements. */
  lemma {:induction false} ColMovesNoRepeat(rules: Rules, state: GameState, id: CardId, n: nat)
    requires |state.board.cells| == rules.numCols * rules.numRows && id in rules.cardSpecs
    requires n <= rules.numCols
    ensures NoRepeat(ColMoves(rules, state, id, n))
  {
    if n > 0 {
      ColMovesNoRepeat(rules, state, id, n - 1);
      ColMovesSpec(rules, state, id, n - 1);
      CellMovesNoRepeat(rules, state, id, n - 1, rules.numRows);
      CellMovesSpec(rules, state, id, n - 1, rules.numRows);
      NoRepeatConcat(ColMoves(rules, state, id, n - 1), CellMoves(rules, state, id, n - 1, rules.numRows));
    }
  }

  /** With no card in two slots, the slots' moves are all distinct. */
  lemma {:induction false} SlotMovesNoRepeat(rules: Rules, state: GameState, cells: seq<Cell>)
    requires |state.board.cells| == rules.numCols * rules.numRows && KnownCells(rules, cells)
    requires OnceInCells(cells)
    ensures NoRepeat(SlotMoves(rules, state, cells))
  {
    if cells != [] {
      var n := |cells| - 1;
      var front := cells[..n];
      assert forall i :: 0 <= i < n ==> front[i] == cells[i];
      SlotMovesNoRepeat(rules, state, front);
      SlotMovesSpec(rules, state, front);
      if cells[n].Occupied? {
        var id := cells[n].cardId;
        ColMovesNoRepeat(rules, state, id, rules.numCols);
        ColMovesSpec(rules, state, id, rules.numCols);
        assert Occupied(id) !in front;
        NoRepeatConcat(SlotMoves(rules, state, front), ColMoves(rules, state, id, rules.numCols));
      } else {
        assert SlotMoves(rules, state, cells) == SlotMoves(rules, state, front) + [];
      }
    }
  }

  /** In a state where no card is in two places, listMoves never lists a
      move twice: at most one move per card of the deck and cell. */
  lemma ListMovesNoRepeat(rules: Rules, state: GameState, player: Player)
    requires ListReady(rules, state, player) && Inventory.NoDup(state)
    ensures NoRepeat(ListMovesSpec(rules, state, player))
  {
    DeckOnce(state, player);
    SlotMovesNoRepeat(rules, state, state.decks[player].cells);
  }

  /** A state with no card in two places has no card twice in a deck. */
  lemma DeckOnce(state: GameState, player: Player)
    requires |state.decks| == 2 && Inventory.NoDup(state)
    ensures OnceInCells(state.decks[player].cells)
  {
    var cells := state.decks[player].cells;
    forall i, j | 0 <= i < j < |cells| && cells[i].Occupied? ensures cells[i] != cells[j] {
      DeckBagOnce(state, player, cells[i].cardId);
      if cells[i] == cells[j] {
        RulesProcessRowClears.TwiceInCells(cells, i, j, cells[i].cardId);
        assert false;
      }
    }
  }

  lemma DeckBagOnce(state: GameState, player: Player, x: CardId)
    requires |state.decks| == 2 && Inventory.NoDup(state)
    ensures Inventory.CellsBag(state.decks[player].cells)[x] <= 1
  {
    var bag := Inventory.StateBag(state);
    assert bag[x] == Inventory.CellsBag(state.decks[0].cells)[x] + Inventory.CellsBag(state.decks[1].cells)[x]
      + Inventory.CellsBag(state.board.cells)[x] + multiset(state.board.trashedCardIds)[x];
    if x in bag {
      assert bag[x] == 1;
    }
  }

  /** A deck without cards has no moves. */
  lemma EmptyDeckHasNoMoves(rules: Rules, state: GameState, player: Player)
    requires ListReady(rules, state, player)
    requires forall i :: 0 <= i < |state.decks[player].cells| ==> state.decks[player].cells[i] == Empty
    ensures ListMovesSpec(rules, state, player) == []
  {
    EmptySlotsNoMoves(rules, state, state.decks[player].cells);
  }

  lemma {:induction false} EmptySlotsNoMoves(rules: Rules, state: GameState, cells: seq<Cell>)
    requires |state.board.cells| == rules.numCols * rules.numRows && KnownCells(rules, cells)
    requires forall i :: 0 <= i < |cells| ==> cells[i] == Empty
    ensures SlotMoves(rules, state, cells) == []
  {
    if cells != [] {
      EmptySlotsNoMoves(rules, state, cells[..|cells| - 1]);
    }
  }

  // ---------------------------------------------------------------- as written

  /** Some cell among columns `0 .. cols-1` of the board holds a known card. */
  predicate CardInColumns(rules: Rules, state: GameState, cols: nat)
    requires |state.board.cells| == rules.numCols * rules.numRows && cols <= rules.numCols
  {
    exists col, row :: 0 <= col < cols && 0 <= row < rules.numRows
      && BoardGetCard(rules, state.board, col, row).Some?
  }

  /** `CellMoves` with `CanPlayAsWritten`: the scan of one column fails as
      soon as one call fails, that is when the card is an arrow and one of
      the scanned cells holds a known card. */
  function CellMovesAsWritten(rules: Rules, state: GameState, id: CardId, col: int, n: nat): (r: Option<seq<Move>>)
    requires |state.board.cells| == rules.numCols * rules.numRows && id in rules.cardSpecs
    requires 0 <= col < rules.numCols && n <= rules.numRows
    ensures r.None? <==> rules.cardSpecs[id].value.Arrow?
                         && exists row :: 0 <= row < n && BoardGetCard(rules, state.board, col, row).Some?
    ensures r.Some? ==> r.value == CellMoves(rules, state, id, col, n)
  {
    if n == 0 then Some([])
    else
      var before := CellMovesAsWritten(rules, state, id, col, n - 1);
      var m := Place(state.currentPlayer, id, Placement(col, n - 1));
      var ok := RulesCanPlay.CanPlayAsWritten(rules, state, m);
      if before.None? || ok.None? then None
      else Some(before.value + (if ok.value then [m] else []))
  }

  /** `ColMoves` with `CanPlayAsWritten`. */
  function ColMovesAsWritten(rules: Rules, state: GameState, id: CardId, n: nat): (r: Option<seq<Move>>)
    requires |state.board.cells| == rules.numCols * rules.numRows && id in rules.cardSpecs
    requires n <= rules.numCols
    ensures r.None? <==> rules.cardSpecs[id].value.Arrow? && CardInColumns(rules, state, n)
    ensures r.Some? ==> r.value == ColMoves(rules, state, id, n)
  {
    if n == 0 then Some([])
    else
      var before := ColMovesAsWritten(rules, state, id, n - 1);
      var here := CellMovesAsWritten(rules, state, id, n - 1, rules.numRows);
      if before.None? || here.None? then None
      else Some(before.value + here.value)
  }

  /** `SlotMoves` with `CanPlayAsWritten`: listMoves fails when some slot
      holds an arrow while the board holds a known card. */
  function SlotMovesAsWritten(rules: Rules, state: GameState, cells: seq<Cell>): (r: Option<seq<Move>>)
    requires |state.board.cells| == rules.numCols * rules.numRows && KnownCells(rules, cells)
    ensures r.None? <==> CardInColumns(rules, state, rules.numCols)
                         && exists i :: 0 <= i < |cells| && cells[i].Occupied? && rules.cardSpecs[cells[i].cardId].value.Arrow?
    ensures r.Some? ==> r.value == SlotMoves(rules, state, cells)
  {
    if cells == [] then Some([])
    else
      var c := cells[|cells| - 1];
      var before := SlotMovesAsWritten(rules, state, cells[..|cells| - 1]);
      var here := if c.Empty? then Some([]) else ColMovesAsWritten(rules, state, c.cardId, rules.numCols);
      assert forall i :: 0 <= i < |cells| - 1 ==> cells[..|cells| - 1][i] == cells[i];
      if before.None? || here.None? then None
      else Some(before.value + here.value)
  }

  /** listMoves as written: it fails exactly when the listed deck
      holds an arrow and the board holds a known card; otherwise it lists
      the moves `ListMovesSpec` gives. */
  function ListMovesAsWritten(rules: Rules, state: GameState, player: Player): (r: Option<seq<Move>>)
    requires ListReady(rules, state, player)
    ensures r.None? <==> CardInColumns(rules, state, rules.numCols)
                         && exists i :: 0 <= i < |state.decks[player].cells| && state.decks[player].cells[i].Occupied?
                                        && rules.cardSpecs[state.decks[player].cells[i].cardId].value.Arrow?
    ensures r.Some? ==> r.value == ListMovesSpec(rules, state, player)
  {
    SlotMovesAsWritten(rules, state, state.decks[player].cells)
  }

  const ArrowRules := Rules(1, 1, 10, map[1 := CardSpec(0, Arrow(U)), 2 := CardSpec(0, Num(3))])
  const ArrowState := GameState(0, Board([Occupied(2)], []), [Deck([Occupied(1)]), Deck([])])

  /** Player 0 holds the arrow "U" while its 3 sits on the only cell: the
      corrected listMoves offers no move (the push would leave the board),
      while listMoves as written fails. */
  lemma ListMovesAsWrittenThrowsHere()
    ensures ListReady(ArrowRules, ArrowState, 0)
    ensures ListMovesSpec(ArrowRules, ArrowState, 0) == []
    ensures ListMovesAsWritten(ArrowRules, ArrowState, 0).None?
  {
    assert BoardGetCard(ArrowRules, ArrowState.board, 0, 0) == Some(2);
    assert CardInColumns(ArrowRules, ArrowState, 1);
    assert ArrowState.decks[0].cells[0].Occupied?;
    var m := Place(0, 1, Placement(0, 0));
    assert !RulesCanPlay.CanPlay(ArrowRules, ArrowState, m);
    assert CellMoves(ArrowRules, ArrowState, 1, 0, 1) == [];
    assert [Occupied(1)][..0] == [];
  }
}
