/** The placing step of a move (rules/place-card.ts): check that the card is
    in the current player's deck, then either put a number card on a cell
    (sending the card it covers back to the deck) or use an arrow card to
    swap the card under it with its neighbour.

    The source reads the covered card from the board of the game object,
    not from the state it is given; `ref` is that board. */
module RulesPlaceCard {
  import opened Types
  import opened GameBase
  import opened ConsequenceLog
  import Inventory

  // ---------------------------------------------------------------- directions

  /** dirToColRow on a direction letter; any other value has no offset
      (the source throws). */
  function DirToColRow(value: string): (r: Option<(int, int)>)
    ensures r.Some? <==> value == "L" || value == "R" || value == "U" || value == "D"
    ensures r.Some? ==> r.value.0 * r.value.0 + r.value.1 * r.value.1 == 1
  {
    if value == "L" then Some((-1, 0))
    else if value == "R" then Some((1, 0))
    else if value == "U" then Some((0, -1))
    else if value == "D" then Some((0, 1))
    else None
  }

  /** The letter an arrow card shows. */
  function DirName(d: Dir): string
  {
    match d
    case L => "L"
    case R => "R"
    case U => "U"
    case D => "D"
  }

  /** The column and row step of an arrow: one cell left, right, up (towards
      row 0) or down. */
  function Offset(d: Dir): (o: (int, int))
    ensures DirToColRow(DirName(d)) == Some(o)
    ensures o.0 * o.0 + o.1 * o.1 == 1
  {
    DirToColRow(DirName(d)).value
  }

  /** Opposite arrows undo each other, and distinct arrows point to
      distinct cells. */
  lemma OffsetsOpposite()
    ensures Offset(L).0 == -Offset(R).0 && Offset(L).1 == Offset(R).1 == 0
    ensures Offset(U).1 == -Offset(D).1 && Offset(U).0 == Offset(D).0 == 0
    ensures forall d1: Dir, d2: Dir :: Offset(d1) == Offset(d2) ==> d1 == d2
  {
    assert DirName(L) == "L" && DirName(R) == "R" && DirName(U) == "U" && DirName(D) == "D";
  }

  // ---------------------------------------------------------------- legality pieces

  /** A number card cannot cover a card of the other player, nor one of its
      own that is worth less. An arrow under the card never counts as worth
      less: the source compares a letter with a number, which is false. */
  predicate UnderBlocks(under: CardSpec, card: CardSpec)
  {
    under.player != card.player
    || (under.value.Num? && card.value.Num? && under.value.n < card.value.n)
  }

  /** Where an arrow at `at` pushes the covered card. */
  function Pushed(at: Placement, d: Dir): Placement
  {
    Placement(at.col + Offset(d).0, at.row + Offset(d).1)
  }

  /** The card the source finds under the placement. */
  function UnderCard(rules: Rules, ref: Board, move: Move): Option<CardId>
    requires move.Place? && InBounds(rules, move.placement.col, move.placement.row)
    requires |ref.cells| == rules.numCols * rules.numRows
  {
    BoardGetCard(rules, ref, move.placement.col, move.placement.row)
  }

  // ---------------------------------------------------------------- specification

  /** The result of placing: the new state, whether the move was taken, and
      the snapshots reported along the way. */
  datatype Placed = Placed(state: GameState, accepted: bool, snaps: seq<Snap>)

  /** What placeCard needs of its arguments: a state of the board's shape,
      a reference board of the same size, the placement on the board, and a
      card table entry for a card that is in the deck. */
  predicate PlaceReady(rules: Rules, ref: Board, prev: GameState, move: Move)
  {
    && Shaped(rules, prev)
    && |ref.cells| == rules.numCols * rules.numRows
    && (move.Place? ==>
          && InBounds(rules, move.placement.col, move.placement.row)
          && (DeckHolds(prev.decks[prev.currentPlayer], move.cardId) ==> move.cardId in rules.cardSpecs))
  }

  const SnapMillis := 500

  /** Number card: off the mover's deck, onto the cell; then any covered
      card into the mover's first free deck slot. */
  function NumericPlay(rules: Rules, prev: GameState, move: Move, under: Option<CardId>): (p: Placed)
    requires Shaped(rules, prev) && move.Place? && InBounds(rules, move.placement.col, move.placement.row)
    ensures Shaped(rules, p.state) && p.accepted
  {
    var s1 := StateTransformDeck(prev, move.player, (d: Deck) => Deck(CellsWithout(d.cells, move.cardId)));
    var s2 := StateTransformBoard(s1, (b: Board) requires |b.cells| == rules.numCols * rules.numRows =>
                BoardSetCard(rules, b, move.placement, Some(move.cardId)));
    if under.None? then
      Placed(s2, true, [Snap(s2, SnapMillis)])
    else
      var s3 := StateTransformDeck(s2, move.player, (d: Deck) => DeckWithCard(d, under.value));
      Placed(s3, true, [Snap(s2, SnapMillis), Snap(s3, SnapMillis)])
  }

  /** Arrow card: off the mover's deck and onto the cell; the cell then takes
      the neighbour's card (or nothing), the neighbour takes the covered
      card, and the arrow goes to the trash. */
  function ArrowPlay(rules: Rules, prev: GameState, move: Move, under: CardId, to: Placement): (p: Placed)
    requires Shaped(rules, prev) && move.Place? && InBounds(rules, move.placement.col, move.placement.row)
    requires InBounds(rules, to.col, to.row)
    ensures Shaped(rules, p.state) && p.accepted
  {
    var n := rules.numCols * rules.numRows;
    var s1 := StateTransformDeck(prev, move.player, (d: Deck) => Deck(CellsWithout(d.cells, move.cardId)));
    var s2 := StateTransformBoard(s1, (b: Board) requires |b.cells| == n => BoardSetCard(rules, b, move.placement, Some(move.cardId)));
    var neighbor := BoardGetCard(rules, s2.board, to.col, to.row);
    var s3 := StateTransformBoard(s2, (b: Board) requires |b.cells| == n => BoardSetCard(rules, b, move.placement, neighbor));
    var s4 := StateTransformBoard(s3, (b: Board) requires |b.cells| == n => BoardSetCard(rules, b, to, Some(under)));
    var s5 := StateTransformBoard(s4, (b: Board) => BoardTrashCard(b, move.cardId));
    Placed(s5, true, [Snap(s5, SnapMillis)])
  }

  /** placeCard. A pass is taken and changes nothing; a card missing from
      the current player's deck, or an illegal placement, is refused and
      changes nothing. */
  function PlaceSpec(rules: Rules, ref: Board, prev: GameState, move: Move): (p: Placed)
    requires PlaceReady(rules, ref, prev, move)
    ensures !p.accepted ==> p.state == prev && p.snaps == []
    ensures p.snaps != [] <==> p.accepted && move.Place?
    ensures p.state.currentPlayer == prev.currentPlayer
    ensures Shaped(rules, p.state)
  {
    if move.Pass? then Placed(prev, true, [])
    else if !DeckHolds(prev.decks[prev.currentPlayer], move.cardId) then Placed(prev, false, [])
    else
      var card := rules.cardSpecs[move.cardId];
      var under := UnderCard(rules, ref, move);
      match card.value
      case Num(_) =>
        if under.Some? && UnderBlocks(rules.cardSpecs[under.value], card) then Placed(prev, false, [])
        else NumericPlay(rules, prev, move, under)
      case Arrow(d) =>
        if under.None? then Placed(prev, false, [])
        else
          var to := Pushed(move.placement, d);
          if to.col < 0 then Placed(prev, false, [])
          else if to.col >= rules.numCols then Placed(prev, false, [])
          else if to.row < 0 then Placed(prev, false, [])
          else if to.row >= rules.numRows then Placed(prev, false, [])
          else ArrowPlay(rules, prev, move, under.value, to)
  }

  // ---------------------------------------------------------------- the method

  /** placeCard: scan the current player's deck for the card, then build the
      new state step by step, reporting snapshots to `cons`. */
  method PlaceCard(rules: Rules, ref: Board, prev: GameState, move: Move, cons: Consequences)
    returns (state: GameState, accepted: bool)
    requires PlaceReady(rules, ref, prev, move)
    modifies cons`snaps
    ensures state == PlaceSpec(rules, ref, prev, move).state
    ensures accepted == PlaceSpec(rules, ref, prev, move).accepted
    ensures cons.snaps == old(cons.snaps) + (if cons.recording then PlaceSpec(rules, ref, prev, move).snaps else [])
  {
    if move.Pass? {
      return prev, true;
    }

    var hasCard := DeckScan(prev.decks[prev.currentPlayer], move.cardId);
    if !hasCard {
      return prev, false;
    }

    var card := rules.cardSpecs[move.cardId];
    var underCard := BoardGetCard(rules, ref, move.placement.col, move.placement.row);
    if card.value.Num? {
      state, accepted := PlaceNumberMove(rules, ref, prev, move, underCard, cons);
    } else {
      state, accepted := PlaceArrowMove(rules, ref, prev, move, underCard, cons);
    }
  }

  /** The scan of the current player's deck for the card. */
  method DeckScan(currentDeck: Deck, cardId: CardId) returns (hasCard: bool)
    ensures hasCard == DeckHolds(currentDeck, cardId)
  {
    hasCard := false;
    var i := 0;
    while i < |currentDeck.cells|
      invariant 0 <= i <= |currentDeck.cells|
      invariant hasCard ==> DeckHolds(currentDeck, cardId)
      invariant !hasCard ==> forall j :: 0 <= j < i ==> currentDeck.cells[j] != Occupied(cardId)
    {
      if currentDeck.cells[i].Occupied? && currentDeck.cells[i].cardId == cardId {
        hasCard := true;
        break;
      }
      i := i + 1;
    }
  }

  /** placeCard for a number card in the deck: refuse to cover a card of the
      other player or a smaller number, otherwise play it. */
  method PlaceNumberMove(rules: Rules, ref: Board, prev: GameState, move: Move, underCard: Option<CardId>,
                         cons: Consequences)
    returns (state: GameState, accepted: bool)
    requires PlaceReady(rules, ref, prev, move) && move.Place?
    requires DeckHolds(prev.decks[prev.currentPlayer], move.cardId)
    requires rules.cardSpecs[move.cardId].value.Num?
    requires underCard == UnderCard(rules, ref, move)
    modifies cons`snaps
    ensures state == PlaceSpec(rules, ref, prev, move).state
    ensures accepted == PlaceSpec(rules, ref, prev, move).accepted
    ensures cons.snaps == old(cons.snaps) + (if cons.recording then PlaceSpec(rules, ref, prev, move).snaps else [])
  {
    var card := rules.cardSpecs[move.cardId];
    if underCard.Some? {
      if rules.cardSpecs[underCard.value].player != card.player {
        return prev, false;
      }
      var uv := rules.cardSpecs[underCard.value].value;
      if uv.Num? && uv.n < card.value.n {
        return prev, false;
      }
    }
    state := PlaceNumber(rules, prev, move, underCard, cons);
    return state, true;
  }

  /** placeCard for an arrow card in the deck: refuse when there is no card
      under it or the push leaves the board, otherwise play it. */
  method PlaceArrowMove(rules: Rules, ref: Board, prev: GameState, move: Move, underCard: Option<CardId>,
                        cons: Consequences)
    returns (state: GameState, accepted: bool)
    requires PlaceReady(rules, ref, prev, move) && move.Place?
    requires DeckHolds(prev.decks[prev.currentPlayer], move.cardId)
    requires rules.cardSpecs[move.cardId].value.Arrow?
    requires underCard == UnderCard(rules, ref, move)
    modifies cons`snaps
    ensures state == PlaceSpec(rules, ref, prev, move).state
    ensures accepted == PlaceSpec(rules, ref, prev, move).accepted
    ensures cons.snaps == old(cons.snaps) + (if cons.recording then PlaceSpec(rules, ref, prev, move).snaps else [])
  {
    var card := rules.cardSpecs[move.cardId];
    if underCard.None? {
      return prev, false;
    }
    var (dcol, drow) := Offset(card.value.dir);
    var (newCol, newRow) := (move.placement.col + dcol, move.placement.row + drow);
    if newCol < 0 {
      return prev, false;
    }
    if newCol >= rules.numCols {
      return prev, false;
    }
    if newRow < 0 {
      return prev, false;
    }
    if newRow >= rules.numRows {
      return prev, false;
    }
    state := PlaceArrow(rules, prev, move, underCard.value, Placement(newCol, newRow), cons);
    return state, true;
  }

  /** The number branch of placeCard once the move is legal: the card leaves
      the deck for the cell, and the covered card, if any, goes back to the
      deck. */
  method PlaceNumber(rules: Rules, prev: GameState, move: Move, underCard: Option<CardId>, cons: Consequences)
    returns (state: GameState)
    requires Shaped(rules, prev) && move.Place? && InBounds(rules, move.placement.col, move.placement.row)
    modifies cons`snaps
    ensures state == NumericPlay(rules, prev, move, underCard).state
    ensures cons.snaps == old(cons.snaps) + (if cons.recording then NumericPlay(rules, prev, move, underCard).snaps else [])
  {
    var n := rules.numCols * rules.numRows;
    state := prev;
    var deck := DeckRemoveCard(state.decks[move.player], move.cardId);
    state := StateTransformDeck(state, move.player, _ => deck);
    state := StateTransformBoard(state, (b: Board) requires |b.cells| == n => BoardSetCard(rules, b, move.placement, Some(move.cardId)));
    ghost var s2 := state;
    cons.Snapshot(Snap(state, SnapMillis));
    if underCard.Some? {
      var deck2 := DeckAddCard(state.decks[move.player], underCard.value);
      state := StateTransformDeck(state, move.player, _ => deck2);
      cons.Snapshot(Snap(state, SnapMillis));
      assert [Snap(s2, SnapMillis)] + [Snap(state, SnapMillis)] == NumericPlay(rules, prev, move, underCard).snaps;
    }
  }

  /** The arrow branch of placeCard once the move is legal: the arrow lands
      on the cell, the cell takes the neighbour's card, the neighbour takes
      the covered card, and the arrow goes to the trash. */
  method PlaceArrow(rules: Rules, prev: GameState, move: Move, under: CardId, to: Placement, cons: Consequences)
    returns (state: GameState)
    requires Shaped(rules, prev) && move.Place? && InBounds(rules, move.placement.col, move.placement.row)
    requires InBounds(rules, to.col, to.row)
    modifies cons`snaps
    ensures state == ArrowPlay(rules, prev, move, under, to).state
    ensures cons.snaps == old(cons.snaps) + (if cons.recording then ArrowPlay(rules, prev, move, under, to).snaps else [])
  {
    var n := rules.numCols * rules.numRows;
    state := prev;
    var deck := DeckRemoveCard(state.decks[move.player], move.cardId);
    state := StateTransformDeck(state, move.player, _ => deck);
    state := StateTransformBoard(state, (b: Board) requires |b.cells| == n => BoardSetCard(rules, b, move.placement, Some(move.cardId)));
    var neighborCard := BoardGetCard(rules, state.board, to.col, to.row);
    state := StateTransformBoard(state, (b: Board) requires |b.cells| == n => BoardSetCard(rules, b, move.placement, neighborCard));
    state := StateTransformBoard(state, (b: Board) requires |b.cells| == n => BoardSetCard(rules, b, to, Some(under)));
    state := StateTransformBoard(state, (b: Board) => BoardTrashCard(b, move.cardId));
    cons.Snapshot(Snap(state, SnapMillis));
  }

  // ---------------------------------------------------------------- properties

  /** A pass is taken and returns the state as it was. */
  lemma PassIsTaken(rules: Rules, ref: Board, prev: GameState, move: Move)
    requires PlaceReady(rules, ref, prev, move) && move.Pass?
    ensures PlaceSpec(rules, ref, prev, move) == Placed(prev, true, [])
  {
  }

  /** A card that is not in the current player's deck is refused. */
  lemma NotInDeckIsRefused(rules: Rules, ref: Board, prev: GameState, move: Move)
    requires PlaceReady(rules, ref, prev, move) && move.Place?
    requires !DeckHolds(prev.decks[prev.currentPlayer], move.cardId)
    ensures PlaceSpec(rules, ref, prev, move) == Placed(prev, false, [])
  {
  }

  /** A number card from the deck is refused exactly when it would cover a
      card of the other player or a lower card of its own player. */
  lemma NumericRefusal(rules: Rules, ref: Board, prev: GameState, move: Move)
    requires PlaceReady(rules, ref, prev, move) && move.Place?
    requires DeckHolds(prev.decks[prev.currentPlayer], move.cardId)
    requires rules.cardSpecs[move.cardId].value.Num?
    ensures var under := UnderCard(rules, ref, move);
            var card := rules.cardSpecs[move.cardId];
            !PlaceSpec(rules, ref, prev, move).accepted
            <==> under.Some? && (rules.cardSpecs[under.value].player != card.player
                                 || (rules.cardSpecs[under.value].value.Num?
                                     && rules.cardSpecs[under.value].value.n < card.value.n))
  {
  }

  /** A number card that is taken leaves the mover's deck, sits on the
      chosen cell, and the card it covered (if any) takes the mover's first
      free slot; nothing else on the board, in the other deck or in the trash
      changes. One snapshot is reported, two when a card went back. */
  lemma NumericEffect(rules: Rules, ref: Board, prev: GameState, move: Move)
    requires PlaceReady(rules, ref, prev, move) && move.Place?
    requires DeckHolds(prev.decks[prev.currentPlayer], move.cardId)
    requires rules.cardSpecs[move.cardId].value.Num?
    requires PlaceSpec(rules, ref, prev, move).accepted
    ensures var p := PlaceSpec(rules, ref, prev, move);
            var under := UnderCard(rules, ref, move);
            var removed := Deck(CellsWithout(prev.decks[move.player].cells, move.cardId));
            && BoardGetCell(rules, p.state.board, move.placement.col, move.placement.row) == Occupied(move.cardId)
            && (forall i :: 0 <= i < |prev.board.cells| && i != CellIndex(rules, move.placement.col, move.placement.row)
                  ==> p.state.board.cells[i] == prev.board.cells[i])
            && p.state.board.trashedCardIds == prev.board.trashedCardIds
            && p.state.decks[move.player] == (if under.None? then removed else DeckWithCard(removed, under.value))
            && p.state.decks[1 - move.player] == prev.decks[1 - move.player]
            && |p.snaps| == (if under.Some? then 2 else 1)
            && p.snaps[|p.snaps| - 1] == Snap(p.state, SnapMillis)
  {
  }

  /** When the mover is the current player, the covered card always finds a
      free slot: the slot the played card left. */
  lemma NumericReturnsUnderCard(rules: Rules, ref: Board, prev: GameState, move: Move)
    requires PlaceReady(rules, ref, prev, move) && move.Place? && move.player == prev.currentPlayer
    requires DeckHolds(prev.decks[prev.currentPlayer], move.cardId)
    requires rules.cardSpecs[move.cardId].value.Num?
    requires PlaceSpec(rules, ref, prev, move).accepted
    requires UnderCard(rules, ref, move).Some?
    ensures DeckHolds(PlaceSpec(rules, ref, prev, move).state.decks[move.player], UnderCard(rules, ref, move).value)
    ensures !DeckHolds(PlaceSpec(rules, ref, prev, move).state.decks[move.player], move.cardId)
            || UnderCard(rules, ref, move).value == move.cardId
  {
    var cells := prev.decks[move.player].cells;
    var k :| 0 <= k < |cells| && cells[k] == Occupied(move.cardId);
    var removed := Deck(CellsWithout(cells, move.cardId));
    assert removed.cells[k] == Empty;
    var first := FirstEmpty(removed.cells).value;
    var added := DeckWithCard(removed, UnderCard(rules, ref, move).value);
    assert added.cells[first] == Occupied(UnderCard(rules, ref, move).value);
    assert forall j :: 0 <= j < |added.cells| && j != first ==> added.cells[j] == removed.cells[j];
  }

  /** An arrow that is taken swaps the covered card with the content of the
      cell it points to, and ends in the trash, appended once; it leaves the
      mover's deck and no other cell changes. */
  lemma ArrowEffect(rules: Rules, prev: GameState, move: Move)
    requires PlaceReady(rules, prev.board, prev, move) && move.Place?
    requires KnownCells(rules, prev.board.cells)
    requires DeckHolds(prev.decks[prev.currentPlayer], move.cardId)
    requires rules.cardSpecs[move.cardId].value.Arrow?
    requires PlaceSpec(rules, prev.board, prev, move).accepted
    ensures var p := PlaceSpec(rules, prev.board, prev, move);
            var at := move.placement;
            var to := Pushed(at, rules.cardSpecs[move.cardId].value.dir);
            && InBounds(rules, to.col, to.row)
            && BoardGetCell(rules, prev.board, at.col, at.row).Occupied?
            && BoardGetCell(rules, p.state.board, at.col, at.row) == BoardGetCell(rules, prev.board, to.col, to.row)
            && BoardGetCell(rules, p.state.board, to.col, to.row) == BoardGetCell(rules, prev.board, at.col, at.row)
            && (forall i :: 0 <= i < |prev.board.cells| && i != CellIndex(rules, at.col, at.row)
                            && i != CellIndex(rules, to.col, to.row)
                  ==> p.state.board.cells[i] == prev.board.cells[i])
            && p.state.board.trashedCardIds == prev.board.trashedCardIds + [move.cardId]
            && p.state.decks[move.player] == Deck(CellsWithout(prev.decks[move.player].cells, move.cardId))
            && p.state.decks[1 - move.player] == prev.decks[1 - move.player]
            && |p.snaps| == 1
  {
    var at := move.placement;
    var d := rules.cardSpecs[move.cardId].value.dir;
    var to := Pushed(at, d);
    var i, j := CellIndex(rules, at.col, at.row), CellIndex(rules, to.col, to.row);
    CellIndexInjective(rules, at.col, at.row, to.col, to.row);
    assert i != j;
    var cell := prev.board.cells[j];
    assert cell.Occupied? ==> cell.cardId in rules.cardSpecs;
  }

  // ---------------------------------------------------------------- conservation

  /** Taking a card out of a deck that holds it once leaves one copy fewer. */
  lemma RemoveOnce(cells: seq<Cell>, id: CardId)
    requires Occupied(id) in cells && Inventory.CellsBag(cells)[id] <= 1
    ensures Inventory.CellsBag(cells) == Inventory.CellsBag(CellsWithout(cells, id)) + multiset{id}
    ensures Empty in CellsWithout(cells, id)
  {
    Inventory.CellsBagHas(cells, id);
    Inventory.CellsBagWithout(cells, id);
    var k :| 0 <= k < |cells| && cells[k] == Occupied(id);
    assert CellsWithout(cells, id)[k] == Empty;
  }

  /** The bag of a state is the bag of the mover's deck, the other deck,
      the board cells and the trash, whichever deck the mover holds. */
  lemma BagByMover(s: GameState, mover: Player)
    requires |s.decks| == 2
    ensures Inventory.StateBag(s)
            == Inventory.CellsBag(s.decks[mover].cells) + Inventory.CellsBag(s.decks[1 - mover].cells)
               + Inventory.CellsBag(s.board.cells) + multiset(s.board.trashedCardIds)
  {
    if mover == 1 {
      SwapFirstTwo(Inventory.CellsBag(s.decks[1].cells), Inventory.CellsBag(s.decks[0].cells),
                   Inventory.CellsBag(s.board.cells), multiset(s.board.trashedCardIds));
    }
  }

  lemma SwapFirstTwo(a: multiset<CardId>, b: multiset<CardId>, c: multiset<CardId>, t: multiset<CardId>)
    ensures a + b + c + t == b + a + c + t
  {
    forall x ensures (a + b + c + t)[x] == (b + a + c + t)[x] {
    }
  }

  /** Two states whose other decks agree have the same bag when the mover's
      deck, the board and the trash together hold the same ids. */
  lemma SameBag(s: GameState, s': GameState, mover: Player)
    requires |s.decks| == 2 && |s'.decks| == 2
    requires s'.decks[1 - mover] == s.decks[1 - mover]
    requires Inventory.CellsBag(s'.decks[mover].cells) + Inventory.CellsBag(s'.board.cells) + multiset(s'.board.trashedCardIds)
             == Inventory.CellsBag(s.decks[mover].cells) + Inventory.CellsBag(s.board.cells) + multiset(s.board.trashedCardIds)
    ensures Inventory.StateBag(s') == Inventory.StateBag(s)
  {
    BagByMover(s, mover);
    BagByMover(s', mover);
    var m := Inventory.CellsBag(s.decks[1 - mover].cells);
    var l := Inventory.CellsBag(s.decks[mover].cells) + Inventory.CellsBag(s.board.cells) + multiset(s.board.trashedCardIds);
    var l' := Inventory.CellsBag(s'.decks[mover].cells) + Inventory.CellsBag(s'.board.cells) + multiset(s'.board.trashedCardIds);
    forall x ensures Inventory.StateBag(s')[x] == Inventory.StateBag(s)[x] {
      assert Inventory.StateBag(s')[x] == l'[x] + m[x];
      assert Inventory.StateBag(s)[x] == l[x] + m[x];
    }
  }

  /** The bag arithmetic of a number play: the card moves from deck to
      board and the covered card, if any, from board to deck. */
  lemma NumericBagArith(a: multiset<CardId>, a1: multiset<CardId>, a3: multiset<CardId>,
                        c: multiset<CardId>, c2: multiset<CardId>, covered: multiset<CardId>, id: CardId)
    requires a == a1 + multiset{id}
    requires c2 + covered == c + multiset{id}
    requires a3 == a1 + covered
    ensures a3 + c2 == a + c
  {
    forall x ensures (a3 + c2)[x] == (a + c)[x] {
      assert a[x] == (a1 + multiset{id})[x];
      assert (c2 + covered)[x] == (c + multiset{id})[x];
      assert a3[x] == (a1 + covered)[x];
    }
  }

  lemma NumericConserves(rules: Rules, prev: GameState, move: Move)
    requires PlaceReady(rules, prev.board, prev, move) && move.Place? && move.player == prev.currentPlayer
    requires WellFormed(rules, prev) && Inventory.NoDup(prev)
    requires DeckHolds(prev.decks[prev.currentPlayer], move.cardId)
    requires rules.cardSpecs[move.cardId].value.Num?
    requires PlaceSpec(rules, prev.board, prev, move).accepted
    ensures Inventory.StateBag(PlaceSpec(rules, prev.board, prev, move).state) == Inventory.StateBag(prev)
  {
    var mp := move.player;
    var p := PlaceSpec(rules, prev.board, prev, move);
    NumericEffect(rules, prev.board, prev, move);
    var under := UnderCard(rules, prev.board, move);
    var D, B := prev.decks[mp].cells, prev.board.cells;
    var idx := CellIndex(rules, move.placement.col, move.placement.row);
    var id := move.cardId;
    BagByMover(prev, mp);
    assert Inventory.CellsBag(D)[id] <= Inventory.StateBag(prev)[id];
    RemoveOnce(D, id);
    var D1 := CellsWithout(D, id);
    assert p.state.board.cells == B[idx := Occupied(id)];
    Inventory.CellsBagUpdate(B, idx, Occupied(id));
    if under.None? {
      assert B[idx] == Empty;
      assert p.state.decks[mp].cells == D1;
    } else {
      assert B[idx] == Occupied(under.value);
      Inventory.DeckWithCardBag(Deck(D1), under.value);
    }
    NumericBagArith(Inventory.CellsBag(D), Inventory.CellsBag(D1), Inventory.CellsBag(p.state.decks[mp].cells),
                    Inventory.CellsBag(B), Inventory.CellsBag(p.state.board.cells), Inventory.CellBag(B[idx]), id);
    SameBag(prev, p.state, mp);
  }

  /** The bag arithmetic of an arrow play: the arrow moves from deck to
      trash and the board keeps its bag. */
  lemma ArrowBagArith(a: multiset<CardId>, a1: multiset<CardId>, c: multiset<CardId>, c2: multiset<CardId>,
                      t: multiset<CardId>, t1: multiset<CardId>, id: CardId)
    requires a == a1 + multiset{id} && c2 == c && t1 == t + multiset{id}
    ensures a1 + c2 + t1 == a + c + t
  {
    forall x ensures (a1 + c2 + t1)[x] == (a + c + t)[x] {
      assert a[x] == (a1 + multiset{id})[x];
      assert t1[x] == (t + multiset{id})[x];
    }
  }

  lemma ArrowConserves(rules: Rules, prev: GameState, move: Move)
    requires PlaceReady(rules, prev.board, prev, move) && move.Place? && move.player == prev.currentPlayer
    requires WellFormed(rules, prev) && Inventory.NoDup(prev)
    requires DeckHolds(prev.decks[prev.currentPlayer], move.cardId)
    requires rules.cardSpecs[move.cardId].value.Arrow?
    requires PlaceSpec(rules, prev.board, prev, move).accepted
    ensures Inventory.StateBag(PlaceSpec(rules, prev.board, prev, move).state) == Inventory.StateBag(prev)
  {
    var mp := move.player;
    var p := PlaceSpec(rules, prev.board, prev, move);
    ArrowEffect(rules, prev, move);
    assert p.state.decks[1 - mp] == prev.decks[1 - mp];
    var at := move.placement;
    var to := Pushed(at, rules.cardSpecs[move.cardId].value.dir);
    var i, j := CellIndex(rules, at.col, at.row), CellIndex(rules, to.col, to.row);
    CellIndexInjective(rules, at.col, at.row, to.col, to.row);
    var B, T := prev.board.cells, prev.board.trashedCardIds;
    assert p.state.board.cells == B[i := B[j]][j := B[i]];
    Inventory.SwapBag(B, i, j);
    var id := move.cardId;
    assert p.state.board.trashedCardIds == T + [id];
    assert multiset(T + [id]) == multiset(T) + multiset{id};
    BagByMover(prev, mp);
    assert Inventory.CellsBag(prev.decks[mp].cells)[id] <= Inventory.StateBag(prev)[id];
    RemoveOnce(prev.decks[mp].cells, id);
    ArrowBagArith(Inventory.CellsBag(prev.decks[mp].cells), Inventory.CellsBag(p.state.decks[mp].cells),
                  Inventory.CellsBag(B), Inventory.CellsBag(p.state.board.cells),
                  multiset(T), multiset(p.state.board.trashedCardIds), id);
    SameBag(prev, p.state, mp);
  }

  /** With the state's own board as reference and the current player moving,
      placing only relocates cards: the bag of ids over decks, board and
      trash is unchanged. */
  lemma PlaceConserves(rules: Rules, prev: GameState, move: Move)
    requires PlaceReady(rules, prev.board, prev, move)
    requires WellFormed(rules, prev) && Inventory.NoDup(prev)
    requires move.Place? ==> move.player == prev.currentPlayer
    ensures Inventory.StateBag(PlaceSpec(rules, prev.board, prev, move).state) == Inventory.StateBag(prev)
  {
    var p := PlaceSpec(rules, prev.board, prev, move);
    if move.Place? && p.accepted && DeckHolds(prev.decks[prev.currentPlayer], move.cardId) {
      if rules.cardSpecs[move.cardId].value.Num? {
        NumericConserves(rules, prev, move);
      } else {
        ArrowConserves(rules, prev, move);
      }
    }
  }

  /** A one-cell game where card 1 was already cleared to the trash, the
      reference board still shows it on the cell, and player 0 plays card 2
      (a 3) on that cell. */
  const StaleRules := Rules(1, 1, 8, map[1 := CardSpec(0, Num(5)), 2 := CardSpec(0, Num(3))])
  const StaleRef := Board([Occupied(1)], [])
  const StalePrev := GameState(0, Board([Empty], [1]), [Deck([Occupied(2)]), Deck([])])
  const StaleMove := Place(0, 2, Placement(0, 0))

  lemma StalePlacement()
    ensures PlaceReady(StaleRules, StaleRef, StalePrev, StaleMove)
    ensures PlaceSpec(StaleRules, StaleRef, StalePrev, StaleMove).accepted
    ensures PlaceSpec(StaleRules, StaleRef, StalePrev, StaleMove).state
            == GameState(0, Board([Occupied(2)], [1]), [Deck([Occupied(1)]), Deck([])])
  {
    assert UnderCard(StaleRules, StaleRef, StaleMove) == Some(1);
    assert PlaceSpec(StaleRules, StaleRef, StalePrev, StaleMove) == NumericPlay(StaleRules, StalePrev, StaleMove, Some(1));
    assert CellsWithout([Occupied(2)], 2) == [Empty];
    assert FirstEmpty([Empty]) == Some(0);
    assert DeckWithCard(Deck([Empty]), 1) == Deck([Occupied(1)]);
    assert CellIndex(StaleRules, 0, 0) == 0;
    BoardSetCardCells(StaleRules, StalePrev.board, StaleMove.placement, Some(2));
    assert BoardSetCard(StaleRules, StalePrev.board, StaleMove.placement, Some(2)) == Board([Occupied(2)], [1]);
  }

  /** The covered card is read from `ref`, not from `prev`. When they
      differ, a move can return a card to the deck that is no longer on the
      board: in the game above, card 1 goes back to the deck while it stays
      in the trash, so it is in two places at once. */
  lemma StaleBoardDuplicatesCard()
    ensures WellFormed(StaleRules, StalePrev) && Inventory.NoDup(StalePrev)
    ensures PlaceReady(StaleRules, StaleRef, StalePrev, StaleMove)
    ensures PlaceSpec(StaleRules, StaleRef, StalePrev, StaleMove).accepted
    ensures Inventory.StateBag(PlaceSpec(StaleRules, StaleRef, StalePrev, StaleMove).state)[1] == 2
  {
    StalePlacement();
    var after := GameState(0, Board([Occupied(2)], [1]), [Deck([Occupied(1)]), Deck([])]);
    assert [Occupied(1)][..0] == [] && [Occupied(2)][..0] == [] && [Empty][..0] == [];
    assert Inventory.StateBag(after) == multiset{1} + multiset{} + multiset{2} + multiset{1};
    assert Inventory.StateBag(StalePrev) == multiset{2} + multiset{} + multiset{} + multiset{1};
  }
}
