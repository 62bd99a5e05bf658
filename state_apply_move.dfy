/** The earlier transition (state-apply-move.ts). It checks the same things
    placeCard checks, but a move it takes also passes the turn to the other
    player. A number card's covered card goes back to the deck before the
    played card leaves it. The variant predates passing, so only card
    moves are modelled. Like placeCard, it reads the covered card from the
    board of the game object; `ref` is that board. */
module StateApplyMove {
  import opened Types
  import opened GameBase
  import opened RulesPlaceCard
  import Inventory

  /** The new state and whether the move was taken. */
  datatype Applied = Applied(state: GameState, accepted: bool)

  predicate ApplyReady(rules: Rules, ref: Board, prev: GameState, move: Move)
  {
    PlaceReady(rules, ref, prev, move) && move.Place?
  }

  /** Number card: pass the turn; empty the cell and send the covered card
      (if any) into the mover's first free slot; then take the played card
      out of the deck and put it on the cell. */
  function NumericApply(rules: Rules, prev: GameState, move: Move, under: Option<CardId>): (r: GameState)
    requires Shaped(rules, prev) && move.Place? && InBounds(rules, move.placement.col, move.placement.row)
    ensures Shaped(rules, r)
  {
    var n := rules.numCols * rules.numRows;
    var s0 := StateAdvanceTurn(prev);
    var s2 :=
      if under.None? then s0
      else
        var s1 := StateTransformBoard(s0, (b: Board) requires |b.cells| == n => BoardSetCard(rules, b, move.placement, None));
        StateTransformDeck(s1, move.player, (d: Deck) => DeckWithCard(d, under.value));
    var s3 := StateTransformDeck(s2, move.player, (d: Deck) => Deck(CellsWithout(d.cells, move.cardId)));
    StateTransformBoard(s3, (b: Board) requires |b.cells| == n => BoardSetCard(rules, b, move.placement, Some(move.cardId)))
  }

  /** Arrow card: pass the turn; the arrow leaves the deck for the trash;
      the cell takes the neighbour's card (or nothing) and the neighbour
      takes the covered card. */
  function ArrowApply(rules: Rules, prev: GameState, move: Move, under: CardId, to: Placement): (r: GameState)
    requires Shaped(rules, prev) && move.Place? && InBounds(rules, move.placement.col, move.placement.row)
    requires InBounds(rules, to.col, to.row)
    ensures Shaped(rules, r)
  {
    var n := rules.numCols * rules.numRows;
    var s0 := StateAdvanceTurn(prev);
    var s1 := StateTransformDeck(s0, move.player, (d: Deck) => Deck(CellsWithout(d.cells, move.cardId)));
    var s2 := StateTransformBoard(s1, (b: Board) => BoardTrashCard(b, move.cardId));
    var neighbor := BoardGetCard(rules, s2.board, to.col, to.row);
    var s3 := StateTransformBoard(s2, (b: Board) requires |b.cells| == n => BoardSetCard(rules, b, move.placement, neighbor));
    StateTransformBoard(s3, (b: Board) requires |b.cells| == n => BoardSetCard(rules, b, to, Some(under)))
  }

  /** stateApplyMove. A refused move returns the state as it was; a taken
      one hands the turn to the other player. */
  function ApplyMoveSpec(rules: Rules, ref: Board, prev: GameState, move: Move): (a: Applied)
    requires ApplyReady(rules, ref, prev, move)
    ensures !a.accepted ==> a.state == prev
    ensures a.accepted ==> a.state.currentPlayer == 1 - prev.currentPlayer
    ensures Shaped(rules, a.state)
  {
    if !DeckHolds(prev.decks[prev.currentPlayer], move.cardId) then Applied(prev, false)
    else
      var card := rules.cardSpecs[move.cardId];
      var under := UnderCard(rules, ref, move);
      match card.value
      case Num(_) =>
        if under.Some? && UnderBlocks(rules.cardSpecs[under.value], card) then Applied(prev, false)
        else Applied(NumericApply(rules, prev, move, under), true)
      case Arrow(d) =>
        if under.None? then Applied(prev, false)
        else
          var to := Pushed(move.placement, d);
          if to.col < 0 then Applied(prev, false)
          else if to.col >= rules.numCols then Applied(prev, false)
          else if to.row < 0 then Applied(prev, false)
          else if to.row >= rules.numRows then Applied(prev, false)
          else Applied(ArrowApply(rules, prev, move, under.value, to), true)
  }

  /** stateApplyMove as the source runs it: scan the current player's deck,
      then build the new state step by step. */
  method StateApplyMove(rules: Rules, ref: Board, prev: GameState, move: Move)
    returns (state: GameState, accepted: bool)
    requires ApplyReady(rules, ref, prev, move)
    ensures state == ApplyMoveSpec(rules, ref, prev, move).state
    ensures accepted == ApplyMoveSpec(rules, ref, prev, move).accepted
  {
    var cardId := move.cardId;
    var hasCard := false;
    var currentDeck := prev.decks[prev.currentPlayer];
    var i := 0;
    while i < |currentDeck.cells|
      invariant 0 <= i <= |currentDeck.cells|
      invariant hasCard ==> DeckHolds(currentDeck, cardId)
      invariant !hasCard ==> forall j :: 0 <= j < i ==> currentDeck.cells[j] != Occupied(cardId)
    {
      if currentDeck.cells[i].Occupied? && currentDeck.cells[i].cardId == cardId {
        hasCard := true;
        break;
      }
      i := i + 1;
    }

    if !hasCard {
      return prev, false;
    }

    var n := rules.numCols * rules.numRows;
    var card := rules.cardSpecs[move.cardId];
    var underCard := BoardGetCard(rules, ref, move.placement.col, move.placement.row);

    if card.value.Num? {
      if underCard.Some? {
        if rules.cardSpecs[underCard.value].player != card.player {
          return prev, false;
        }
        var uv := rules.cardSpecs[underCard.value].value;
        if uv.Num? && uv.n < card.value.n {
          return prev, false;
        }
      }

      state := StateAdvanceTurn(prev);
      if underCard.Some? {
        state := StateTransformBoard(state, (b: Board) requires |b.cells| == n => BoardSetCard(rules, b, move.placement, None));
        var deck := DeckAddCard(state.decks[move.player], underCard.value);
        state := StateTransformDeck(state, move.player, _ => deck);
      }
      var deck := DeckRemoveCard(state.decks[move.player], move.cardId);
      state := StateTransformDeck(state, move.player, _ => deck);
      state := StateTransformBoard(state, (b: Board) requires |b.cells| == n => BoardSetCard(rules, b, move.placement, Some(move.cardId)));
      return state, true;
    } else {
      if underCard.None? {
        return prev, false;
      }
      var (dcol, drow) := Offset(card.value.dir);
      var (newCol, newRow) := (move.placement.col + dcol, move.placement.row + drow);
      if newCol < 0 {
        return prev, false;
      }
      if newCol >= rules.numCols {
        return prev, false;
      }
      if newRow < 0 {
        return prev, false;
      }
      if newRow >= rules.numRows {
        return prev, false;
      }

      state := StateAdvanceTurn(prev);
      var deck := DeckRemoveCard(state.decks[move.player], move.cardId);
      state := StateTransformDeck(state, move.player, _ => deck);
      state := StateTransformBoard(state, (b: Board) => BoardTrashCard(b, move.cardId));
      var neighborCard := BoardGetCard(rules, state.board, newCol, newRow);
      state := StateTransformBoard(state, (b: Board) requires |b.cells| == n => BoardSetCard(rules, b, move.placement, neighborCard));
      state := StateTransformBoard(state, (b: Board) requires |b.cells| == n => BoardSetCard(rules, b, Placement(newCol, newRow), underCard));
      return state, true;
    }
  }

  // ---------------------------------------------------------------- properties

  /** The refusals: a card missing from the current player's deck; a number
      card over a card of the other player or a lower card of its own; an
      arrow on an empty cell or pushing off the board. */
  lemma ApplyMoveRefusals(rules: Rules, ref: Board, prev: GameState, move: Move)
    requires ApplyReady(rules, ref, prev, move)
    ensures !DeckHolds(prev.decks[prev.currentPlayer], move.cardId) ==> !ApplyMoveSpec(rules, ref, prev, move).accepted
    ensures DeckHolds(prev.decks[prev.currentPlayer], move.cardId) && rules.cardSpecs[move.cardId].value.Num? ==>
              var under := UnderCard(rules, ref, move);
              var card := rules.cardSpecs[move.cardId];
              (!ApplyMoveSpec(rules, ref, prev, move).accepted
               <==> under.Some? && (rules.cardSpecs[under.value].player != card.player
                                    || (rules.cardSpecs[under.value].value.Num?
                                        && rules.cardSpecs[under.value].value.n < card.value.n)))
    ensures DeckHolds(prev.decks[prev.currentPlayer], move.cardId) && rules.cardSpecs[move.cardId].value.Arrow? ==>
              var to := Pushed(move.placement, rules.cardSpecs[move.cardId].value.dir);
              (!ApplyMoveSpec(rules, ref, prev, move).accepted
               <==> UnderCard(rules, ref, move).None? || !InBounds(rules, to.col, to.row))
  {
  }

  /** With room in the deck, a covered card takes the first free slot of the
      deck as it was before the move (never the slot the played card leaves),
      the played card's slot is emptied, and the other slots keep their
      cards. */
  lemma UnderCardTakesFirstFreeSlot(rules: Rules, ref: Board, prev: GameState, move: Move)
    requires ApplyReady(rules, ref, prev, move)
    requires DeckHolds(prev.decks[prev.currentPlayer], move.cardId)
    requires rules.cardSpecs[move.cardId].value.Num?
    requires ApplyMoveSpec(rules, ref, prev, move).accepted
    requires UnderCard(rules, ref, move).Some? && UnderCard(rules, ref, move).value != move.cardId
    requires Empty in prev.decks[move.player].cells
    ensures var cells := prev.decks[move.player].cells;
            var k := FirstEmpty(cells).value;
            var cells' := ApplyMoveSpec(rules, ref, prev, move).state.decks[move.player].cells;
            && |cells'| == |cells|
            && cells[k] == Empty
            && cells'[k] == Occupied(UnderCard(rules, ref, move).value)
            && (forall j :: 0 <= j < |cells| && j != k ==>
                  cells'[j] == if cells[j] == Occupied(move.cardId) then Empty else cells[j])
  {
    var cells := prev.decks[move.player].cells;
    var k := FirstEmpty(cells).value;
    var under := UnderCard(rules, ref, move);
    var added := DeckWithCard(prev.decks[move.player], under.value);
    assert added.cells == cells[k := Occupied(under.value)];
  }

  /** The earlier variant takes exactly the moves placeCard takes. It leaves
      the board, the trash and the other deck as placeCard does, and hands
      the turn on. After an arrow, or after a number card that covered
      nothing, the whole state is placeCard's with the turn passed. */
  lemma AgreesWithPlaceCard(rules: Rules, ref: Board, prev: GameState, move: Move)
    requires ApplyReady(rules, ref, prev, move)
    ensures ApplyMoveSpec(rules, ref, prev, move).accepted == PlaceSpec(rules, ref, prev, move).accepted
    ensures var a := ApplyMoveSpec(rules, ref, prev, move);
            var p := PlaceSpec(rules, ref, prev, move);
            a.accepted ==>
              && a.state.board == p.state.board
              && a.state.decks[1 - move.player] == p.state.decks[1 - move.player]
              && a.state.currentPlayer == 1 - p.state.currentPlayer
    ensures var a := ApplyMoveSpec(rules, ref, prev, move);
            var p := PlaceSpec(rules, ref, prev, move);
            a.accepted && (rules.cardSpecs[move.cardId].value.Arrow? || UnderCard(rules, ref, move).None?) ==>
              a.state == StateAdvanceTurn(p.state)
  {
    var a := ApplyMoveSpec(rules, ref, prev, move);
    if a.accepted {
      if rules.cardSpecs[move.cardId].value.Num? {
        NumberBoardsAgree(rules, ref, prev, move);
      } else {
        ArrowBoardsAgree(rules, ref, prev, move);
      }
    }
  }

  lemma NumberBoardsAgree(rules: Rules, ref: Board, prev: GameState, move: Move)
    requires ApplyReady(rules, ref, prev, move) && ApplyMoveSpec(rules, ref, prev, move).accepted
    requires rules.cardSpecs[move.cardId].value.Num?
    ensures ApplyMoveSpec(rules, ref, prev, move).state.board == PlaceSpec(rules, ref, prev, move).state.board
  {
    var i := CellIndex(rules, move.placement.col, move.placement.row);
    var B := prev.board.cells;
    assert ApplyMoveSpec(rules, ref, prev, move).state.board.cells == B[i := Occupied(move.cardId)];
    assert PlaceSpec(rules, ref, prev, move).state.board.cells == B[i := Occupied(move.cardId)];
  }

  lemma ArrowBoardsAgree(rules: Rules, ref: Board, prev: GameState, move: Move)
    requires ApplyReady(rules, ref, prev, move) && ApplyMoveSpec(rules, ref, prev, move).accepted
    requires rules.cardSpecs[move.cardId].value.Arrow?
    ensures ApplyMoveSpec(rules, ref, prev, move).state.board == PlaceSpec(rules, ref, prev, move).state.board
  {
    var a := ApplyMoveSpec(rules, ref, prev, move);
    var p := PlaceSpec(rules, ref, prev, move);
    var at := move.placement;
    var i := CellIndex(rules, at.col, at.row);
    var B := prev.board.cells;
    var under := UnderCard(rules, ref, move);
    var to := Pushed(at, rules.cardSpecs[move.cardId].value.dir);
    var j := CellIndex(rules, to.col, to.row);
    CellIndexInjective(rules, at.col, at.row, to.col, to.row);
    assert i != j;
    var nb := BoardGetCard(rules, prev.board, to.col, to.row);
    var nbCell := if nb.Some? then Occupied(nb.value) else Empty;
    assert a.state.board.cells == B[i := nbCell][j := Occupied(under.value)];
    assert p.state.board.cells == B[i := Occupied(move.cardId)][i := nbCell][j := Occupied(under.value)];
    assert B[i := Occupied(move.cardId)][i := nbCell] == B[i := nbCell];
  }

  /** The covered card and the played card are different cards, each held
      once: one is on the board, the other in the mover's deck. */
  lemma CoveredIsOther(rules: Rules, prev: GameState, move: Move)
    requires ApplyReady(rules, prev.board, prev, move)
    requires Inventory.NoDup(prev)
    requires DeckHolds(prev.decks[move.player], move.cardId)
    requires UnderCard(rules, prev.board, move).Some?
    ensures var u := UnderCard(rules, prev.board, move).value;
            && u != move.cardId
            && Inventory.CellsBag(prev.decks[move.player].cells)[move.cardId] == 1
            && prev.board.cells[CellIndex(rules, move.placement.col, move.placement.row)] == Occupied(u)
  {
    var mp := move.player;
    var id := move.cardId;
    var u := UnderCard(rules, prev.board, move).value;
    var D, B := prev.decks[mp].cells, prev.board.cells;
    BagByMover(prev, mp);
    Inventory.CellsBagHas(D, id);
    Inventory.CellsBagHas(B, u);
    var i := CellIndex(rules, move.placement.col, move.placement.row);
    assert B[i] == Occupied(u);
    assert Occupied(u) in B;
    var bD, bB := Inventory.CellsBag(D), Inventory.CellsBag(B);
    assert bD[id] + bB[id] <= Inventory.StateBag(prev)[id];
  }

  /** The mover's deck after covering: one copy of the played card out, the
      covered card in. */
  lemma CoverDeckBag(deck: Deck, u: CardId, id: CardId)
    requires Empty in deck.cells && u != id && Inventory.CellsBag(deck.cells)[id] == 1
    ensures Inventory.CellsBag(CellsWithout(DeckWithCard(deck, u).cells, id)) + multiset{id}
            == Inventory.CellsBag(deck.cells) + multiset{u}
  {
    Inventory.DeckWithCardBag(deck, u);
    Inventory.CellsBagWithout(DeckWithCard(deck, u).cells, id);
    ReaddOnly(Inventory.CellsBag(deck.cells), u, id);
  }

  /** Dropping every copy of a single `id` and adding it back restores the bag. */
  lemma ReaddOnly(b: multiset<CardId>, u: CardId, id: CardId)
    requires b[id] == 1 && u != id
    ensures (b + multiset{u})[id := 0] + multiset{id} == b + multiset{u}
  {
    forall x ensures ((b + multiset{u})[id := 0] + multiset{id})[x] == (b + multiset{u})[x] {
      if x == id {
        assert (b + multiset{u})[x] == 1;
      }
    }
  }

  lemma CoverBagArith(a: multiset<CardId>, a3: multiset<CardId>, c: multiset<CardId>, c2: multiset<CardId>,
                      u: CardId, id: CardId)
    requires a3 + multiset{id} == a + multiset{u}
    requires c2 + multiset{u} == c + multiset{id}
    ensures a3 + c2 == a + c
  {
    forall x ensures (a3 + c2)[x] == (a + c)[x] {
      assert (a3 + multiset{id})[x] == (a + multiset{u})[x];
      assert (c2 + multiset{u})[x] == (c + multiset{id})[x];
    }
  }

  /** A number card covering a card: the covered card goes to the deck and
      the played card to the board, so nothing is lost or doubled. */
  lemma CoverConserves(rules: Rules, prev: GameState, move: Move)
    requires ApplyReady(rules, prev.board, prev, move) && move.player == prev.currentPlayer
    requires WellFormed(rules, prev) && Inventory.NoDup(prev)
    requires DeckHolds(prev.decks[prev.currentPlayer], move.cardId)
    requires rules.cardSpecs[move.cardId].value.Num?
    requires ApplyMoveSpec(rules, prev.board, prev, move).accepted
    requires UnderCard(rules, prev.board, move).Some?
    requires Empty in prev.decks[move.player].cells
    ensures Inventory.StateBag(ApplyMoveSpec(rules, prev.board, prev, move).state) == Inventory.StateBag(prev)
  {
    var mp := move.player;
    var s := ApplyMoveSpec(rules, prev.board, prev, move).state;
    var id := move.cardId;
    var u := UnderCard(rules, prev.board, move).value;
    var B := prev.board.cells;
    var i := CellIndex(rules, move.placement.col, move.placement.row);
    CoveredIsOther(rules, prev, move);
    CoverDeckBag(prev.decks[mp], u, id);
    assert s.decks[mp].cells == CellsWithout(DeckWithCard(prev.decks[mp], u).cells, id);
    assert s.board.cells == B[i := Occupied(id)];
    Inventory.CellsBagUpdate(B, i, Occupied(id));
    CoverBagArith(Inventory.CellsBag(prev.decks[mp].cells), Inventory.CellsBag(s.decks[mp].cells),
                  Inventory.CellsBag(B), Inventory.CellsBag(s.board.cells), u, id);
    SameBag(prev, s, mp);
  }

  /** With the state's own board as reference and the current player moving,
      a taken move only relocates cards, provided that a number card which
      covers a card finds a free slot in the deck (a full deck leaves the
      covered card nowhere). */
  lemma ApplyMoveConserves(rules: Rules, prev: GameState, move: Move)
    requires ApplyReady(rules, prev.board, prev, move) && move.player == prev.currentPlayer
    requires WellFormed(rules, prev) && Inventory.NoDup(prev)
    requires DeckHolds(prev.decks[prev.currentPlayer], move.cardId)
             && rules.cardSpecs[move.cardId].value.Num? && UnderCard(rules, prev.board, move).Some?
             ==> Empty in prev.decks[move.player].cells
    ensures Inventory.StateBag(ApplyMoveSpec(rules, prev.board, prev, move).state) == Inventory.StateBag(prev)
  {
    var a := ApplyMoveSpec(rules, prev.board, prev, move);
    if a.accepted {
      AgreesWithPlaceCard(rules, prev.board, prev, move);
      if rules.cardSpecs[move.cardId].value.Num? && UnderCard(rules, prev.board, move).Some? {
        CoverConserves(rules, prev, move);
      } else {
        PlaceConserves(rules, prev, move);
      }
    }
  }
}
