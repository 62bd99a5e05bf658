/** Why the AI's random playouts (the rollout loop of ai/process.ts) end:
    every listed move, played on its own state, either takes a card out of
    the decks for good or, covering a card, lowers the numbers on the
    board; clearing never adds to either. */
module AiRollout {
  import opened Types
  import opened GameBase
  import opened RulesPlaceCard
  import opened RulesProcessRowClears
  import opened RulesPlay
  import Inventory
  import RulesCanPlay
  import AiListMoves

  /** Card tables under which playouts end: number cards are positive, and
      two number cards of one player never share a value (as the dealt
      decks 1 to 7 guarantee, `DealtRulesEnd`). */
  predicate RolloutRules(rules: Rules)
  {
    && (forall x :: x in rules.cardSpecs && rules.cardSpecs[x].value.Num? ==> rules.cardSpecs[x].value.n > 0)
    && (forall x, y :: x in rules.cardSpecs && y in rules.cardSpecs && x != y
          && rules.cardSpecs[x].player == rules.cardSpecs[y].player
          && rules.cardSpecs[x].value.Num? && rules.cardSpecs[y].value.Num?
          ==> rules.cardSpecs[x].value.n != rules.cardSpecs[y].value.n)
  }

  /** The dealt deck's faces: the first seven are the numbers 1 to 7, the
      last two arrows. */
  lemma DeckContentsFaces(k: int)
    requires 0 <= k < |DeckContents|
    ensures DeckContents[k].Num? <==> k < 7
    ensures DeckContents[k].Num? ==> DeckContents[k].n == k + 1
  {
    if k < 7 {
      assert DeckContents[..7] == [Num(1), Num(2), Num(3), Num(4), Num(5), Num(6), Num(7)];
      assert DeckContents[k] == DeckContents[..7][k];
    } else {
      assert DeckContents[7..] == [Arrow(U), Arrow(D)];
      assert DeckContents[k] == DeckContents[7..][k - 7];
    }
  }

  /** The card table fromSettings deals from `ids`: player 0's nine cards
      then player 1's, each half with the faces `1 .. 7, U, D` in order. */
  predicate Dealt(rules: Rules, ids: seq<CardId>)
  {
    && |ids| == 2 * |DeckContents| && Distinct(ids)
    && rules.cardSpecs.Keys == (set x | x in ids)
    && (forall k :: 0 <= k < |DeckContents| ==> rules.cardSpecs[ids[k]] == CardSpec(0, DeckContents[k]))
    && (forall k :: 0 <= k < |DeckContents| ==>
          rules.cardSpecs[ids[|DeckContents| + k]] == CardSpec(1, DeckContents[k]))
  }

  /** The spec of `ids[i]`: its half gives the owner, its place in the half
      the face. */
  lemma DealtAt(rules: Rules, ids: seq<CardId>, i: int)
    requires Dealt(rules, ids) && 0 <= i < |ids|
    ensures var f := if i < |DeckContents| then i else i - |DeckContents|;
            rules.cardSpecs[ids[i]] == CardSpec(if i < |DeckContents| then 0 else 1, DeckContents[f])
  {
    var n := |DeckContents|;
    if i >= n {
      assert ids[n + (i - n)] == ids[i];
    }
  }

  /** Every dealt number card is positive. */
  lemma DealtPositive(rules: Rules, ids: seq<CardId>, x: CardId)
    requires Dealt(rules, ids) && x in rules.cardSpecs && rules.cardSpecs[x].value.Num?
    ensures rules.cardSpecs[x].value.n > 0
  {
    var i :| 0 <= i < |ids| && ids[i] == x;
    DealtAt(rules, ids, i);
    DeckContentsFaces(if i < |DeckContents| then i else i - |DeckContents|);
  }

  /** Two dealt number cards of one player have different values. */
  lemma DealtNumbersDiffer(rules: Rules, ids: seq<CardId>, x: CardId, y: CardId)
    requires Dealt(rules, ids) && x in rules.cardSpecs && y in rules.cardSpecs && x != y
    requires rules.cardSpecs[x].player == rules.cardSpecs[y].player
    requires rules.cardSpecs[x].value.Num? && rules.cardSpecs[y].value.Num?
    ensures rules.cardSpecs[x].value.n != rules.cardSpecs[y].value.n
  {
    var i :| 0 <= i < |ids| && ids[i] == x;
    var j :| 0 <= j < |ids| && ids[j] == y;
    DealtAt(rules, ids, i);
    DealtAt(rules, ids, j);
    DeckContentsFaces(if i < |DeckContents| then i else i - |DeckContents|);
    DeckContentsFaces(if j < |DeckContents| then j else j - |DeckContents|);
  }

  /** The card table fromSettings deals is one under which playouts end. */
  lemma DealtRulesEnd(rules: Rules, ids: seq<CardId>)
    requires Dealt(rules, ids)
    ensures RolloutRules(rules)
  {
    forall x | x in rules.cardSpecs && rules.cardSpecs[x].value.Num?
      ensures rules.cardSpecs[x].value.n > 0
    {
      DealtPositive(rules, ids, x);
    }
    forall x, y | x in rules.cardSpecs && y in rules.cardSpecs && x != y
        && rules.cardSpecs[x].player == rules.cardSpecs[y].player
        && rules.cardSpecs[x].value.Num? && rules.cardSpecs[y].value.Num?
      ensures rules.cardSpecs[x].value.n != rules.cardSpecs[y].value.n
    {
      DealtNumbersDiffer(rules, ids, x, y);
    }
  }

  /** Only number cards stay on the board: arrows go to the trash at once. */
  predicate NoArrowOnBoard(rules: Rules, cells: seq<Cell>)
  {
    forall i :: 0 <= i < |cells| && cells[i].Occupied? && cells[i].cardId in rules.cardSpecs
      ==> rules.cardSpecs[cells[i].cardId].value.Num?
  }

  predicate Inv(rules: Rules, s: GameState)
  {
    Sound(rules, s) && WellFormed(rules, s) && NoArrowOnBoard(rules, s.board.cells)
  }

  /** The positive face value a cell shows. */
  function CellWorth(rules: Rules, c: Cell): nat
  {
    if c.Occupied? && c.cardId in rules.cardSpecs && rules.cardSpecs[c.cardId].value.Num?
       && rules.cardSpecs[c.cardId].value.n > 0
    then rules.cardSpecs[c.cardId].value.n else 0
  }

  function BoardWorth(rules: Rules, cells: seq<Cell>): nat
  {
    if cells == [] then 0 else BoardWorth(rules, cells[..|cells| - 1]) + CellWorth(rules, cells[|cells| - 1])
  }

  /** The number of cards left in the two decks. */
  function DeckCount(s: GameState): nat
    requires |s.decks| == 2
  {
    |Inventory.CellsBag(s.decks[0].cells)| + |Inventory.CellsBag(s.decks[1].cells)|
  }

  /** The playout measure, compared lexicographically. */
  predicate Below(rules: Rules, t: GameState, s: GameState)
    requires |t.decks| == 2 && |s.decks| == 2
  {
    DeckCount(t) < DeckCount(s)
    || (DeckCount(t) == DeckCount(s) && BoardWorth(rules, t.board.cells) < BoardWorth(rules, s.board.cells))
  }

  // ---------------------------------------------------------------- worth

  lemma {:induction false} WorthUpdate(rules: Rules, cells: seq<Cell>, i: nat, c: Cell)
    requires i < |cells|
    ensures BoardWorth(rules, cells[i := c]) + CellWorth(rules, cells[i]) == BoardWorth(rules, cells) + CellWorth(rules, c)
  {
    var n := |cells| - 1;
    var cells' := cells[i := c];
    if i < n {
      assert cells'[..n] == cells[..n][i := c];
      WorthUpdate(rules, cells[..n], i, c);
    } else {
      assert cells'[..n] == cells[..n];
    }
  }

  /** Emptying cells never raises the worth. */
  lemma {:induction false} WorthOfEmptied(rules: Rules, cells: seq<Cell>, cells': seq<Cell>)
    requires |cells'| == |cells|
    requires forall i :: 0 <= i < |cells| ==> cells'[i] == Empty || cells'[i] == cells[i]
    ensures BoardWorth(rules, cells') <= BoardWorth(rules, cells)
  {
    if cells != [] {
      var n := |cells| - 1;
      WorthOfEmptied(rules, cells[..n], cells'[..n]);
    }
  }

  /** processRowClears leaves each cell as it was or empties it. */
  lemma ClearingEmpties(rules: Rules, oldState: GameState, newState: GameState)
    requires BoardShaped(rules, oldState) && BoardShaped(rules, newState)
    ensures var cells' := ProcessRowClearsSpec(rules, oldState, newState).board.cells;
            forall i :: 0 <= i < |cells'| ==> cells'[i] == Empty || cells'[i] == newState.board.cells[i]
  {
    var cells' := ProcessRowClearsSpec(rules, oldState, newState).board.cells;
    forall i | 0 <= i < |cells'| ensures cells'[i] == Empty || cells'[i] == newState.board.cells[i] {
      var p := PositionOf(rules, i);
      ProcessRowClearsCells(rules, oldState, newState, p.0, p.1);
    }
  }

  // ---------------------------------------------------------------- one move

  /** The deck count split into the mover's deck and the other one. */
  lemma DeckCountByMover(s: GameState, mover: Player)
    requires |s.decks| == 2
    ensures DeckCount(s) == |Inventory.CellsBag(s.decks[mover].cells)| + |Inventory.CellsBag(s.decks[1 - mover].cells)|
  {
    var a, b := |Inventory.CellsBag(s.decks[0].cells)|, |Inventory.CellsBag(s.decks[1].cells)|;
    assert DeckCount(s) == a + b;
    if mover == 1 {
      assert 1 - mover == 0;
    }
  }

  /** Taking the played card out of the mover's deck leaves one card fewer. */
  lemma PlayedCardLeavesDeck(prev: GameState, move: Move)
    requires |prev.decks| == 2 && Inventory.NoDup(prev) && move.Place?
    requires DeckHolds(prev.decks[move.player], move.cardId)
    ensures var cells := prev.decks[move.player].cells;
            var rest := CellsWithout(cells, move.cardId);
            && Inventory.CellsBag(cells) == Inventory.CellsBag(rest) + multiset{move.cardId}
            && |Inventory.CellsBag(rest)| + 1 == |Inventory.CellsBag(cells)|
            && Empty in rest
  {
    var mp := move.player;
    BagByMover(prev, mp);
    assert Inventory.CellsBag(prev.decks[mp].cells)[move.cardId] <= Inventory.StateBag(prev)[move.cardId];
    RemoveOnce(prev.decks[mp].cells, move.cardId);
  }

  /** A number card covers a number card or fills an empty cell. */
  lemma NumberKeepsNumbers(rules: Rules, prev: GameState, move: Move)
    requires Inv(rules, prev)
    requires PlaceReady(rules, prev.board, prev, move) && move.Place?
    requires DeckHolds(prev.decks[prev.currentPlayer], move.cardId)
    requires rules.cardSpecs[move.cardId].value.Num?
    requires PlaceSpec(rules, prev.board, prev, move).accepted
    ensures NoArrowOnBoard(rules, PlaceSpec(rules, prev.board, prev, move).state.board.cells)
  {
    NumericEffect(rules, prev.board, prev, move);
  }

  /** A number card on an empty cell spends a deck card; on a card of its
      own it takes that card's place in the deck and shows a lower number. */
  lemma NumberLowers(rules: Rules, prev: GameState, move: Move)
    requires RolloutRules(rules) && Inv(rules, prev)
    requires PlaceReady(rules, prev.board, prev, move) && move.Place? && move.player == prev.currentPlayer
    requires DeckHolds(prev.decks[prev.currentPlayer], move.cardId)
    requires rules.cardSpecs[move.cardId].value.Num?
    requires PlaceSpec(rules, prev.board, prev, move).accepted
    ensures var p := PlaceSpec(rules, prev.board, prev, move).state;
            if UnderCard(rules, prev.board, move).None? then DeckCount(p) < DeckCount(prev)
            else DeckCount(p) == DeckCount(prev)
                 && BoardWorth(rules, p.board.cells) < BoardWorth(rules, prev.board.cells)
  {
    var mp := move.player;
    var p := PlaceSpec(rules, prev.board, prev, move);
    NumericEffect(rules, prev.board, prev, move);
    var under := UnderCard(rules, prev.board, move);
    var D, B := prev.decks[mp].cells, prev.board.cells;
    var idx := CellIndex(rules, move.placement.col, move.placement.row);
    var id := move.cardId;
    PlayedCardLeavesDeck(prev, move);
    var D1 := CellsWithout(D, id);
    DeckCountByMover(prev, mp);
    DeckCountByMover(p.state, mp);
    assert p.state.decks[1 - mp] == prev.decks[1 - mp];
    if under.None? {
      assert p.state.decks[mp].cells == D1;
    } else {
      var u := under.value;
      assert B[idx] == Occupied(u);
      Inventory.DeckWithCardBag(Deck(D1), u);
      assert p.state.board.cells == B[idx := Occupied(id)];
      WorthUpdate(rules, B, idx, Occupied(id));
      // The covered card is on the board, the played one in the deck.
      assert u != id by {
        Inventory.CellsBagHas(B, u);
        Inventory.CellsBagHas(D, id);
        BagByMover(prev, mp);
        assert Inventory.StateBag(prev)[u] >= Inventory.CellsBag(D)[u] + Inventory.CellsBag(B)[u];
      }
      var card, uc := rules.cardSpecs[id], rules.cardSpecs[u];
      assert uc.value.Num?;
      assert !UnderBlocks(uc, card);
      assert uc.value.n > card.value.n;
    }
  }

  /** An arrow swaps two cells of the board, which held only numbers. */
  lemma ArrowKeepsNumbers(rules: Rules, prev: GameState, move: Move)
    requires Inv(rules, prev)
    requires PlaceReady(rules, prev.board, prev, move) && move.Place?
    requires DeckHolds(prev.decks[prev.currentPlayer], move.cardId)
    requires rules.cardSpecs[move.cardId].value.Arrow?
    requires PlaceSpec(rules, prev.board, prev, move).accepted
    ensures NoArrowOnBoard(rules, PlaceSpec(rules, prev.board, prev, move).state.board.cells)
  {
    var p := PlaceSpec(rules, prev.board, prev, move);
    ArrowEffect(rules, prev, move);
    var at := move.placement;
    var to := Pushed(at, rules.cardSpecs[move.cardId].value.dir);
    var i, j := CellIndex(rules, at.col, at.row), CellIndex(rules, to.col, to.row);
    CellIndexInjective(rules, at.col, at.row, to.col, to.row);
    var B := prev.board.cells;
    assert p.state.board.cells == B[i := B[j]][j := B[i]];
  }

  /** An arrow leaves the decks for good. */
  lemma ArrowSpends(rules: Rules, prev: GameState, move: Move)
    requires Inv(rules, prev)
    requires PlaceReady(rules, prev.board, prev, move) && move.Place? && move.player == prev.currentPlayer
    requires DeckHolds(prev.decks[prev.currentPlayer], move.cardId)
    requires rules.cardSpecs[move.cardId].value.Arrow?
    requires PlaceSpec(rules, prev.board, prev, move).accepted
    ensures DeckCount(PlaceSpec(rules, prev.board, prev, move).state) < DeckCount(prev)
  {
    var mp := move.player;
    var p := PlaceSpec(rules, prev.board, prev, move);
    ArrowEffect(rules, prev, move);
    assert p.state.decks[1 - mp] == prev.decks[1 - mp];
    PlayedCardLeavesDeck(prev, move);
    DeckCountByMover(prev, mp);
    DeckCountByMover(p.state, mp);
  }

  /** The placement part of a playout move: a move listMoves offers is
      taken, leaves no arrow on the board and lowers the measure. */
  lemma PlacementLowers(rules: Rules, s: GameState, m: Move)
    requires RolloutRules(rules) && Inv(rules, s)
    requires m in AiListMoves.ListMovesSpec(rules, s, s.currentPlayer)
    ensures m.Place? && m.player == s.currentPlayer
    ensures PlaceReady(rules, s.board, s, m)
    ensures PlaceSpec(rules, s.board, s, m).accepted
    ensures NoArrowOnBoard(rules, PlaceSpec(rules, s.board, s, m).state.board.cells)
    ensures Below(rules, PlaceSpec(rules, s.board, s, m).state, s)
  {
    Inventory.AllKnownWellFormed(rules, s);
    AiListMoves.ListMovesMembers(rules, s, s.currentPlayer);
    assert m.cardId in rules.cardSpecs by {
      var k :| 0 <= k < |s.decks[s.currentPlayer].cells| && s.decks[s.currentPlayer].cells[k] == Occupied(m.cardId);
    }
    assert PlaceReady(rules, s.board, s, m);
    RulesCanPlay.CanPlayIffPlaced(rules, s, m);
    if rules.cardSpecs[m.cardId].value.Num? {
      NumberKeepsNumbers(rules, s, m);
      NumberLowers(rules, s, m);
    } else {
      ArrowKeepsNumbers(rules, s, m);
      ArrowSpends(rules, s, m);
    }
  }

  /** The clearing part: processRowClears keeps the decks, only empties
      cells, and so keeps the board free of arrows and never raises its
      worth. */
  lemma ClearingKeeps(rules: Rules, s: GameState, placed: GameState)
    requires Shaped(rules, s) && Shaped(rules, placed)
    requires NoArrowOnBoard(rules, placed.board.cells)
    ensures var after := ProcessRowClearsSpec(rules, s, placed);
            && NoArrowOnBoard(rules, after.board.cells)
            && DeckCount(after) == DeckCount(placed)
            && BoardWorth(rules, after.board.cells) <= BoardWorth(rules, placed.board.cells)
  {
    ClearingEmpties(rules, s, placed);
    var after := ProcessRowClearsSpec(rules, s, placed);
    WorthOfEmptied(rules, placed.board.cells, after.board.cells);
  }

  /** One move of a playout: a move listMoves offers, played on its own
      state, keeps the invariant and lowers the measure. */
  lemma RolloutStep(rules: Rules, s: GameState, m: Move)
    requires RolloutRules(rules) && Inv(rules, s)
    requires m in AiListMoves.ListMovesSpec(rules, s, s.currentPlayer)
    ensures PlaceReady(rules, s.board, s, m)
    ensures Inv(rules, PlayOnState(rules, s, m).state)
    ensures Below(rules, PlayOnState(rules, s, m).state, s)
  {
    PlacementLowers(rules, s, m);
    var placed := PlaceSpec(rules, s.board, s, m).state;
    var after := PlayOnState(rules, s, m).state;
    assert after == ProcessRowClearsSpec(rules, s, placed);
    PlayConserves(rules, s, m);
    Inventory.AllKnownWellFormed(rules, after);
    ClearingKeeps(rules, s, placed);
    assert NoArrowOnBoard(rules, after.board.cells);
    assert Below(rules, after, s);
  }

  /** Any in-bounds move of the current player keeps the invariant, whether
      playing it is taken or refused; the search replays such moves. */
  lemma PlayKeepsInv(rules: Rules, s: GameState, m: Move)
    requires Inv(rules, s)
    requires m.Place? ==> InBounds(rules, m.placement.col, m.placement.row) && m.player == s.currentPlayer
    ensures PlaceReady(rules, s.board, s, m)
    ensures Inv(rules, PlayOnState(rules, s, m).state)
  {
    InvReady(rules, s, m);
    var placed := PlaceSpec(rules, s.board, s, m);
    var after := PlayOnState(rules, s, m).state;
    if placed.accepted {
      PlacedKeepsNumbers(rules, s, m);
      ClearingKeeps(rules, s, placed.state);
      assert after == ProcessRowClearsSpec(rules, s, placed.state);
    }
    PlayConserves(rules, s, m);
    Inventory.AllKnownWellFormed(rules, after);
  }

  /** On a state that keeps the invariant, an in-bounds move meets what
      placeCard demands. */
  lemma InvReady(rules: Rules, s: GameState, m: Move)
    requires Inv(rules, s)
    requires m.Place? ==> InBounds(rules, m.placement.col, m.placement.row)
    ensures PlaceReady(rules, s.board, s, m)
  {
    if m.Place? && DeckHolds(s.decks[s.currentPlayer], m.cardId) {
      var k :| 0 <= k < |s.decks[s.currentPlayer].cells| && s.decks[s.currentPlayer].cells[k] == Occupied(m.cardId);
      assert m.cardId in rules.cardSpecs;
    }
  }

  /** A taken placement leaves no arrow on the board. */
  lemma PlacedKeepsNumbers(rules: Rules, s: GameState, m: Move)
    requires Inv(rules, s) && PlaceReady(rules, s.board, s, m)
    requires PlaceSpec(rules, s.board, s, m).accepted
    ensures NoArrowOnBoard(rules, PlaceSpec(rules, s.board, s, m).state.board.cells)
  {
    if m.Place? {
      if rules.cardSpecs[m.cardId].value.Num? {
        NumberKeepsNumbers(rules, s, m);
      } else {
        ArrowKeepsNumbers(rules, s, m);
      }
    }
  }

}
