/** The cards of a game as a bag of ids: the rules only ever move a card
    between a deck, the board and the trash, so the bag of every id held in
    the two decks, on the board and in the trash is what a transition must
    preserve. */
module Inventory {
  import opened Types
  import GameBase

  /** The ids a single cell holds: none or one. */
  function CellBag(c: Cell): (b: multiset<CardId>)
    ensures |b| == (if c.Occupied? then 1 else 0)
  {
    if c.Occupied? then multiset{c.cardId} else multiset{}
  }

  /** The ids held by a sequence of cells, counted with multiplicity. */
  function CellsBag(cells: seq<Cell>): multiset<CardId>
  {
    if cells == [] then multiset{}
    else CellsBag(cells[..|cells| - 1]) + CellBag(cells[|cells| - 1])
  }

  /** Every id in both decks, on the board and in the trash. */
  function StateBag(s: GameState): multiset<CardId>
    requires |s.decks| == 2
  {
    CellsBag(s.decks[0].cells) + CellsBag(s.decks[1].cells)
    + CellsBag(s.board.cells) + multiset(s.board.trashedCardIds)
  }

  /** No card is in two places at once. */
  predicate NoDup(s: GameState)
    requires |s.decks| == 2
  {
    forall x :: x in StateBag(s) ==> StateBag(s)[x] == 1
  }

  /** Every id the game holds anywhere has an entry in the card table. */
  predicate AllKnown(rules: Rules, s: GameState)
    requires |s.decks| == 2
  {
    forall x :: x in StateBag(s) ==> x in rules.cardSpecs
  }

  /** A shaped state whose ids are all known is well formed. */
  lemma AllKnownWellFormed(rules: Rules, s: GameState)
    requires Shaped(rules, s) && AllKnown(rules, s)
    ensures WellFormed(rules, s)
  {
    KnownCellsByBag(rules, s.board.cells);
    KnownCellsByBag(rules, s.decks[0].cells);
    KnownCellsByBag(rules, s.decks[1].cells);
    forall x | x in CellsBag(s.board.cells) ensures x in rules.cardSpecs {
      assert x in StateBag(s);
    }
    forall x | x in CellsBag(s.decks[0].cells) ensures x in rules.cardSpecs {
      assert x in StateBag(s);
    }
    forall x | x in CellsBag(s.decks[1].cells) ensures x in rules.cardSpecs {
      assert x in StateBag(s);
    }
  }

  /** An id is in the bag of some cells exactly when a cell holds it. */
  lemma {:induction false} CellsBagHas(cells: seq<Cell>, x: CardId)
    ensures x in CellsBag(cells) <==> Occupied(x) in cells
  {
    if cells != [] {
      var n := |cells| - 1;
      CellsBagHas(cells[..n], x);
      assert cells == cells[..n] + [cells[n]];
    }
  }

  /** The bag of a concatenation is the sum of the bags. */
  lemma {:induction false} CellsBagAppend(a: seq<Cell>, b: seq<Cell>)
    ensures CellsBag(a + b) == CellsBag(a) + CellsBag(b)
  {
    if b != [] {
      var n := |b| - 1;
      assert (a + b)[..|a + b| - 1] == a + b[..n];
      CellsBagAppend(a, b[..n]);
    } else {
      assert a + b == a;
    }
  }

  /** Adding the same bag to both sides of an equation of bags. */
  lemma BagStep(a: multiset<CardId>, b: multiset<CardId>, x: multiset<CardId>, y: multiset<CardId>, z: multiset<CardId>)
    requires a + y == b + z
    ensures a + x + y == b + x + z
  {
    forall k ensures (a + x + y)[k] == (b + x + z)[k] {
      assert (a + y)[k] == (b + z)[k];
    }
  }

  /** Overwriting one cell takes its id (if any) out of the bag and puts the
      new one (if any) in. */
  lemma {:induction false} CellsBagUpdate(cells: seq<Cell>, i: nat, c: Cell)
    requires i < |cells|
    ensures CellsBag(cells[i := c]) + CellBag(cells[i]) == CellsBag(cells) + CellBag(c)
    decreases |cells|, 1
  {
    if i < |cells| - 1 {
      CellsBagUpdateBefore(cells, i, c);
    } else {
      CellsBagUpdateLast(cells, c);
    }
  }

  /** Overwriting a cell other than the last: the induction step. */
  lemma {:induction false} CellsBagUpdateBefore(cells: seq<Cell>, i: nat, c: Cell)
    requires i < |cells| - 1
    ensures CellsBag(cells[i := c]) + CellBag(cells[i]) == CellsBag(cells) + CellBag(c)
    decreases |cells|, 0
  {
    var n := |cells| - 1;
    var cells' := cells[i := c];
    CellsBagLast(cells);
    CellsBagLast(cells');
    UpdateBeforeLast(cells, i, c);
    CellsBagUpdate(cells[..n], i, c);
    BagStep(CellsBag(cells'[..n]), CellsBag(cells[..n]), CellBag(cells[n]), CellBag(cells[i]), CellBag(c));
  }

  /** Overwriting the last cell. */
  lemma CellsBagUpdateLast(cells: seq<Cell>, c: Cell)
    requires |cells| > 0
    ensures CellsBag(cells[|cells| - 1 := c]) + CellBag(cells[|cells| - 1]) == CellsBag(cells) + CellBag(c)
  {
    var n := |cells| - 1;
    var cells' := cells[n := c];
    CellsBagLast(cells);
    CellsBagLast(cells');
    assert cells'[..n] == cells[..n];
    SwapLast(CellsBag(cells[..n]), CellBag(c), CellBag(cells[n]));
  }

  /** The last two bags of a union can change places. */
  lemma SwapLast(a: multiset<CardId>, x: multiset<CardId>, y: multiset<CardId>)
    ensures a + x + y == a + y + x
  {
    forall k ensures (a + x + y)[k] == (a + y + x)[k] {
    }
  }

  lemma CellsBagLast(cells: seq<Cell>)
    requires |cells| > 0
    ensures CellsBag(cells) == CellsBag(cells[..|cells| - 1]) + CellBag(cells[|cells| - 1])
  {
  }

  lemma UpdateBeforeLast(cells: seq<Cell>, i: nat, c: Cell)
    requires i < |cells| - 1
    ensures cells[i := c][..|cells| - 1] == cells[..|cells| - 1][i := c]
    ensures cells[i := c][|cells| - 1] == cells[|cells| - 1]
    ensures cells[..|cells| - 1][i] == cells[i]
  {
  }

  /** Emptying every cell that holds `id` removes all its copies and
      nothing else. */
  lemma {:induction false} CellsBagWithout(cells: seq<Cell>, id: CardId)
    ensures CellsBag(GameBase.CellsWithout(cells, id)) == CellsBag(cells)[id := 0]
  {
    var w := GameBase.CellsWithout(cells, id);
    if cells != [] {
      var n := |cells| - 1;
      assert w[..n] == GameBase.CellsWithout(cells[..n], id);
      CellsBagWithout(cells[..n], id);
      var b, b' := CellsBag(cells[..n]), CellsBag(w[..n]);
      assert CellsBag(w) == b' + CellBag(w[n]);
      assert CellsBag(cells) == b + CellBag(cells[n]);
      if cells[n] == Occupied(id) {
        assert w[n] == Empty;
        assert CellsBag(w) == b';
      } else {
        assert w[n] == cells[n];
        assert CellBag(cells[n])[id] == 0;
      }
    }
  }

  /** A deck with a free slot gains exactly the added id. */
  lemma DeckWithCardBag(deck: Deck, id: CardId)
    requires Empty in deck.cells
    ensures CellsBag(GameBase.DeckWithCard(deck, id).cells) == CellsBag(deck.cells) + multiset{id}
  {
    var k := GameBase.FirstEmpty(deck.cells).value;
    CellsBagUpdate(deck.cells, k, Occupied(id));
  }

  /** The cell sequence holding no card at all has an empty bag. */
  lemma {:induction false} EmptyCellsBag(cells: seq<Cell>)
    requires forall i :: 0 <= i < |cells| ==> cells[i] == Empty
    ensures CellsBag(cells) == multiset{}
  {
    if cells != [] {
      EmptyCellsBag(cells[..|cells| - 1]);
    }
  }

  /** The ids of a run of distinct occupied cells. */
  lemma {:induction false} DealtCellsBag(ids: seq<CardId>)
    ensures CellsBag(GameBase.DealtCells(ids)) == multiset(ids)
  {
    if ids != [] {
      var n := |ids| - 1;
      assert GameBase.DealtCells(ids)[..n] == GameBase.DealtCells(ids[..n]);
      assert ids == ids[..n] + [ids[n]];
      DealtCellsBag(ids[..n]);
    }
  }

  /** Cells whose every id is known, read off the bag. */
  lemma KnownCellsByBag(rules: Rules, cells: seq<Cell>)
    ensures KnownCells(rules, cells) <==> forall x :: x in CellsBag(cells) ==> x in rules.cardSpecs
  {
    forall x ensures x in CellsBag(cells) <==> Occupied(x) in cells {
      CellsBagHas(cells, x);
    }
    if KnownCells(rules, cells) {
      forall x | x in CellsBag(cells) ensures x in rules.cardSpecs {
        var i :| 0 <= i < |cells| && cells[i] == Occupied(x);
      }
    }
  }

  /** Swapping two cells keeps the bag. */
  lemma SwapBag(cells: seq<Cell>, i: nat, j: nat)
    requires i < |cells| && j < |cells|
    ensures CellsBag(cells[i := cells[j]][j := cells[i]]) == CellsBag(cells)
  {
    var c1 := cells[i := cells[j]];
    CellsBagUpdate(cells, i, cells[j]);
    CellsBagUpdate(c1, j, cells[i]);
    if i != j {
      assert c1[j] == cells[j];
      var c2 := c1[j := cells[i]];
      forall x ensures CellsBag(c2)[x] == CellsBag(cells)[x] {
        assert (CellsBag(c1) + CellBag(cells[i]))[x] == (CellsBag(cells) + CellBag(cells[j]))[x];
        assert (CellsBag(c2) + CellBag(cells[j]))[x] == (CellsBag(c1) + CellBag(cells[i]))[x];
      }
    } else {
      assert cells[i := cells[j]][j := cells[i]] == cells;
    }
  }
}
