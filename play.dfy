/** One move of the game (rules/play.ts): place the card, and when the
    placement is taken, clear the lines that were hot before and after. */
module RulesPlay {
  import opened Types
  import opened GameBase
  import opened ConsequenceLog
  import opened RulesPlaceCard
  import opened RulesProcessRowClears
  import Inventory
  import RulesCanPlay

  /** The state after a move and whether the move was taken. */
  datatype Played = Played(state: GameState, accepted: bool)

  /** play: a refused placement returns the previous state itself; a taken
      one (a pass included) goes through processRowClears. The covered card
      is read from `ref`, as placeCard does. */
  function PlaySpec(rules: Rules, ref: Board, prev: GameState, move: Move): (r: Played)
    requires PlaceReady(rules, ref, prev, move)
    ensures r.accepted == PlaceSpec(rules, ref, prev, move).accepted
    ensures !r.accepted ==> r.state == prev
    ensures r.state.currentPlayer == prev.currentPlayer
    ensures Shaped(rules, r.state)
  {
    var placed := PlaceSpec(rules, ref, prev, move);
    if !placed.accepted then Played(prev, false)
    else Played(ProcessRowClearsSpec(rules, prev, placed.state), true)
  }

  /** play, with the consequence sink handed on to placeCard. */
  method Play(rules: Rules, ref: Board, prev: GameState, move: Move, cons: Consequences)
    returns (state: GameState, accepted: bool)
    requires PlaceReady(rules, ref, prev, move)
    modifies cons`snaps
    ensures state == PlaySpec(rules, ref, prev, move).state
    ensures accepted == PlaySpec(rules, ref, prev, move).accepted
    ensures cons.snaps == old(cons.snaps) + (if cons.recording then PlaceSpec(rules, ref, prev, move).snaps else [])
  {
    var next, ok := PlaceCard(rules, ref, prev, move, cons);
    if !ok {
      return prev, false;
    }
    state := ProcessRowClears(rules, prev, next);
    accepted := true;
  }

  /** play reading the covered card from the state being played on. */
  function PlayOnState(rules: Rules, prev: GameState, move: Move): (r: Played)
    requires PlaceReady(rules, prev.board, prev, move)
    ensures r == PlaySpec(rules, prev.board, prev, move)
  {
    PlaySpec(rules, prev.board, prev, move)
  }

  /** What a game needs to be playable from: the shape of the rules, every
      id known to the card table and held in one place only. */
  predicate Sound(rules: Rules, s: GameState)
  {
    Shaped(rules, s) && Inventory.AllKnown(rules, s) && Inventory.NoDup(s)
  }

  /** A move, played on its own state by the current player, keeps every
      card in exactly one place and the state sound. */
  lemma PlayConserves(rules: Rules, prev: GameState, move: Move)
    requires Sound(rules, prev) && PlaceReady(rules, prev.board, prev, move)
    requires move.Place? ==> move.player == prev.currentPlayer
    ensures Inventory.StateBag(PlayOnState(rules, prev, move).state) == Inventory.StateBag(prev)
    ensures Sound(rules, PlayOnState(rules, prev, move).state)
  {
    Inventory.AllKnownWellFormed(rules, prev);
    PlaceConserves(rules, prev, move);
    var placed := PlaceSpec(rules, prev.board, prev, move);
    if placed.accepted {
      assert Inventory.AllKnown(rules, placed.state);
      Inventory.AllKnownWellFormed(rules, placed.state);
      ProcessRowClearsConserves(rules, prev, placed.state);
    }
  }

  /** A move is taken exactly when canPlay allows it. */
  lemma PlayTakenIffCanPlay(rules: Rules, prev: GameState, move: Move)
    requires PlaceReady(rules, prev.board, prev, move)
    requires move.Place? ==> DeckHolds(prev.decks[prev.currentPlayer], move.cardId)
    ensures RulesCanPlay.CanPlayReady(rules, prev, move)
    ensures PlayOnState(rules, prev, move).accepted <==> RulesCanPlay.CanPlay(rules, prev, move)
  {
    RulesCanPlay.CanPlayIffPlaced(rules, prev, move);
  }

  /** A pass keeps the decks and empties every line that is already hot. */
  lemma PassClearsHotLines(rules: Rules, prev: GameState, move: Move, c: int, r: int)
    requires Shaped(rules, prev) && move.Pass? && InBounds(rules, c, r)
    ensures PlaceReady(rules, prev.board, prev, move)
    ensures PlayOnState(rules, prev, move).accepted
    ensures PlayOnState(rules, prev, move).state.decks == prev.decks
    ensures BoardGetCell(rules, PlayOnState(rules, prev, move).state.board, c, r)
            == if RowSum(rules, prev.board, r) > rules.maxSum || ColSum(rules, prev.board, c) > rules.maxSum
               then Empty else BoardGetCell(rules, prev.board, c, r)
  {
    PassIsTaken(rules, prev.board, prev, move);
    ProcessRowClearsCells(rules, prev, prev, c, r);
  }

  // ---------------------------------------------------------------- as written

  /** play as the source has it calls placeCard without a sink; the first
      snapshot of a taken placement is then reported on `undefined` and
      throws. `None` stands for that throw. */
  function PlayAsWritten(rules: Rules, ref: Board, prev: GameState, move: Move): (r: Option<GameState>)
    requires PlaceReady(rules, ref, prev, move)
    ensures r.Some? ==> r.value == PlaySpec(rules, ref, prev, move).state
  {
    if PlaceSpec(rules, ref, prev, move).snaps != [] then None
    else Some(PlaySpec(rules, ref, prev, move).state)
  }

  /** Every placement canPlay allows throws in play as written; only passes
      and refused moves return. */
  lemma PlayAsWrittenThrows(rules: Rules, prev: GameState, move: Move)
    requires PlaceReady(rules, prev.board, prev, move)
    requires move.Place? ==> DeckHolds(prev.decks[prev.currentPlayer], move.cardId)
    ensures RulesCanPlay.CanPlayReady(rules, prev, move)
    ensures PlayAsWritten(rules, prev.board, prev, move).None?
            <==> move.Place? && RulesCanPlay.CanPlay(rules, prev, move)
  {
    RulesCanPlay.CanPlayIffPlaced(rules, prev, move);
  }

  /** A one-cell game: player 0 plays its 3 on the empty cell. */
  const ThrowRules := Rules(1, 1, 8, map[2 := CardSpec(0, Num(3))])
  const ThrowPrev := GameState(0, Board([Empty], []), [Deck([Occupied(2)]), Deck([])])
  const ThrowMove := Place(0, 2, Placement(0, 0))

  lemma PlayAsWrittenThrowsHere()
    ensures PlaceReady(ThrowRules, ThrowPrev.board, ThrowPrev, ThrowMove)
    ensures PlayAsWritten(ThrowRules, ThrowPrev.board, ThrowPrev, ThrowMove) == None
    ensures PlayOnState(ThrowRules, ThrowPrev, ThrowMove).accepted
  {
    assert UnderCard(ThrowRules, ThrowPrev.board, ThrowMove) == None by {
      assert CellIndex(ThrowRules, 0, 0) == 0;
    }
    assert PlaceSpec(ThrowRules, ThrowPrev.board, ThrowPrev, ThrowMove) == NumericPlay(ThrowRules, ThrowPrev, ThrowMove, None);
  }
}
