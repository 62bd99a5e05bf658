/** The game object (game.ts): the rules and state it inherits from the
    game base, the phase the interface shows, and the tutorial script it
    steps through. The drawing, dragging, audio and worker plumbing of the
    source class are not part of this model. */
module GameFlow {
  import opened Types
  import opened GameBase
  import opened ConsequenceLog
  import opened RulesPlay
  import opened AiListMoves
  import AiComputeScore
  import RulesPlaceCard
  import RulesCanPlay
  import Inventory
  import AiRollout

  // ---------------------------------------------------------------- script

  /** A move the script waits for; only its presence matters here. */
  datatype ScriptMove = ScriptMove(player: int, placement: Placement)

  /** One step of a tutorial: an optional text and an optional move. */
  datatype ScriptItem = ScriptItem(text: Option<string>, move: Option<ScriptMove>)

  datatype Script = Script(items: seq<ScriptItem>)

  /** A text counts as present when it is set and not empty. */
  predicate Present(text: Option<string>)
  {
    text.Some? && text.value != ""
  }

  /** What tutorialNext leaves as the shown text and the script index. */
  function TutorialStep(item: Option<ScriptItem>, force: bool, text: string, target: string, index: nat): (r: (string, nat))
    ensures r.1 == index || r.1 == index + 1
    ensures r.1 == index + 1 <==> item.Some? && (force || (item.value.move.None? && !(Present(item.value.text) && target != text)))
    ensures r.0 != text ==> r.0 == target && r.1 == index && !force
    ensures item.None? ==> r == (text, index)
  {
    if item.None? then (text, index)
    else if Present(item.value.text) && !force && target != text then (target, index)
    else if force || item.value.move.None? then (text, index + 1)
    else (text, index)
  }

  /** allTextShown for the given current item and shown text. */
  function TextShown(item: Option<ScriptItem>, text: string): (r: bool)
    ensures !r <==> item.Some? && Present(item.value.text) && text != item.value.text.value
  {
    if item.None? then true
    else if !Present(item.value.text) then true
    else text == item.value.text.value
  }

  // ---------------------------------------------------------------- phases

  /** The phase of the game. A transition holds the consequences to animate
      and the state to adopt once they have played. */
  datatype Phase =
    | MovePhase
    | TransitionPhase(cons: Consequences, nextState: GameState)
    | GameOverPhase(scores: seq<real>)
    | MainMenuPhase

  /** checkEnd's condition: the player to move has no move, and neither has
      the other player once the turn has passed to them. */
  predicate GameIsOver(rules: Rules, s: GameState)
    requires WellFormed(rules, s)
  {
    ListMovesSpec(rules, s, s.currentPlayer) == []
    && ListMovesSpec(rules, StateAdvanceTurn(s), 1 - s.currentPlayer) == []
  }

  /** No card of the player to move can go on any cell. */
  ghost predicate NoLegalMove(rules: Rules, s: GameState)
    requires Shaped(rules, s)
  {
    forall id: CardId, c: int, r: int ::
      DeckHolds(s.decks[s.currentPlayer], id) && id in rules.cardSpecs && InBounds(rules, c, r)
      ==> !RulesCanPlay.CanPlay(rules, s, Place(s.currentPlayer, id, Placement(c, r)))
  }

  class Game {
    const rules: Rules
    var state: GameState
    var phase: Phase
    const script: Option<Script>
    var scriptIndex: nat
    var tutorialText: string
    var tutorialTextTarget: string

    /** The constructor: deal a new game from the settings and start in the
        move phase at the first script item. The fresh ids the source draws
        are the parameter `ids`. */
    constructor (settings: Settings, ids: seq<CardId>, script: Option<Script>)
      requires |ids| == 2 * |DeckContents| && Distinct(ids)
      requires |settings.players| == 2
      ensures rules.numCols == settings.numCols && rules.numRows == settings.numRows
      ensures rules.maxSum == settings.maxSum
      ensures state.currentPlayer == 0 && state.board.trashedCardIds == []
      ensures forall i :: 0 <= i < |state.board.cells| ==> state.board.cells[i] == Empty
      ensures state.decks == [Deck(DealtCells(ids[..|DeckContents|])), Deck(DealtCells(ids[|DeckContents|..]))]
      ensures rules.cardSpecs.Keys == (set x | x in ids)
      ensures forall k :: 0 <= k < |DeckContents| ==> rules.cardSpecs[ids[k]] == CardSpec(0, DeckContents[k])
      ensures forall k :: 0 <= k < |DeckContents| ==>
                rules.cardSpecs[ids[|DeckContents| + k]] == CardSpec(1, DeckContents[k])
      ensures Sound(rules, state) && WellFormed(rules, state)
      ensures AiRollout.RolloutRules(rules) && AiRollout.Inv(rules, state)
      ensures phase == MovePhase && this.script == script
      ensures scriptIndex == 0 && tutorialText == "" && tutorialTextTarget == ""
    {
      var r := FromSettings(settings, ids);
      var (rs, s) := r.value;
      InitialStateSound(rs, s, ids);
      Inventory.AllKnownWellFormed(rs, s);
      DealtGameEnds(rs, s, ids);
      rules := rs;
      state := s;
      phase := MovePhase;
      this.script := script;
      scriptIndex := 0;
      tutorialText, tutorialTextTarget := "", "";
    }

    /** applyMove: play the move on the current state with a recording
        sink. A refused move changes nothing; a taken one starts the
        transition to the next state, which the state itself does not yet
        become. */
    method ApplyMove(move: Move)
      requires RulesPlaceCard.PlaceReady(rules, state.board, state, move)
      modifies this`phase
      ensures !PlayOnState(rules, state, move).accepted ==> phase == old(phase)
      ensures PlayOnState(rules, state, move).accepted ==>
                && phase.TransitionPhase?
                && phase.nextState == PlayOnState(rules, state, move).state
                && fresh(phase.cons) && phase.cons.recording
                && phase.cons.snaps == RulesPlaceCard.PlaceSpec(rules, state.board, state, move).snaps
    {
      var prevState := state;
      var cons := new Consequences.Recording();
      var nextState, accepted := Play(rules, prevState.board, prevState, move, cons);
      if !accepted {
        return;
      }
      phase := TransitionPhase(cons, nextState);
    }

    /** checkEnd: when neither player can move, the game is over with both
        players' scores, player 0's first; otherwise nothing changes. */
    method CheckEnd()
      requires WellFormed(rules, state)
      modifies this`phase
      ensures GameIsOver(rules, state) ==>
                phase == GameOverPhase([AiComputeScore.ScoreOf(rules, state.board.cells, 0),
                                        AiComputeScore.ScoreOf(rules, state.board.cells, 1)])
      ensures !GameIsOver(rules, state) ==> phase == old(phase)
    {
      var s := state;
      var moves := ListMoves(rules, s, s.currentPlayer);
      if |moves| == 0 {
        s := StateAdvanceTurn(s);
        var others := ListMoves(rules, s, s.currentPlayer);
        if |others| == 0 {
          var score0 := AiComputeScore.ComputeScore(rules, state, 0);
          var score1 := AiComputeScore.ComputeScore(rules, state, 1);
          phase := GameOverPhase([score0, score1]);
        }
      }
    }

    /** currentScriptItem: none without a script or past its last item. */
    function CurrentScriptItem(): (r: Option<ScriptItem>)
      reads this
      ensures r.Some? <==> script.Some? && scriptIndex < |script.value.items|
      ensures r.Some? ==> r.value == script.value.items[scriptIndex]
    {
      if script.None? then None
      else if scriptIndex < |script.value.items| then Some(script.value.items[scriptIndex])
      else None
    }

    /** tutorialNext: first reveal the item's whole text, then move on to
        the next item, unless the item waits for a move and the step is not
        forced. */
    method TutorialNext(force: bool)
      modifies this`tutorialText, this`scriptIndex
      ensures (tutorialText, scriptIndex)
              == TutorialStep(old(CurrentScriptItem()), force, old(tutorialText), tutorialTextTarget, old(scriptIndex))
    {
      var csi := CurrentScriptItem();
      if csi.None? {
        return;
      }
      if Present(csi.value.text) && !force && tutorialTextTarget != tutorialText {
        tutorialText := tutorialTextTarget;
        return;
      }
      if force || csi.value.move.None? {
        scriptIndex := scriptIndex + 1;
      }
    }

    /** allTextShown: true unless the current item has a text that is not
        yet the shown one. */
    function AllTextShown(): (r: bool)
      reads this
      ensures !r <==> CurrentScriptItem().Some? && Present(CurrentScriptItem().value.text)
                      && tutorialText != CurrentScriptItem().value.text.value
    {
      TextShown(CurrentScriptItem(), tutorialText)
    }
  }

  // ---------------------------------------------------------------- properties

  /** A duplicate-free sequence holds each of its elements once. */
  lemma {:induction false} DistinctOnce(ids: seq<CardId>)
    requires Distinct(ids)
    ensures forall x :: x in multiset(ids) ==> multiset(ids)[x] == 1
  {
    if ids != [] {
      var n := |ids| - 1;
      assert ids == ids[..n] + [ids[n]];
      assert Distinct(ids[..n]);
      assert ids[n] !in ids[..n];
      DistinctOnce(ids[..n]);
    }
  }

  /** A freshly dealt game is sound: every card is in the card table and in
      exactly one deck. */
  lemma InitialStateSound(rules: Rules, s: GameState, ids: seq<CardId>)
    requires |ids| == 2 * |DeckContents| && Distinct(ids)
    requires rules.cardSpecs.Keys == (set x | x in ids)
    requires |s.board.cells| == rules.numCols * rules.numRows
    requires forall i :: 0 <= i < |s.board.cells| ==> s.board.cells[i] == Empty
    requires s.board.trashedCardIds == []
    requires s.decks == [Deck(DealtCells(ids[..|DeckContents|])), Deck(DealtCells(ids[|DeckContents|..]))]
    ensures Sound(rules, s)
  {
    var n := |DeckContents|;
    Inventory.DealtCellsBag(ids[..n]);
    Inventory.DealtCellsBag(ids[n..]);
    Inventory.EmptyCellsBag(s.board.cells);
    assert ids == ids[..n] + ids[n..];
    assert Inventory.StateBag(s) == multiset(ids);
    DistinctOnce(ids);
  }

  /** The table fromSettings deals, read by position in `ids`, is one under
      which playouts end, and the dealt state, with its empty board, meets
      the playout invariant. */
  lemma DealtGameEnds(rules: Rules, s: GameState, ids: seq<CardId>)
    requires |ids| == 2 * |DeckContents| && Distinct(ids)
    requires rules.cardSpecs.Keys == (set x | x in ids)
    requires forall k :: 0 <= k < |DeckContents| ==>
               rules.cardSpecs[ids[..|DeckContents|][k]] == CardSpec(0, DeckContents[k])
    requires forall k :: 0 <= k < |DeckContents| ==>
               rules.cardSpecs[ids[|DeckContents|..][k]] == CardSpec(1, DeckContents[k])
    requires Sound(rules, s) && WellFormed(rules, s)
    requires forall i :: 0 <= i < |s.board.cells| ==> s.board.cells[i] == Empty
    ensures forall k :: 0 <= k < |DeckContents| ==> rules.cardSpecs[ids[k]] == CardSpec(0, DeckContents[k])
    ensures forall k :: 0 <= k < |DeckContents| ==>
              rules.cardSpecs[ids[|DeckContents| + k]] == CardSpec(1, DeckContents[k])
    ensures AiRollout.RolloutRules(rules) && AiRollout.Inv(rules, s)
  {
    var n := |DeckContents|;
    forall k | 0 <= k < n
      ensures rules.cardSpecs[ids[k]] == CardSpec(0, DeckContents[k])
      ensures rules.cardSpecs[ids[n + k]] == CardSpec(1, DeckContents[k])
    {
      assert ids[..n][k] == ids[k] && ids[n..][k] == ids[n + k];
    }
    AiRollout.DealtRulesEnd(rules, ids);
  }

  /** listMoves offers nothing exactly when no card of the player to move
      can go anywhere. */
  lemma NoMovesIffNoLegalMove(rules: Rules, s: GameState)
    requires WellFormed(rules, s)
    ensures ListMovesSpec(rules, s, s.currentPlayer) == [] <==> NoLegalMove(rules, s)
  {
    var p := s.currentPlayer;
    ListMovesMembers(rules, s, p);
    if !NoLegalMove(rules, s) {
      var id: CardId, c: int, r: int :|
        DeckHolds(s.decks[p], id) && id in rules.cardSpecs && InBounds(rules, c, r)
        && RulesCanPlay.CanPlay(rules, s, Place(p, id, Placement(c, r)));
      assert Place(p, id, Placement(c, r)) in ListMovesSpec(rules, s, p);
    }
    if ListMovesSpec(rules, s, p) != [] {
      var m := ListMovesSpec(rules, s, p)[0];
      assert m in ListMovesSpec(rules, s, p);
    }
  }

  /** The game is over exactly when neither player, on their own turn, has
      a card that canPlay allows anywhere on the board. */
  lemma GameOverIffNoLegalMove(rules: Rules, s: GameState)
    requires WellFormed(rules, s)
    ensures GameIsOver(rules, s) <==> NoLegalMove(rules, s) && NoLegalMove(rules, StateAdvanceTurn(s))
  {
    NoMovesIffNoLegalMove(rules, s);
    NoMovesIffNoLegalMove(rules, StateAdvanceTurn(s));
  }

  /** Once both decks are empty the game is over. */
  lemma EmptyDecksEndTheGame(rules: Rules, s: GameState)
    requires WellFormed(rules, s)
    requires forall i :: 0 <= i < |s.decks[0].cells| ==> s.decks[0].cells[i] == Empty
    requires forall i :: 0 <= i < |s.decks[1].cells| ==> s.decks[1].cells[i] == Empty
    ensures GameIsOver(rules, s)
  {
    EmptyDeckHasNoMoves(rules, s, s.currentPlayer);
    EmptyDeckHasNoMoves(rules, StateAdvanceTurn(s), 1 - s.currentPlayer);
  }

  /** A step that is not forced, on an item whose text is set as the target
      but not yet shown, shows the whole text and stays on the item; all of
      its text is then shown. */
  lemma RevealShowsText(item: ScriptItem, text: string, index: nat)
    requires Present(item.text) && text != item.text.value
    ensures TutorialStep(Some(item), false, text, item.text.value, index) == (item.text.value, index)
    ensures TextShown(Some(item), item.text.value)
  {
  }

  /** An item that waits for a move is never left by an unforced step: the
      tutorial only moves on when the move is made and the step is forced. */
  lemma ScriptedMoveWaits(item: ScriptItem, text: string, target: string, index: nat)
    requires item.move.Some?
    ensures TutorialStep(Some(item), false, text, target, index).1 == index
  {
  }

  /** Once the shown text is the target, an unforced step on an item without
      a move goes on to the next item, and a forced step always does. */
  lemma ShownTextAdvances(item: ScriptItem, text: string, index: nat, force: bool)
    requires force || item.move.None?
    ensures TutorialStep(Some(item), force, text, text, index) == (text, index + 1)
  {
  }
}
